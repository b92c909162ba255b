/**
  Extraction of one answer block of a DMP form (DMP_stats_v1.4.py): the
  question node is looked up outside any `try`, a node with fewer than
  seven keys gives `Unknown`, and every failure inside the `try` is caught
  by a bare `except` that substitutes `Unknown`.
 */
module Extractor {
  import opened Outcomes
  import opened JsonValue
  import opened PyText
  import opened Sanitizer
  import opened Schema

  const Unknown := "Unknown"

  /** A node needs this many keys before its answer is read. */
  const MinKeys := 7

  /** How a free-text answer is cleaned and when an empty one becomes `Unknown`. */
  datatype TextRule = TextRule(
    semicolon: string,            // what `;` is replaced by
    unknownIfRawEmpty: bool,      // `if text == '': Unknown` before cleaning
    unknownIfCleanEmpty: bool)    // `if answer == '': Unknown` after cleaning

  /** How ticked options are aggregated and whether none at all becomes `Unknown`. */
  datatype OptionRule = OptionRule(separator: string, unknownIfEmpty: bool)

  /** One block of the form-reading loop, in the order the script runs them. */
  datatype Block =
    | TextBlock(column: Column, section: nat, question: nat, t: TextRule)
    | OptionsBlock(column: Column, section: nat, question: nat, o: OptionRule)
    | PairBlock(textColumn: Column, optionsColumn: Column, section: nat, question: nat,
                t: TextRule, o: OptionRule)
      // read only when the section does not have exactly `skipCount` questions
    | GuardedTextBlock(column: Column, skipCount: nat, section: nat, question: nat, t: TextRule)
    | FixedBlock(column: Column, value: string)

  /** The columns a block fills, in the order it fills them. */
  function BlockColumns(b: Block): seq<Column> {
    match b
    case PairBlock(tc, oc, _, _, _, _) => [tc, oc]
    case TextBlock(c, _, _, _) => [c]
    case OptionsBlock(c, _, _, _) => [c]
    case GuardedTextBlock(c, _, _, _, _) => [c]
    case FixedBlock(c, _) => [c]
  }

  // ---------------------------------------------------------------------
  // Reading one question node
  // ---------------------------------------------------------------------

  /** `doc['plan_content'][0]['sections'][section]['questions']`. */
  function QuestionList(doc: Value, section: nat): Option<Value> {
    var content :- Key(doc, "plan_content");
    var first :- At(content, 0);
    var sections :- Key(first, "sections");
    var sec :- At(sections, section);
    Key(sec, "questions")
  }

  /** The node and its `len`, both evaluated outside the `try`. */
  function Node(doc: Value, section: nat, question: nat): (r: Result<(Value, nat)>)
    ensures r.Ok? ==> QuestionList(doc, section).Some?
    ensures r.Ok? ==> At(QuestionList(doc, section).value, question) == Some(r.value.0)
    ensures r.Ok? ==> Len(r.value.0) == Some(r.value.1)
  {
    var qs :- Require(QuestionList(doc, section));
    var node :- Require(At(qs, question));
    var n :- Require(Len(node));
    Ok((node, n))
  }

  /**
    `remove_html` applied to whatever the `text` key holds: a string is
    scanned by character, a list by element and a dict by key; a number,
    a boolean or `None` cannot be iterated and raises.  A dict whose keys
    are all `<` or `>` yields nothing in any order, and one with a key that
    is neither raises on its first key unless it also has a `<` or `>` key.
   */
  function RemoveHtmlOf(v: Value): (r: Option<string>)
    ensures v.Str? ==> r == RemoveHtmlOutcome(v.s)
    ensures v.Arr? ==> r == RemoveHtmlItems(v.items)
    ensures v.Obj? && v.fields.Keys <= {"<", ">"} ==> r == Some("")
    ensures v.Obj? && "<" !in v.fields && ">" !in v.fields && |v.fields| > 0 ==> r.None?
    ensures v.Null? || v.Bool? || v.Num? ==> r.None?
  {
    match v
    case Str(s) => RemoveHtmlOutcome(s)
    case Arr(items) => RemoveHtmlItems(items)
    case Obj(m) => if m.Keys <= {"<", ">"} then Some("") else None
    case _ => None
  }

  /** The text half of a block; `None` where the `try` body raises. */
  function TextAnswer(node: Value, rule: TextRule): Option<string> {
    var answer :- Key(node, "answer");
    var text :- Key(answer, "text");
    if rule.unknownIfRawEmpty && text == Str("") then Some(Unknown)
    else
      var m :- RemoveHtmlOf(text);
      var c := Cleaned(m, rule.semicolon);
      Some(if rule.unknownIfCleanEmpty && c == "" then Unknown else c)
  }

  /** `options[k]['text']`, which must be a string to be concatenated. */
  function OptionText(opt: Value): (r: Option<string>)
    ensures r.Some? <==> Key(opt, "text").Some? && Key(opt, "text").value.Str?
  {
    var t :- Key(opt, "text");
    if t.Str? then Some(t.s) else None
  }

  /** The accumulator after the first `|items|` iterations of the option loop. */
  function Aggregated(items: seq<Value>, sep: string): Option<string>
    decreases |items|
  {
    if |items| == 0 then Some("")
    else
      var acc :- Aggregated(items[..|items| - 1], sep);
      var t :- OptionText(items[|items| - 1]);
      Some(acc + sep + t)
  }

  /**
    The option loop on the `options` value: `len` must exist, and only a
    list has elements that can carry a `text` key.
   */
  function OptionsOf(container: Value, sep: string): Option<string> {
    var n :- Len(container);
    if n == 0 then Some("")
    else if container.Arr? then Aggregated(container.items, sep)
    else None
  }

  /** The while loop that concatenates the option texts (e.g. DMP_stats_v1.4.py:295-301). */
  method AggregateOptions(container: Value, sep: string) returns (r: Option<string>)
    ensures r == OptionsOf(container, sep)
  {
    var n := Len(container);
    if n.None? {
      return None;
    }
    var acc := "";
    var k := 0;
    while k < n.value
      invariant 0 <= k <= n.value
      invariant container.Arr? ==> Aggregated(container.items[..k], sep) == Some(acc)
      invariant !container.Arr? ==> k == 0 && acc == ""
    {
      var opt := At(container, k);
      if opt.None? {
        return None;
      }
      var t := OptionText(opt.value);
      if t.None? {
        if container.Arr? {
          AggregatedFailsOnBadOption(container.items, sep, k);
        }
        return None;
      }
      assert container.Arr?;
      assert container.items[..k + 1][..k] == container.items[..k];
      acc := acc + sep + t.value;
      k := k + 1;
    }
    if container.Arr? {
      assert container.items[..k] == container.items;
    }
    return Some(acc);
  }

  /** The options half of a block; `None` where the `try` body raises. */
  function OptionsAnswer(node: Value, rule: OptionRule): Option<string> {
    var answer :- Key(node, "answer");
    var options :- Key(answer, "options");
    var agg :- OptionsOf(options, rule.separator);
    Some(if rule.unknownIfEmpty && |agg| == 0 then Unknown else agg)
  }

  /** The cells a block yields, as (column, value) pairs. */
  function BlockCells(doc: Value, b: Block): Result<seq<(Column, string)>> {
    match b
    case FixedBlock(c, v) => Ok([(c, v)])
    case GuardedTextBlock(c, skip, s, q, t) =>
      var qs :- Require(QuestionList(doc, s));
      var count :- Require(Len(qs));
      if count == skip then Ok([(c, Unknown)])
      else
        var (node, n) :- Node(doc, s, q);
        Ok([(c, if n < MinKeys then Unknown else TextAnswer(node, t).GetOr(Unknown))])
    case TextBlock(c, s, q, t) =>
      var (node, n) :- Node(doc, s, q);
      Ok([(c, if n < MinKeys then Unknown else TextAnswer(node, t).GetOr(Unknown))])
    case OptionsBlock(c, s, q, o) =>
      var (node, n) :- Node(doc, s, q);
      Ok([(c, if n < MinKeys then Unknown else OptionsAnswer(node, o).GetOr(Unknown))])
    case PairBlock(tc, oc, s, q, t, o) =>
      var (node, n) :- Node(doc, s, q);
      if n < MinKeys then Ok([(tc, Unknown), (oc, Unknown)])
      else
        match (TextAnswer(node, t), OptionsAnswer(node, o))
        case (Some(tv), Some(ov)) => Ok([(tc, tv), (oc, ov)])
        case _ => Ok([(tc, Unknown), (oc, Unknown)])
  }

  /** The free-text part of a block, as the script runs it. */
  method ReadText(node: Value, rule: TextRule) returns (r: Option<string>)
    ensures r == TextAnswer(node, rule)
  {
    var answer := Key(node, "answer");
    if answer.None? {
      return None;
    }
    var text := Key(answer.value, "text");
    if text.None? {
      return None;
    }
    if rule.unknownIfRawEmpty && text.value == Str("") {
      return Some(Unknown);
    }
    var m: Option<string>;
    if text.value.Str? {
      m := RemoveHtml(text.value.s);
    } else if text.value.Arr? {
      m := RemoveHtmlList(text.value.items);
    } else {
      m := RemoveHtmlOf(text.value);
    }
    if m.None? {
      return None;
    }
    var c := CleanAnswer(m.value, rule.semicolon);
    if rule.unknownIfCleanEmpty && c == "" {
      c := Unknown;
    }
    return Some(c);
  }

  /** The options part of a block, as the script runs it. */
  method ReadOptions(node: Value, rule: OptionRule) returns (r: Option<string>)
    ensures r == OptionsAnswer(node, rule)
  {
    var answer := Key(node, "answer");
    if answer.None? {
      return None;
    }
    var options := Key(answer.value, "options");
    if options.None? {
      return None;
    }
    var agg := AggregateOptions(options.value, rule.separator);
    if agg.None? {
      return None;
    }
    if rule.unknownIfEmpty && |agg.value| == 0 {
      return Some(Unknown);
    }
    return agg;
  }

  /** One block of the form-reading loop. */
  method ReadBlock(doc: Value, b: Block) returns (r: Result<seq<(Column, string)>>)
    ensures r == BlockCells(doc, b)
  {
    if b.FixedBlock? {
      return Ok([(b.column, b.value)]);
    }
    if b.GuardedTextBlock? {
      var qs := QuestionList(doc, b.section);
      if qs.None? {
        return Fatal;
      }
      var count := Len(qs.value);
      if count.None? {
        return Fatal;
      }
      if count.value == b.skipCount {
        return Ok([(b.column, Unknown)]);
      }
    }
    var found := Node(doc, b.section, b.question);
    if found.Fatal? {
      return Fatal;
    }
    var (node, n) := found.value;
    if b.PairBlock? {
      if n < MinKeys {
        return Ok([(b.textColumn, Unknown), (b.optionsColumn, Unknown)]);
      }
      var tv := ReadText(node, b.t);
      var ov := ReadOptions(node, b.o);
      if tv.Some? && ov.Some? {
        return Ok([(b.textColumn, tv.value), (b.optionsColumn, ov.value)]);
      }
      return Ok([(b.textColumn, Unknown), (b.optionsColumn, Unknown)]);
    }
    var v := Unknown;
    if n >= MinKeys {
      var a: Option<string>;
      if b.OptionsBlock? {
        a := ReadOptions(node, b.o);
      } else {
        a := ReadText(node, b.t);
      }
      v := a.GetOr(Unknown);
    }
    return Ok([(b.column, v)]);
  }

  // ---------------------------------------------------------------------
  // Properties of the extraction
  // ---------------------------------------------------------------------

  /** A block yields one cell per column it names, in that order. */
  lemma BlockCellsColumns(doc: Value, b: Block)
    requires BlockCells(doc, b).Ok?
    ensures |BlockCells(doc, b).value| == |BlockColumns(b)|
    ensures forall i :: 0 <= i < |BlockColumns(b)| ==> BlockCells(doc, b).value[i].0 == BlockColumns(b)[i]
  {
  }

  /** The node lookup and its `len` sit outside the `try`: when either fails the run stops. */
  lemma LookupFailureIsFatal(doc: Value, b: Block)
    requires !b.FixedBlock? && !b.GuardedTextBlock?
    requires QuestionList(doc, b.section).None?
          || At(QuestionList(doc, b.section).value, b.question).None?
          || Len(At(QuestionList(doc, b.section).value, b.question).value).None?
    ensures BlockCells(doc, b).Fatal?
  {
  }

  /** A node with fewer than seven keys makes every column of its block `Unknown`. */
  lemma ShortNodeIsUnknown(doc: Value, b: Block)
    requires !b.FixedBlock? && !b.GuardedTextBlock?
    requires Node(doc, b.section, b.question).Ok?
    requires Node(doc, b.section, b.question).value.1 < MinKeys
    ensures BlockCells(doc, b).Ok?
    ensures forall i :: 0 <= i < |BlockCells(doc, b).value| ==> BlockCells(doc, b).value[i].1 == Unknown
  {
  }

  /**
    In a text+options block a failure in either half makes both halves
    `Unknown`; otherwise each column holds its own half.
   */
  lemma PairHalvesFailTogether(doc: Value, b: Block)
    requires b.PairBlock?
    requires Node(doc, b.section, b.question).Ok?
    ensures var (node, n) := Node(doc, b.section, b.question).value;
            var tv := TextAnswer(node, b.t);
            var ov := OptionsAnswer(node, b.o);
            BlockCells(doc, b) == Ok([(b.textColumn, if n >= MinKeys && tv.Some? && ov.Some? then tv.value else Unknown),
                                      (b.optionsColumn, if n >= MinKeys && tv.Some? && ov.Some? then ov.value else Unknown)])
  {
  }

  /** `Other_DMP_url`: a section with exactly the skip count of questions gives `Unknown` without reading the node. */
  lemma GuardedBlockSkips(doc: Value, b: Block)
    requires b.GuardedTextBlock?
    requires QuestionList(doc, b.section).Some?
    requires Len(QuestionList(doc, b.section).value) == Some(b.skipCount)
    ensures BlockCells(doc, b) == Ok([(b.column, Unknown)])
  {
  }

  /** The option texts joined from the front, each preceded by the separator: the reference for the loop. */
  function SeparatedConcat(texts: seq<string>, sep: string): string
    decreases |texts|
  {
    if |texts| == 0 then "" else sep + texts[0] + SeparatedConcat(texts[1..], sep)
  }

  lemma {:induction false} SeparatedConcatSnoc(texts: seq<string>, t: string, sep: string)
    ensures SeparatedConcat(texts + [t], sep) == SeparatedConcat(texts, sep) + sep + t
    decreases |texts|
  {
    if |texts| == 0 {
      assert texts + [t] == [t];
    } else {
      assert (texts + [t])[1..] == texts[1..] + [t];
      SeparatedConcatSnoc(texts[1..], t, sep);
    }
  }

  /** A list of option objects whose `text` values are the given strings. */
  predicate OptionsWithTexts(items: seq<Value>, texts: seq<string>) {
    |items| == |texts|
    && forall i :: 0 <= i < |items| ==> Key(items[i], "text") == Some(Str(texts[i]))
  }

  /**
    The loop's accumulator is the concatenation, in list order, of the
    separator followed by each option's text.
   */
  lemma {:induction false} AggregatedIsSeparatedConcat(items: seq<Value>, texts: seq<string>, sep: string)
    requires OptionsWithTexts(items, texts)
    ensures Aggregated(items, sep) == Some(SeparatedConcat(texts, sep))
    decreases |items|
  {
    if |items| > 0 {
      var n := |items| - 1;
      AggregatedIsSeparatedConcat(items[..n], texts[..n], sep);
      SeparatedConcatSnoc(texts[..n], texts[n], sep);
      assert texts[..n] + [texts[n]] == texts;
    }
  }

  /** An option without a string `text` makes the whole aggregation fail. */
  lemma {:induction false} AggregatedFailsOnBadOption(items: seq<Value>, sep: string, k: nat)
    requires k < |items| && OptionText(items[k]).None?
    ensures Aggregated(items, sep).None?
    decreases |items|
  {
    if k < |items| - 1 {
      AggregatedFailsOnBadOption(items[..|items| - 1], sep, k);
    }
  }

  /** `[A, B]` aggregates to `" - A - B"`. */
  lemma TwoOptionsExample(a: string, b: string)
    ensures OptionsOf(Arr([Obj(map["text" := Str(a)]), Obj(map["text" := Str(b)])]), " - ")
         == Some(" - " + a + " - " + b)
  {
    var items := [Obj(map["text" := Str(a)]), Obj(map["text" := Str(b)])];
    AggregatedIsSeparatedConcat(items, [a, b], " - ");
    assert [a, b][1..] == [b] && [b][1..] == [];
    assert SeparatedConcat([b], " - ") == " - " + b;
    assert SeparatedConcat([a, b], " - ") == " - " + a + " - " + b;
    assert Len(Arr(items)) == Some(2);
    assert OptionsOf(Arr(items), " - ") == Aggregated(items, " - ");
  }

  /** No ticked option gives `""`, or `Unknown` where the block checks the length. */
  lemma ZeroOptions(node: Value, rule: OptionRule)
    requires Key(node, "answer").Some?
    requires Key(Key(node, "answer").value, "options") == Some(Arr([]))
    ensures OptionsAnswer(node, rule) == Some(if rule.unknownIfEmpty then Unknown else "")
  {
  }

  /** Without a separator the option texts are simply concatenated (transfer and EEA fields). */
  lemma NoSeparatorConcatenates(items: seq<Value>, texts: seq<string>)
    requires OptionsWithTexts(items, texts)
    ensures Aggregated(items, "") == Some(SeparatedConcat(texts, ""))
    ensures forall t :: t in texts ==> |t| <= |SeparatedConcat(texts, "")|
  {
    AggregatedIsSeparatedConcat(items, texts, "");
    forall t | t in texts
      ensures |t| <= |SeparatedConcat(texts, "")|
    {
      ConcatHoldsEach(texts, "", t);
    }
  }

  lemma {:induction false} ConcatHoldsEach(texts: seq<string>, sep: string, t: string)
    requires t in texts
    ensures |t| <= |SeparatedConcat(texts, sep)|
    decreases |texts|
  {
    if texts[0] != t {
      ConcatHoldsEach(texts[1..], sep, t);
    }
  }

  /**
    A plain-text answer (first character neither `<` nor `>`) makes
    `remove_html` raise, so the text half is `Unknown` unless the raw-empty
    rule fires first.
   */
  lemma PlainTextAnswerIsLost(node: Value, rule: TextRule, s: string)
    requires Key(node, "answer").Some?
    requires Key(Key(node, "answer").value, "text") == Some(Str(s))
    requires |s| > 0 && s[0] != '<' && s[0] != '>'
    ensures TextAnswer(node, rule) == None
  {
  }

  /** An empty raw text: `Unknown` under either emptiness rule, otherwise `""`. */
  lemma EmptyTextAnswer(node: Value, rule: TextRule)
    requires Key(node, "answer").Some?
    requires Key(Key(node, "answer").value, "text") == Some(Str(""))
    ensures TextAnswer(node, rule)
         == Some(if rule.unknownIfRawEmpty || rule.unknownIfCleanEmpty then Unknown else "")
  {
    assert StripMarkup("") == "";
    assert SplitLines("") == [];
    assert JoinLines("") == "";
    ReplaceAllAbsent("", Entities, " ");
    ReplaceAllAbsent("", Semicolons, rule.semicolon);
    assert Cleaned("", rule.semicolon) == "";
  }

  /**
    A text answer that survives is one line with no `;`; when `;` becomes
    `.` it also holds none of the entities.
   */
  lemma TextAnswerIsClean(node: Value, rule: TextRule)
    requires TextAnswer(node, rule).Some? && TextAnswer(node, rule).value != Unknown
    requires rule.semicolon == "." || rule.semicolon == ""
    ensures NoLineBreak(TextAnswer(node, rule).value)
    ensures ';' !in TextAnswer(node, rule).value
    ensures rule.semicolon == "." ==>
      forall i :: 0 <= i < |Entities| ==> !Contains(TextAnswer(node, rule).value, Entities[i])
  {
    var text := Key(Key(node, "answer").value, "text").value;
    var m := RemoveHtmlOf(text).value;
    CleanedIsOneLine(m, rule.semicolon);
    CleanedHasNoSemicolon(m, rule.semicolon);
    if rule.semicolon == "." {
      PeriodSubstitutedHasNoEntity(JoinLines(m));
    }
  }

  // ---------------------------------------------------------------------
  // Stale variables in the certified-template loop, as written
  // ---------------------------------------------------------------------

  /**
    The special-categories block of the certified loop as written
    (DMP_stats_v1.4.py:1550-1590): the options half is taken from `dclist`,
    the accumulator left behind by the GDPR loop (`None` when that loop
    never ran the block, which raises `NameError` inside the `try`).
   */
  function SpecialCategoriesAsWritten(node: Value, n: nat, t: TextRule, o: OptionRule,
                                      staleDclist: Option<string>): (string, string)
  {
    if n < MinKeys then (Unknown, Unknown)
    else
      match (TextAnswer(node, t), OptionsAnswer(node, o), staleDclist)
      case (Some(tv), Some(ov), _) =>
        if ov == Unknown then (tv, Unknown)
        else if staleDclist.Some? then (tv, staleDclist.value)
        else (Unknown, Unknown)
      case _ => (Unknown, Unknown)
  }

  /**
    As written, a ticked special category is reported as whatever the last
    GDPR document ticked: the block's own options are ignored.
   */
  lemma SpecialCategoriesLeak(doc: Value, b: Block, stale: string)
    requires b.PairBlock? && b.o.unknownIfEmpty
    requires Node(doc, b.section, b.question).Ok?
    requires var (node, n) := Node(doc, b.section, b.question).value;
             n >= MinKeys && TextAnswer(node, b.t).Some? && OptionsAnswer(node, b.o).Some?
             && OptionsAnswer(node, b.o).value != Unknown
    ensures var (node, n) := Node(doc, b.section, b.question).value;
            SpecialCategoriesAsWritten(node, n, b.t, b.o, Some(stale)).1 == stale
            && BlockCells(doc, b).value[1].1 == OptionsAnswer(node, b.o).value
  {
  }

  /**
    The rule every other text block follows at its `except`: a text half
    that raises leaves `Unknown` in the column, whatever the document before.
   */
  lemma TextFailureIsUnknown(doc: Value, b: Block)
    requires b.TextBlock?
    requires Node(doc, b.section, b.question).Ok?
    requires TextAnswer(Node(doc, b.section, b.question).value.0, b.t).None?
    ensures BlockCells(doc, b) == Ok([(b.column, Unknown)])
  {
  }

  /**
    The archive-period block of the certified loop as written
    (DMP_stats_v1.4.py:1938-1965): its `except` assigns `answerterm`, so on
    a failure `answertermh` keeps the previous document's value, and with
    no previous value the append after the `try` raises.
   */
  function ArchivePeriodAsWritten(node: Value, n: nat, t: TextRule, previous: Option<string>): Result<string> {
    if n < MinKeys then Ok(Unknown)
    else
      match TextAnswer(node, t)
      case Some(v) => Ok(v)
      case None => if previous.Some? then Ok(previous.value) else Fatal
  }

  /**
    As written, a failing archive-period answer repeats the previous
    document's answer (or stops the run), where the rule gives `Unknown`.
   */
  lemma ArchivePeriodLeak(doc: Value, b: Block, previous: Option<string>)
    requires b.TextBlock?
    requires Node(doc, b.section, b.question).Ok?
    requires var (node, n) := Node(doc, b.section, b.question).value;
             n >= MinKeys && TextAnswer(node, b.t).None?
    ensures var (node, n) := Node(doc, b.section, b.question).value;
            ArchivePeriodAsWritten(node, n, b.t, previous)
              == (if previous.Some? then Ok(previous.value) else Fatal)
            && BlockCells(doc, b) == Ok([(b.column, Unknown)])
  {
  }

  /**
    The entity loop of the certified dataset-publication block as written
    (DMP_stats_v1.4.py:1980-1983): a present entity replaces the answer by
    `answerpubl.replace(...)`, the GDPR loop's last value of another
    variable (`None` when unbound, which raises inside the `try`).
   */
  function PublishedEntitiesAsWritten(s: string, pats: seq<string>, stale: Option<string>): Option<string>
    requires NonEmptyPatterns(pats)
    decreases |pats|
  {
    if |pats| == 0 then Some(s)
    else
      var prev :- PublishedEntitiesAsWritten(s, pats[..|pats| - 1], stale);
      if Contains(prev, pats[|pats| - 1]) then
        if stale.Some? then Some(Replace(stale.value, pats[|pats| - 1], " ")) else None
      else Some(prev)
  }

  /** The whole cleaning of that block as written, for a markup-free text. */
  function PublishedTextAsWritten(markupFree: string, stale: Option<string>): Option<string> {
    var e :- PublishedEntitiesAsWritten(JoinLines(markupFree), Entities, stale);
    var c := ReplaceAll(e, Semicolons, "");
    Some(if c == "" then Unknown else c)
  }

  /** With no entity in the answer the slip is harmless. */
  lemma {:induction false} PublishedEntitiesHarmless(s: string, pats: seq<string>, stale: Option<string>)
    requires NonEmptyPatterns(pats)
    requires forall i :: 0 <= i < |pats| ==> !Contains(s, pats[i])
    ensures PublishedEntitiesAsWritten(s, pats, stale) == Some(ReplaceAll(s, pats, " "))
    decreases |pats|
  {
    if |pats| > 0 {
      PublishedEntitiesHarmless(s, pats[..|pats| - 1], stale);
      ReplaceAllAbsent(s, pats[..|pats| - 1], " ");
      ReplaceAbsent(s, pats[|pats| - 1], " ");
    }
  }

  /**
    Once the first entity occurs, the answer is replaced by the stale
    value, which then passes the remaining checks unchanged when it holds
    no entity.
   */
  lemma {:induction false} PublishedEntitiesStale(s: string, pats: seq<string>, x: string)
    requires NonEmptyPatterns(pats) && |pats| > 0
    requires Contains(s, pats[0])
    requires forall i :: 0 <= i < |pats| ==> !Contains(x, pats[i])
    ensures PublishedEntitiesAsWritten(s, pats, Some(x)) == Some(x)
    decreases |pats|
  {
    var n := |pats| - 1;
    if n == 0 {
      assert pats[..0] == [];
    } else {
      assert pats[..n][0] == pats[0];
      PublishedEntitiesStale(s, pats[..n], x);
    }
    ReplaceAbsent(x, pats[n], " ");
  }

  /**
    An answer that is just `&ndash` is published as a space by the rule,
    but as the stale GDPR value `y` as written.
   */
  lemma PublishedEntityLeak()
    ensures PublishedTextAsWritten(Entities[0], Some("y")) == Some("y")
    ensures Cleaned(Entities[0], "") == " "
  {
    DashIsPlain();
    LeakExampleFacts();
    PublishedTextStale(Entities[0], "y");
    DashExample();
  }

  /**
    Whatever the answer, once it holds `&ndash` the block as written
    publishes the stale value (when that holds no entity, no `;` and is
    not empty).
   */
  lemma PublishedTextStale(markupFree: string, x: string)
    requires Contains(JoinLines(markupFree), Entities[0])
    requires forall i :: 0 <= i < |Entities| ==> !Contains(x, Entities[i])
    requires !Contains(x, ";") && x != ""
    ensures PublishedTextAsWritten(markupFree, Some(x)) == Some(x)
  {
    PublishedEntitiesStale(JoinLines(markupFree), Entities, x);
    ReplaceAllAbsent(x, Semicolons, "");
  }

  lemma DashIsPlain()
    ensures JoinLines(Entities[0]) == Entities[0]
  {
    assert Printable(Entities[0]);
    JoinLinesOfPlain(Entities[0]);
  }

  lemma DashExample()
    ensures Substituted(Entities[0], "") == " "
  {
    var s := Entities[0];
    LeakExampleFacts();
    assert Entities[..1][..0] == [];
    assert Entities[..2][..1] == Entities[..1];
    assert ReplaceAll(s, Entities[..1], " ") == " ";
    assert ReplaceAll(s, Entities[..2], " ") == " ";
    assert Entities[..3] == Entities;
    ReplaceAllAbsent(" ", Semicolons, "");
  }

  lemma LeakExampleFacts()
    ensures Contains(Entities[0], Entities[0])
    ensures forall i :: 0 <= i < |Entities| ==> !Contains("y", Entities[i])
    ensures !Contains("y", ";")
    ensures Replace(Entities[0], Entities[0], " ") == " "
    ensures !Contains(" ", Entities[1]) && !Contains(" ", Entities[2]) && !Contains(" ", ";")
    ensures Replace(" ", Entities[1], " ") == " " && Replace(" ", Entities[2], " ") == " "
  {
    forall i | 0 <= i < |Entities|
      ensures !Contains("y", Entities[i])
    {
      assert Entities[i][0] == '&';
      AbsentFirstChar("y", Entities[i]);
    }
    AbsentFirstChar("y", ";");
    AbsentFirstChar(" ", Entities[1]);
    AbsentFirstChar(" ", Entities[2]);
    AbsentFirstChar(" ", ";");
    ReplaceAbsent(" ", Entities[1], " ");
    ReplaceAbsent(" ", Entities[2], " ");
    assert Entities[0][6..] == "";
  }
}
