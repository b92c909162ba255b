/**
  Cleaning of free-text answers (DMP_stats_v1.4.py): `remove_html`
  followed by joining the lines with "_-_", replacing the HTML entities
  `&ndash`, `&nbsp`, `&amp` by a space and replacing `;` by a per-field
  substitute.
 */
module Sanitizer {
  import opened Outcomes
  import opened PyText
  import opened JsonValue

  // ---------------------------------------------------------------------
  // The markup scanner
  // ---------------------------------------------------------------------

  /** State of the character scanner inside `remove_html`. */
  datatype Scanner = Scanner(inTag: bool, inQuote: bool, out: string)

  const Start := Scanner(false, false, "")

  predicate IsQuote(c: char) {
    c == '"' || c == '\''
  }

  /** One iteration of the scanner once the tag flag holds a value. */
  function Step(st: Scanner, ch: char): Scanner {
    if ch == '<' && !st.inQuote then st.(inTag := true)
    else if ch == '>' && !st.inQuote then st.(inTag := false)
    else if IsQuote(ch) && st.inTag then st.(inQuote := !st.inQuote)
    else if !st.inTag then st.(out := st.out + [ch])
    else st
  }

  function ScanFrom(st: Scanner, s: string): Scanner
    decreases |s|
  {
    if |s| == 0 then st else ScanFrom(Step(st, s[0]), s[1..])
  }

  /** The text outside tags, where a quoted `>` inside a tag does not close it. */
  function StripMarkup(s: string): string {
    ScanFrom(Start, s).out
  }

  /**
    `remove_html(text)` as written: the flag it tests is never initialised
    (the function sets an unused `tags`), so the first character that is
    neither `<` nor `>` reads an unbound local and raises.  The result is
    `None` exactly then.
   */
  function RemoveHtmlOutcome(text: string): Option<string> {
    if |text| > 0 && text[0] != '<' && text[0] != '>' then None else Some(StripMarkup(text))
  }

  /** Scanning a concatenation scans the parts one after the other. */
  lemma {:induction false} ScanAppend(st: Scanner, a: string, b: string)
    ensures ScanFrom(st, a + b) == ScanFrom(ScanFrom(st, a), b)
    decreases |a|
  {
    if |a| == 0 {
      assert a + b == b;
    } else {
      assert (a + b)[1..] == a[1..] + b;
      ScanAppend(Step(st, a[0]), a[1..], b);
    }
  }

  lemma ScanSnoc(st: Scanner, s: string, c: char)
    ensures ScanFrom(st, s + [c]) == Step(ScanFrom(st, s), c)
  {
    ScanAppend(st, s, [c]);
  }

  /**
    The loop of `remove_html`, with the unbound flag modelled as an
    `Option`: it returns `None` where Python raises `UnboundLocalError`.
   */
  method RemoveHtml(text: string) returns (r: Option<string>)
    ensures r.None? <==> |text| > 0 && text[0] != '<' && text[0] != '>'
    ensures r.Some? ==> r.value == StripMarkup(text)
  {
    var tag: Option<bool> := None;
    var quote := false;
    var output := "";
    var i := 0;
    while i < |text|
      invariant 0 <= i <= |text|
      invariant i == 0 ==> tag.None? && !quote && output == ""
      invariant i > 0 ==> tag.Some? && Scanner(tag.value, quote, output) == ScanFrom(Start, text[..i])
      invariant i > 0 ==> text[0] == '<' || text[0] == '>'
    {
      var ch := text[i];
      ScanSnoc(Start, text[..i], ch);
      assert text[..i + 1] == text[..i] + [ch];
      if ch == '<' && !quote {
        tag := Some(true);
      } else if ch == '>' && !quote {
        tag := Some(false);
      } else if IsQuote(ch) {
        if tag.None? {
          return None;
        }
        if tag.value {
          quote := !quote;
        } else {
          output := output + [ch];
        }
      } else {
        if tag.None? {
          return None;
        }
        if !tag.value {
          output := output + [ch];
        }
      }
      i := i + 1;
    }
    assert text[..i] == text;
    return Some(output);
  }

  // ---------------------------------------------------------------------
  // Properties of the scanner
  // ---------------------------------------------------------------------

  /** A state the scanner can reach: it only enters a quote inside a tag. */
  predicate Reachable(st: Scanner) {
    st.inQuote ==> st.inTag
  }

  /**
    From a reachable state the scanner stays reachable, and what it adds to
    its output are characters of the input other than `<` and `>`.
   */
  lemma {:induction false} ScanKeepsInvariant(st: Scanner, s: string)
    requires Reachable(st)
    ensures Reachable(ScanFrom(st, s))
    ensures |st.out| <= |ScanFrom(st, s).out| && ScanFrom(st, s).out[..|st.out|] == st.out
    ensures forall x :: x in ScanFrom(st, s).out[|st.out|..] ==> x in s && x != '<' && x != '>'
    decreases |s|
  {
    if |s| > 0 {
      var next := Step(st, s[0]);
      ScanKeepsInvariant(next, s[1..]);
      var fin := ScanFrom(st, s);
      assert next.out == st.out || next.out == st.out + [s[0]];
      assert next.out[..|st.out|] == st.out;
      assert forall x :: x in next.out[|st.out|..] ==> x == s[0] && x != '<' && x != '>';
      var w1 := next.out[|st.out|..];
      var w2 := fin.out[|next.out|..];
      assert next.out == st.out + w1;
      assert fin.out == next.out + w2;
      assert fin.out[|st.out|..] == w1 + w2;
      assert forall x :: x in s[1..] ==> x in s;
    }
  }

  /** The scanner's output holds no angle brackets and only characters of its input. */
  lemma StripMarkupChars(s: string)
    ensures '<' !in StripMarkup(s) && '>' !in StripMarkup(s)
    ensures forall x :: x in StripMarkup(s) ==> x in s
  {
    ScanKeepsInvariant(Start, s);
    assert StripMarkup(s)[|Start.out|..] == StripMarkup(s);
  }

  /** Outside any tag, text without angle brackets is copied to the output. */
  lemma {:induction false} Outside(st: Scanner, t: string)
    requires !st.inTag && !st.inQuote
    requires forall i :: 0 <= i < |t| ==> t[i] != '>' && t[i] != '<'
    ensures ScanFrom(st, t) == st.(out := st.out + t)
    decreases |t|
  {
    if |t| == 0 {
      assert st.out + t == st.out;
    } else {
      Outside(Step(st, t[0]), t[1..]);
      assert st.out + [t[0]] + t[1..] == st.out + t;
    }
  }

  /** Text with no angle brackets passes through unchanged. */
  lemma PlainTextUnchanged(s: string)
    requires '<' !in s && '>' !in s
    ensures StripMarkup(s) == s
  {
    Outside(Start, s);
  }

  /** Removing markup twice removes nothing more. */
  lemma StripMarkupIdempotent(s: string)
    ensures StripMarkup(StripMarkup(s)) == StripMarkup(s)
  {
    StripMarkupChars(s);
    PlainTextUnchanged(StripMarkup(s));
  }

  lemma {:induction false} InsideUnquoted(st: Scanner, t: string)
    requires st.inTag && !st.inQuote
    requires forall i :: 0 <= i < |t| ==> t[i] != '>' && !IsQuote(t[i])
    ensures ScanFrom(st, t) == st
    decreases |t|
  {
    if |t| > 0 {
      InsideUnquoted(Step(st, t[0]), t[1..]);
    }
  }

  lemma {:induction false} InsideQuoted(st: Scanner, t: string)
    requires st.inTag && st.inQuote
    requires forall i :: 0 <= i < |t| ==> !IsQuote(t[i])
    ensures ScanFrom(st, t) == st
    decreases |t|
  {
    if |t| > 0 {
      InsideQuoted(Step(st, t[0]), t[1..]);
    }
  }

  /**
    A tag whose attribute value is quoted is dropped whole, even when the
    quoted value contains `>`.
   */
  lemma QuotedTagDropped(o: string, a: string, q: string, c: string)
    requires forall i :: 0 <= i < |a| ==> a[i] != '>' && !IsQuote(a[i])
    requires forall i :: 0 <= i < |q| ==> !IsQuote(q[i])
    ensures ScanFrom(Scanner(false, false, o), "<" + a + "'" + q + "'>" + c)
         == ScanFrom(Scanner(false, false, o), c)
  {
    var s0 := Scanner(false, false, o);
    var t := Scanner(true, false, o);
    var u := Scanner(true, true, o);
    assert "<" + a + "'" + q + "'>" + c == "<" + (a + ("'" + (q + ("'>" + c))));
    ScanAppend(s0, "<", a + ("'" + (q + ("'>" + c))));
    assert ScanFrom(s0, "<") == t;
    ScanAppend(t, a, "'" + (q + ("'>" + c)));
    InsideUnquoted(t, a);
    ScanAppend(t, "'", q + ("'>" + c));
    assert ScanFrom(t, "'") == u;
    ScanAppend(u, q, "'>" + c);
    InsideQuoted(u, q);
    ScanAppend(u, "'>", c);
    assert ScanFrom(u, "'>") == s0;
  }

  /** A tag without quotes is dropped whole. */
  lemma PlainTagDropped(o: string, a: string, c: string)
    requires forall i :: 0 <= i < |a| ==> a[i] != '>' && !IsQuote(a[i])
    ensures ScanFrom(Scanner(false, false, o), "<" + a + ">" + c)
         == ScanFrom(Scanner(false, false, o), c)
  {
    var s0 := Scanner(false, false, o);
    var t := Scanner(true, false, o);
    assert "<" + a + ">" + c == "<" + (a + (">" + c));
    ScanAppend(s0, "<", a + (">" + c));
    assert ScanFrom(s0, "<") == t;
    ScanAppend(t, a, ">" + c);
    InsideUnquoted(t, a);
    ScanAppend(t, ">", c);
    assert ScanFrom(t, ">") == s0;
  }

  /** `<a href='x>y'>hello</a>` keeps only `hello`. */
  lemma QuotedAttributeExample()
    ensures StripMarkup("<" + "a href=" + "'" + "x>y" + "'>" + "hello" + "</a>") == "hello"
  {
    assert "<" + "a href=" + "'" + "x>y" + "'>" + "hello" + "</a>"
        == "<" + "a href=" + "'" + "x>y" + "'>" + ("hello" + "</a>");
    QuotedTagDropped("", "a href=", "x>y", "hello" + "</a>");
    ScanAppend(Start, "hello", "</a>");
    Outside(Start, "hello");
    assert "</a>" == "<" + "/a" + ">" + "";
    PlainTagDropped("hello", "/a", "");
  }

  // ---------------------------------------------------------------------
  // The scanner run over the elements of a list
  // ---------------------------------------------------------------------

  /**
    One iteration of `for ch in text` when `text` is a list: an element
    equals `<`, `>` or a quote only when it is that one-character string,
    and `output + ch` raises unless the element is a string, which is then
    appended whole.  An element inside a tag is passed over whatever it is.
   */
  function StepItem(st: Scanner, item: Value): (r: Option<Scanner>)
    ensures r.None? <==> !st.inTag && !item.Str?
  {
    if item == Str("<") && !st.inQuote then Some(st.(inTag := true))
    else if item == Str(">") && !st.inQuote then Some(st.(inTag := false))
    else if (item == Str("\"") || item == Str("'")) && st.inTag then Some(st.(inQuote := !st.inQuote))
    else if !st.inTag then (if item.Str? then Some(st.(out := st.out + item.s)) else None)
    else Some(st)
  }

  /** The scanner after the elements of `items`, `None` once an element raises. */
  function ScanItems(st: Scanner, items: seq<Value>): Option<Scanner>
    decreases |items|
  {
    if |items| == 0 then Some(st)
    else
      var prev :- ScanItems(st, items[..|items| - 1]);
      StepItem(prev, items[|items| - 1])
  }

  /**
    `remove_html` on a list: as on a string, the first element that is
    neither `<` nor `>` reads the unbound flag and raises.
   */
  function RemoveHtmlItems(items: seq<Value>): Option<string> {
    if |items| > 0 && items[0] != Str("<") && items[0] != Str(">") then None
    else
      var fin :- ScanItems(Start, items);
      Some(fin.out)
  }

  /** Once an element raises, the elements after it are not looked at. */
  lemma {:induction false} ScanItemsStops(st: Scanner, items: seq<Value>, k: nat)
    requires k <= |items| && ScanItems(st, items[..k]).None?
    ensures ScanItems(st, items).None?
    decreases |items|
  {
    if k < |items| {
      var front := items[..|items| - 1];
      assert front[..k] == items[..k];
      ScanItemsStops(st, front, k);
    } else {
      assert items[..k] == items;
    }
  }

  /** The loop of `remove_html` when its argument is a list. */
  method RemoveHtmlList(items: seq<Value>) returns (r: Option<string>)
    ensures r == RemoveHtmlItems(items)
  {
    var tag: Option<bool> := None;
    var quote := false;
    var output := "";
    var i := 0;
    while i < |items|
      invariant 0 <= i <= |items|
      invariant i == 0 ==> tag.None? && !quote && output == ""
      invariant i > 0 ==> tag.Some? && ScanItems(Start, items[..i]) == Some(Scanner(tag.value, quote, output))
      invariant i > 0 ==> items[0] == Str("<") || items[0] == Str(">")
    {
      var ch := items[i];
      assert items[..i + 1][..i] == items[..i];
      if ch == Str("<") && !quote {
        tag := Some(true);
      } else if ch == Str(">") && !quote {
        tag := Some(false);
      } else if ch == Str("\"") || ch == Str("'") {
        if tag.None? {
          return None;
        }
        if tag.value {
          quote := !quote;
        } else {
          output := output + ch.s;
        }
      } else {
        if tag.None? {
          return None;
        }
        if !tag.value {
          if !ch.Str? {
            ScanItemsStops(Start, items, i + 1);
            return None;
          }
          output := output + ch.s;
        }
      }
      i := i + 1;
    }
    assert items[..i] == items;
    return Some(output);
  }

  /** The characters of a string as a list of one-character strings. */
  function CharItems(s: string): (r: seq<Value>)
    ensures |r| == |s| && forall i :: 0 <= i < |s| ==> r[i] == Str([s[i]])
  {
    seq(|s|, i requires 0 <= i < |s| => Str([s[i]]))
  }

  lemma {:induction false} ScanCharItems(s: string)
    ensures ScanItems(Start, CharItems(s)) == Some(ScanFrom(Start, s))
    decreases |s|
  {
    if |s| > 0 {
      var front := s[..|s| - 1];
      assert CharItems(s)[..|s| - 1] == CharItems(front);
      ScanCharItems(front);
      ScanSnoc(Start, front, s[|s| - 1]);
      assert front + [s[|s| - 1]] == s;
    }
  }

  /**
    A list of the characters of a string is cleaned exactly as the string
    is: the two loops are the same loop on two kinds of iterable.
   */
  lemma CharItemsLikeString(s: string)
    ensures RemoveHtmlItems(CharItems(s)) == RemoveHtmlOutcome(s)
  {
    ScanCharItems(s);
  }

  /**
    A list element is copied whole: markup inside one string element is
    not stripped, and an element inside a tag is passed over, whatever it
    holds, unless it closes the tag or opens a quote.
   */
  lemma ListElementsNotScanned(t: string, v: Value)
    requires t != "<" && t != ">"
    requires v != Str(">") && v != Str("\"") && v != Str("'")
    ensures RemoveHtmlItems([Str(">"), Str(t)]) == Some(t)
    ensures RemoveHtmlItems([Str("<"), v, Str(">"), Str(t)]) == Some(t)
  {
    var closed := Scanner(false, false, "");
    assert "" + t == t;
    var one := [Str(">"), Str(t)];
    assert one[..1][..0] == [];
    assert ScanItems(Start, one[..1]) == Some(closed);
    assert ScanItems(Start, one) == Some(closed.(out := t));
    var four := [Str("<"), v, Str(">"), Str(t)];
    var open := Scanner(true, false, "");
    assert four[..3][..2][..1][..0] == [];
    assert ScanItems(Start, four[..3][..2][..1]) == Some(open);
    assert four[..3][..2][..1] == four[..1];
    assert ScanItems(Start, four[..3][..2]) == Some(open);
    assert ScanItems(Start, four[..3]) == Some(closed);
    assert ScanItems(Start, four) == Some(closed.(out := t));
  }

  /** A non-string element outside every tag raises. */
  lemma NonStringOutsideTagRaises(a: seq<Value>, v: Value, b: seq<Value>)
    requires ScanItems(Start, a).Some? && !ScanItems(Start, a).value.inTag && !v.Str?
    ensures RemoveHtmlItems(a + [v] + b).None?
  {
    var items := a + [v] + b;
    assert items[..|a| + 1][..|a|] == a;
    ScanItemsStops(Start, items, |a| + 1);
  }

  // ---------------------------------------------------------------------
  // Line joining and character replacement
  // ---------------------------------------------------------------------

  /** The entity list `tags_sp`. */
  const Entities: seq<string> := ["&ndash", "&nbsp", "&amp"]

  /** The list `tags_nv`. */
  const Semicolons: seq<string> := [";"]

  predicate NonEmptyPatterns(pats: seq<string>) {
    forall i :: 0 <= i < |pats| ==> |pats[i]| > 0
  }

  /** Replaces the patterns one after the other, in list order. */
  function ReplaceAll(s: string, pats: seq<string>, rep: string): string
    requires NonEmptyPatterns(pats)
    decreases |pats|
  {
    if |pats| == 0 then s
    else Replace(ReplaceAll(s, pats[..|pats| - 1], rep), pats[|pats| - 1], rep)
  }

  /** `"_-_".join(line.strip() for line in s.splitlines())`. */
  function JoinLines(s: string): string {
    Join(StripEach(SplitLines(s)), "_-_")
  }

  /**
    The text of a cleaned answer: lines joined, entities replaced by a
    space, then `;` replaced by `semicolon`.
   */
  function Cleaned(markupFree: string, semicolon: string): string {
    Substituted(JoinLines(markupFree), semicolon)
  }

  /** The two replacement loops alone: entities to a space, then `;` to `semicolon`. */
  function Substituted(s: string, semicolon: string): string {
    ReplaceAll(ReplaceAll(s, Entities, " "), Semicolons, semicolon)
  }

  /**
    The guarded replacement loops `for tag in ...: if tag in s: s = s.replace(tag, rep)`.
   */
  method ReplaceListed(s: string, pats: seq<string>, rep: string) returns (r: string)
    requires NonEmptyPatterns(pats)
    ensures r == ReplaceAll(s, pats, rep)
  {
    r := s;
    for k := 0 to |pats|
      invariant r == ReplaceAll(s, pats[..k], rep)
    {
      assert pats[..k + 1][..k] == pats[..k];
      if Contains(r, pats[k]) {
        r := Replace(r, pats[k], rep);
      } else {
        ReplaceAbsent(r, pats[k], rep);
      }
    }
    assert pats[..|pats|] == pats;
  }

  /** The join and the two replacement loops of one text block. */
  method CleanAnswer(markupFree: string, semicolon: string) returns (r: string)
    ensures r == Cleaned(markupFree, semicolon)
  {
    var joined := Join(StripEach(SplitLines(markupFree)), "_-_");
    r := ReplaceListed(joined, Entities, " ");
    r := ReplaceListed(r, Semicolons, semicolon);
  }

  /** A whole text answer: markup removal, then cleaning; `None` where Python raises. */
  function CleanText(text: string, semicolon: string): Option<string> {
    var m :- RemoveHtmlOutcome(text);
    Some(Cleaned(m, semicolon))
  }

  // ---------------------------------------------------------------------
  // Properties of the cleaning
  // ---------------------------------------------------------------------

  lemma {:induction false} ReplaceAllChars(s: string, pats: seq<string>, rep: string)
    requires NonEmptyPatterns(pats)
    ensures forall x :: x in ReplaceAll(s, pats, rep) ==> x in s || x in rep
    decreases |pats|
  {
    if |pats| > 0 {
      ReplaceAllChars(s, pats[..|pats| - 1], rep);
      ReplaceChars(ReplaceAll(s, pats[..|pats| - 1], rep), pats[|pats| - 1], rep);
    }
  }

  /** Joining adds only the characters of "_-_" to those of the lines. */
  lemma JoinLinesChars(s: string)
    ensures forall x :: x in JoinLines(s) ==> x in s || x in "_-_"
  {
    var lines := SplitLines(s);
    SplitLinesChars(s);
    forall x | x in JoinLines(s) && x !in "_-_"
      ensures x in s
    {
      JoinChars(StripEach(lines), "_-_", x);
      var i :| 0 <= i < |lines| && x in StripEach(lines)[i];
      StripChars(lines[i]);
    }
  }

  lemma {:induction false} SplitLinesChars(s: string)
    ensures forall i, x :: 0 <= i < |SplitLines(s)| && x in SplitLines(s)[i] ==> x in s
    decreases |s|
  {
    if |s| > 0 {
      var i := FirstBreak(s);
      if i < |s| {
        var width := if s[i] == '\r' && i + 1 < |s| && s[i + 1] == '\n' then 2 else 1;
        SplitLinesChars(s[i + width..]);
        assert SplitLines(s) == [s[..i]] + SplitLines(s[i + width..]);
        assert forall x :: x in s[..i] ==> x in s;
        assert forall x :: x in s[i + width..] ==> x in s;
      }
    }
  }

  /** No line boundary survives the join. */
  lemma JoinLinesHasNoBreak(s: string)
    ensures NoLineBreak(JoinLines(s))
  {
    var lines := SplitLines(s);
    var j := JoinLines(s);
    SplitLinesHaveNoBreak(s);
    forall k | 0 <= k < |j|
      ensures !IsLineBoundary(j[k])
    {
      var x := j[k];
      if x !in "_-_" {
        JoinChars(StripEach(lines), "_-_", x);
        var i :| 0 <= i < |lines| && x in StripEach(lines)[i];
        StripChars(lines[i]);
        var m :| 0 <= m < |lines[i]| && lines[i][m] == x;
      }
    }
  }

  /** A cleaned answer is a single line, whatever the substitute for `;` (as long as it is one). */
  lemma CleanedIsOneLine(markupFree: string, semicolon: string)
    requires NoLineBreak(semicolon)
    ensures NoLineBreak(Cleaned(markupFree, semicolon))
  {
    var j := JoinLines(markupFree);
    var e := ReplaceAll(j, Entities, " ");
    JoinLinesHasNoBreak(markupFree);
    ReplaceAllChars(j, Entities, " ");
    ReplaceAllChars(e, Semicolons, semicolon);
    var c := Cleaned(markupFree, semicolon);
    forall k | 0 <= k < |c|
      ensures !IsLineBoundary(c[k])
    {
      assert c[k] in c;
      if c[k] in e {
        if c[k] in j {
          var m :| 0 <= m < |j| && j[m] == c[k];
        }
      } else {
        var m :| 0 <= m < |semicolon| && semicolon[m] == c[k];
      }
    }
  }

  lemma {:induction false} ReplaceCharGone(s: string, c: char, rep: string)
    requires c !in rep
    ensures c !in Replace(s, [c], rep)
    decreases |s|
  {
    if |s| > 0 {
      if StartsWith(s, [c]) {
        ReplaceCharGone(s[1..], c, rep);
      } else {
        ReplaceCharGone(s[1..], c, rep);
        assert s[0] != c;
      }
    }
  }

  /** No `;` is left in a cleaned answer. */
  lemma CleanedHasNoSemicolon(markupFree: string, semicolon: string)
    requires ';' !in semicolon
    ensures ';' !in Cleaned(markupFree, semicolon)
  {
    var e := ReplaceAll(JoinLines(markupFree), Entities, " ");
    assert Semicolons[..0] == [];
    ReplaceCharGone(e, ';', semicolon);
  }

  /**
    With a single-character replacement that no pattern contains, none of
    the patterns occurs in the result.
   */
  lemma {:induction false} ReplaceAllLeavesNone(s: string, pats: seq<string>, c: char)
    requires NonEmptyPatterns(pats)
    requires forall i :: 0 <= i < |pats| ==> c !in pats[i]
    ensures forall i :: 0 <= i < |pats| ==> !Contains(ReplaceAll(s, pats, [c]), pats[i])
    decreases |pats|
  {
    if |pats| > 0 {
      var n := |pats| - 1;
      var prev := ReplaceAll(s, pats[..n], [c]);
      ReplaceAllLeavesNone(s, pats[..n], c);
      forall i | 0 <= i < |pats|
        ensures !Contains(Replace(prev, pats[n], [c]), pats[i])
      {
        if i < n {
          assert pats[..n][i] == pats[i];
        }
        ReplaceLeavesNone(prev, pats[n], c, pats[i]);
      }
    }
  }

  /** When `;` becomes `.`, no entity and no `;` is left (plan version, project title, title). */
  lemma PeriodSubstitutedHasNoEntity(s: string)
    ensures forall i :: 0 <= i < |Entities| ==> !Contains(Substituted(s, "."), Entities[i])
    ensures ';' !in Substituted(s, ".")
  {
    var e := ReplaceAll(s, Entities, " ");
    ReplaceAllLeavesNone(s, Entities, ' ');
    assert Semicolons[..0] == [];
    forall i | 0 <= i < |Entities|
      ensures !Contains(Replace(e, ";", "."), Entities[i])
    {
      assert '.' !in Entities[i];
      ReplaceLeavesNone(e, ";", '.', Entities[i]);
    }
    ReplaceCharGone(e, ';', ".");
  }

  /** Visible ASCII: no line boundary and no white space. */
  predicate Printable(s: string) {
    forall k :: 0 <= k < |s| ==> 0x21 <= s[k] as int <= 0x7e
  }

  /** A single line without surrounding white space is left as it is by the join. */
  lemma JoinLinesOfPlain(s: string)
    requires |s| > 0 && Printable(s)
    ensures JoinLines(s) == s
  {
    assert NoLineBreak(s);
    assert FirstBreak(s) == |s|;
    assert SplitLines(s) == [s];
    assert !IsSpace(s[0]) && !IsSpace(s[|s| - 1]);
    assert StripLeft(s) == s;
    assert StripRight(s) == s;
    assert StripEach([s])[0] == s;
    assert StripEach([s]) == [s];
  }

  /** A pattern whose first character is missing from a string does not occur in it. */
  lemma {:induction false} AbsentFirstChar(s: string, p: string)
    requires |p| > 0 && p[0] !in s
    ensures !Contains(s, p)
    decreases |s|
  {
    if |s| > 0 {
      assert s[0] != p[0];
      assert p[0] !in s[1..] by {
        assert forall x :: x in s[1..] ==> x in s;
      }
      AbsentFirstChar(s[1..], p);
    }
  }

  /** Replacing patterns none of which occurs changes nothing. */
  lemma {:induction false} ReplaceAllAbsent(s: string, pats: seq<string>, rep: string)
    requires NonEmptyPatterns(pats)
    requires forall i :: 0 <= i < |pats| ==> !Contains(s, pats[i])
    ensures ReplaceAll(s, pats, rep) == s
    decreases |pats|
  {
    if |pats| > 0 {
      ReplaceAllAbsent(s, pats[..|pats| - 1], rep);
      ReplaceAbsent(s, pats[|pats| - 1], rep);
    }
  }

  /**
    When `;` is deleted, an entity can appear afterwards: `&nb;sp` becomes
    `&nbsp`, which is not replaced by a space.
   */
  lemma DeletionRecreatesEntity()
    ensures Cleaned("&nb" + ";" + "sp", "") == Entities[1]
  {
    ExampleHasNoEntity();
    SemicolonDeletionExample();
    CleanedOfPlain("&nb" + ";" + "sp", "");
  }

  /** Printable text without entities is only subject to the `;` replacement. */
  lemma CleanedOfPlain(s: string, semicolon: string)
    requires |s| > 0 && Printable(s)
    requires forall i :: 0 <= i < |Entities| ==> !Contains(s, Entities[i])
    ensures Cleaned(s, semicolon) == Replace(s, ";", semicolon)
  {
    JoinLinesOfPlain(s);
    ReplaceAllAbsent(s, Entities, " ");
    assert Semicolons[..0] == [];
  }

  lemma ExampleHasNoEntity()
    ensures Printable("&nb" + ";" + "sp")
    ensures forall i :: 0 <= i < |Entities| ==> !Contains("&nb" + ";" + "sp", Entities[i])
  {
    var s := "&nb" + ";" + "sp";
    assert '&' !in s[1..];
    forall i | 0 <= i < |Entities|
      ensures !Contains(s, Entities[i])
    {
      var e := Entities[i];
      assert e[0] == '&';
      assert !StartsWith(s, e) by {
        if |e| <= |s| {
          assert s[1] != e[1] || s[2] != e[2] || s[3] != e[3];
        }
      }
      AbsentFirstChar(s[1..], e);
    }
  }

  lemma SemicolonDeletionExample()
    ensures Replace("&nb" + ";" + "sp", ";", "") == "&nbsp"
  {
    assert Replace("", ";", "") == "";
    assert Replace("p", ";", "") == "p";
    assert Replace("sp", ";", "") == "sp";
    assert Replace(";sp", ";", "") == "sp";
    assert Replace("b;sp", ";", "") == "bsp";
    assert Replace("nb;sp", ";", "") == "nbsp";
    var s := "&nb" + ";" + "sp";
    assert s[1..] == "nb;sp" && !StartsWith(s, ";");
    assert Replace(s, ";", "") == "&" + Replace("nb;sp", ";", "");
  }

  /**
    The Organisation block tests for `;` in the markup-free text rather than
    in the joined one.  Both contain `;` together, so the block's outcome
    is the ordinary cleaning.
   */
  lemma RawSemicolonGuardEquivalent(markupFree: string, semicolon: string)
    ensures var e := ReplaceAll(JoinLines(markupFree), Entities, " ");
            (if Contains(markupFree, ";") then ReplaceAll(e, Semicolons, semicolon) else e)
            == Cleaned(markupFree, semicolon)
  {
    var j := JoinLines(markupFree);
    var e := ReplaceAll(j, Entities, " ");
    assert Semicolons[..0] == [];
    if !Contains(markupFree, ";") {
      ContainsChar(markupFree, ';');
      JoinLinesChars(markupFree);
      ReplaceAllChars(j, Entities, " ");
      ContainsChar(e, ';');
      ReplaceAbsent(e, ";", semicolon);
    }
  }

  /**
    Cleaning as written is not idempotent: `<b>x</b>` cleans to `x`, and
    cleaning `x` again raises, which the caller turns into `Unknown`.
   */
  lemma CleaningNotIdempotent()
    ensures CleanText("<b>" + "x" + "</b>", ".") == Some("x")
    ensures CleanText("x", ".") == None
  {
    BoldExample();
    CleanedOfPlain("x", ".");
  }

  lemma BoldExample()
    ensures StripMarkup("<b>" + "x" + "</b>") == "x"
    ensures Printable("x")
    ensures forall i :: 0 <= i < |Entities| ==> !Contains("x", Entities[i])
    ensures Replace("x", ";", ".") == "x"
  {
    assert "<b>" + "x" + "</b>" == "<" + "b" + ">" + ("x" + "</b>");
    PlainTagDropped("", "b", "x" + "</b>");
    ScanAppend(Start, "x", "</b>");
    Outside(Start, "x");
    assert "</b>" == "<" + "/b" + ">" + "";
    PlainTagDropped("x", "/b", "");
    forall i | 0 <= i < |Entities|
      ensures !Contains("x", Entities[i])
    {
      assert Entities[i][0] == '&';
      AbsentFirstChar("x", Entities[i]);
    }
  }
}
