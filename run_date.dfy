/**
  The run year and run day that name every output folder and file
  (DMP_stats_v1.4.py:29-40).  A run on 1 January still belongs to the year
  whose data it collects, so it is dated the 31st of December before.
  The clock reading is a parameter.
 */
module RunDate {
  import opened JsonValue

  datatype RunStamp = RunStamp(runyear: string, runday: string)

  /** `n` in decimal, left-padded with zeros to `width` characters. */
  function Padded(n: nat, width: nat): (r: string)
    ensures |r| >= width
  {
    var d := DigitsOf(n);
    if |d| >= width then d else seq(width - |d|, _ => '0') + d
  }

  /** `str(date)`: the ISO form `YYYY-MM-DD`. */
  function IsoDate(year: nat, month: nat, day: nat): string {
    Padded(year, 4) + "-" + Padded(month, 2) + "-" + Padded(day, 2)
  }

  /** The stamp for a run at `year`-`month`-`day`; `str(year)` is not padded. */
  function Stamp(year: nat, month: nat, day: nat): (r: RunStamp)
    requires 1 <= year <= 9999 && 1 <= month <= 12 && 1 <= day <= 31
    ensures month == 1 && day == 1 ==> r.runyear == IntText(year - 1) && r.runday == r.runyear + "-12-31"
    ensures !(month == 1 && day == 1) ==> r.runyear == IntText(year) && r.runday == IsoDate(year, month, day)
  {
    if month == 1 && day == 1 then
      var runyear := IntText(year - 1);
      RunStamp(runyear, runyear + "-12-31")
    else
      RunStamp(IntText(year), IsoDate(year, month, day))
  }

  lemma FourDigits(n: nat)
    requires 1000 <= n <= 9999
    ensures |DigitsOf(n)| == 4
  {
    assert DigitsOf(n) == DigitsOf(n / 10) + [(48 + n % 10) as char];
    assert DigitsOf(n / 10) == DigitsOf(n / 100) + [(48 + (n / 10) % 10) as char];
    assert DigitsOf(n / 100) == DigitsOf(n / 1000) + [(48 + (n / 100) % 10) as char];
  }

  /**
    For four-digit years the run day always lies in the run year: it starts
    with the run year and a dash, on 1 January as on every other day.
   */
  lemma RunDayInRunYear(year: nat, month: nat, day: nat)
    requires 1000 <= year <= 9999 && 1 <= month <= 12 && 1 <= day <= 31
    ensures var r := Stamp(year, month, day);
            |r.runday| > |r.runyear| && r.runday[..|r.runyear| + 1] == r.runyear + "-"
  {
    var r := Stamp(year, month, day);
    if month == 1 && day == 1 {
      assert r.runday[..|r.runyear| + 1] == r.runyear + "-";
    } else {
      FourDigits(year);
      assert Padded(year, 4) == DigitsOf(year);
      assert r.runday[..|r.runyear| + 1] == r.runyear + "-";
    }
  }

  /** A run on 1 January reports the previous year, any other day its own. */
  lemma NewYearBelongsToPreviousYear(year: nat)
    requires 2 <= year <= 9999
    ensures Stamp(year, 1, 1).runyear == IntText(year - 1)
    ensures Stamp(year, 1, 2).runyear == IntText(year)
    ensures Stamp(year, 1, 1).runyear != Stamp(year, 1, 2).runyear
  {
    IntTextInjective(year - 1, year);
  }

  lemma {:induction false} DigitsInjective(a: nat, b: nat)
    requires DigitsOf(a) == DigitsOf(b)
    ensures a == b
    decreases a
  {
    var da := DigitsOf(a);
    assert da[|da| - 1] == (48 + a % 10) as char;
    assert DigitsOf(b)[|DigitsOf(b)| - 1] == (48 + b % 10) as char;
    if a >= 10 && b >= 10 {
      assert DigitsOf(a / 10) == da[..|da| - 1];
      assert DigitsOf(b / 10) == DigitsOf(b)[..|DigitsOf(b)| - 1];
      DigitsInjective(a / 10, b / 10);
    }
  }

  lemma IntTextInjective(a: nat, b: nat)
    requires a != b
    ensures IntText(a) != IntText(b)
  {
    if IntText(a) == IntText(b) {
      DigitsInjective(a, b);
    }
  }
}
