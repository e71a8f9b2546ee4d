/**
 * The text of the player's time display: `MM:SS / MM:SS`, built from
 * `Math.floor`, `%` and `String(n).padStart(2, '0')` (script.js, updateProgress).
 */
module TimeFormat {
  import opened Wrappers

  predicate IsDigit(c: char) { '0' <= c <= '9' }

  predicate IsDigits(s: string) {
    forall i :: 0 <= i < |s| ==> IsDigit(s[i])
  }

  function DigitChar(d: nat): (c: char)
    requires d < 10
    ensures IsDigit(c)
  {
    ('0' as int + d) as char
  }

  function DigitValue(c: char): (d: nat)
    requires IsDigit(c)
    ensures d < 10 && DigitChar(d) == c
  {
    c as int - '0' as int
  }

  /** `String(n)` for a non-negative integer: its decimal digits, without leading zeros. */
  function Decimal(n: nat): (s: string)
    ensures |s| >= 1
  {
    if n < 10 then [DigitChar(n)] else Decimal(n / 10) + [DigitChar(n % 10)]
  }

  /** `String(n)` is a non-empty digit string, with a leading `0` only for 0, and one digit exactly below 10. */
  lemma {:induction false} DecimalDigits(n: nat)
    ensures IsDigits(Decimal(n))
    ensures (Decimal(n)[0] == '0') == (n == 0)
    ensures (|Decimal(n)| == 1) == (n < 10)
    ensures n < 100 ==> |Decimal(n)| <= 2
  {
    if n >= 10 {
      DecimalDigits(n / 10);
      assert Decimal(n)[0] == Decimal(n / 10)[0];
    }
  }

  /** The value of a string of decimal digits; leading zeros are allowed. */
  function ValueOf(s: string): nat
    requires IsDigits(s)
  {
    if s == [] then 0 else ValueOf(s[..|s| - 1]) * 10 + DigitValue(s[|s| - 1])
  }

  /** `s.padStart(width, fill)` with a one-character fill: never truncates. */
  function PadStart(s: string, width: nat, fill: char): string {
    if |s| >= width then s else seq(width - |s|, _ => fill) + s
  }

  /** `padStart` has length max(width, |s|), ends with `s` unchanged, and has only fill characters before it. */
  lemma PadStartFacts(s: string, width: nat, fill: char)
    ensures var r := PadStart(s, width, fill);
      && |r| == (if |s| < width then width else |s|)
      && r[|r| - |s|..] == s
      && forall i :: 0 <= i < |r| - |s| ==> r[i] == fill
  {
  }

  function Pad2(n: nat): string {
    PadStart(Decimal(n), 2, '0')
  }

  /** One `MM:SS` half of the display, for a whole number of seconds. */
  function Clock(seconds: nat): string {
    Pad2(seconds / 60) + ":" + Pad2(seconds % 60)
  }

  /** JavaScript's `a % 60` on a non-negative number: `a - 60 * trunc(a / 60)`. */
  function Rem60(a: real): (r: real)
    requires a >= 0.0
    ensures 0.0 <= r < 60.0
  {
    a - 60.0 * ((a / 60.0).Floor as real)
  }

  /** `Math.floor(t / 60)` */
  function Minutes(t: real): nat
    requires t >= 0.0
  {
    (t / 60.0).Floor
  }

  /** `Math.floor(t % 60)` */
  function Seconds(t: real): nat
    requires t >= 0.0
  {
    Rem60(t).Floor
  }

  /** One half of the display: `pad2(Math.floor(t / 60)) + ':' + pad2(Math.floor(t % 60))`. */
  function Field(t: real): string
    requires t >= 0.0
  {
    Pad2(Minutes(t)) + ":" + Pad2(Seconds(t))
  }

  /** The text updateProgress writes into the time display. */
  function TimeDisplay(current: real, duration: real): string
    requires current >= 0.0 && duration >= 0.0
  {
    Field(current) + " / " + Field(duration)
  }

  /** Reads one `MM:SS` half back: digits, a colon, exactly two digits below 60. */
  function ParseClock(s: string): Option<nat> {
    if |s| >= 3 && s[|s| - 3] == ':' && IsDigits(s[..|s| - 3]) && IsDigits(s[|s| - 2..])
       && ValueOf(s[|s| - 2..]) < 60
    then Some(ValueOf(s[..|s| - 3]) * 60 + ValueOf(s[|s| - 2..]))
    else None
  }

  // ---------------------------------------------------------------- lemmas

  /** Reading back `String(n)` gives n. */
  lemma {:induction false} DecimalValue(n: nat)
    ensures IsDigits(Decimal(n)) && ValueOf(Decimal(n)) == n
  {
    DecimalDigits(n);
    if n >= 10 {
      var s := Decimal(n);
      assert s[..|s| - 1] == Decimal(n / 10);
      DecimalValue(n / 10);
    }
  }

  /** A leading zero does not change the value of a digit string. */
  lemma {:induction false} LeadingZero(s: string)
    requires IsDigits(s)
    ensures IsDigits("0" + s) && ValueOf("0" + s) == ValueOf(s)
  {
    if s != [] {
      var t := "0" + s;
      assert t[..|t| - 1] == "0" + s[..|s| - 1];
      LeadingZero(s[..|s| - 1]);
    }
  }

  /** `pad2` adds one `0` below 10 and leaves `String(n)` untouched from 10 on (it never truncates). */
  lemma Pad2Shape(n: nat)
    ensures n < 10 ==> Pad2(n) == ['0', DigitChar(n)]
    ensures n >= 10 ==> Pad2(n) == Decimal(n)
    ensures n < 100 ==> |Pad2(n)| == 2
  {
    if n < 10 {
      assert Decimal(n) == [DigitChar(n)];
    }
  }

  /** `pad2` keeps the value: its digits read back to n. */
  lemma Pad2Value(n: nat)
    ensures IsDigits(Pad2(n)) && ValueOf(Pad2(n)) == n
  {
    Pad2Shape(n);
    DecimalValue(n);
    if n < 10 {
      assert Pad2(n) == "0" + Decimal(n);
      LeadingZero(Decimal(n));
    }
  }

  lemma SplitAtColon(a: string, b: string)
    requires |b| == 2
    ensures var c := a + ":" + b;
      |c| >= 3 && c[|c| - 3] == ':' && c[..|c| - 3] == a && c[|c| - 2..] == b
  {
    var c := a + ":" + b;
    assert c[..|c| - 3] == a;
    assert c[|c| - 2..] == b;
  }

  /** The clock text is read back to the number of seconds it shows. */
  lemma ClockRoundTrip(seconds: nat)
    ensures ParseClock(Clock(seconds)) == Some(seconds)
  {
    var m, s := Pad2(seconds / 60), Pad2(seconds % 60);
    Pad2Value(seconds / 60);
    Pad2Value(seconds % 60);
    Pad2Shape(seconds % 60);
    SplitAtColon(m, s);
  }

  /** The `%` of JavaScript and the floor of the time agree with integer division. */
  lemma {:induction false} FloorParts(t: real)
    requires t >= 0.0
    ensures Minutes(t) == t.Floor / 60
    ensures Seconds(t) == t.Floor % 60
  {
    var n := t.Floor;
    var q, r := n / 60, n % 60;
    assert n == 60 * q + r;
    assert (q as real) <= t / 60.0 < (q as real) + 1.0;
    assert (t / 60.0).Floor == q;
    assert Rem60(t) == t - 60.0 * (q as real);
    assert (r as real) <= Rem60(t) < (r as real) + 1.0;
  }

  /** Each half of the display is the clock of the whole seconds it is given. */
  lemma FieldIsClock(t: real)
    requires t >= 0.0
    ensures Field(t) == Clock(t.Floor)
  {
    FloorParts(t);
  }

  /** For any time, the display is the two clocks of the whole seconds it contains. */
  lemma DisplayIsTwoClocks(current: real, duration: real)
    requires current >= 0.0 && duration >= 0.0
    ensures TimeDisplay(current, duration)
         == Clock(current.Floor) + " / " + Clock(duration.Floor)
  {
    FieldIsClock(current);
    FieldIsClock(duration);
  }

  /**
   * The worked value: 65 s into the default 2142 s episode. (The values are
   * passed as parameters so that the verifier does not unfold the display
   * function on literals.)
   */
  lemma DisplayOfDefaultEpisode(current: real, duration: real)
    requires current == 65.0 && duration == 2142.0
    ensures TimeDisplay(current, duration) == "01:05 / 35:42"
  {
    FieldIsClock(current);
    FieldIsClock(duration);
    ClockOf65(current.Floor);
    ClockOf2142(duration.Floor);
  }

  lemma ClockOf65(seconds: nat)
    requires seconds == 65
    ensures Clock(seconds) == "01:05"
  {
    ClockOf(seconds, 1, 5);
    TwoDigits(1);
    TwoDigits(5);
  }

  /** The default duration shows as 35:42. */
  lemma ClockOf2142(seconds: nat)
    requires seconds == 2142
    ensures Clock(seconds) == "35:42"
  {
    ClockOf(seconds, 35, 42);
    TwoDigits(35);
    TwoDigits(42);
  }

  lemma ClockOf(seconds: nat, m: nat, s: nat)
    requires s < 60 && seconds == 60 * m + s
    ensures Clock(seconds) == Pad2(m) + ":" + Pad2(s)
  {
    assert seconds / 60 == m && seconds % 60 == s;
  }

  /** Below 100, `pad2` is the tens digit followed by the units digit. */
  lemma TwoDigits(n: nat)
    requires n < 100
    ensures Pad2(n) == [DigitChar(n / 10), DigitChar(n % 10)]
  {
    Pad2Shape(n);
    var tens, units := n / 10, n % 10;
    if n >= 10 {
      assert Decimal(tens) == [DigitChar(tens)];
      assert Decimal(n) == [DigitChar(tens)] + [DigitChar(units)];
    } else {
      assert tens == 0 && units == n;
      assert DigitChar(tens) == '0';
    }
    assert Pad2(n) == [DigitChar(tens), DigitChar(units)];
  }
}
