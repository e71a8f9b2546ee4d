/**
 * The newsletter form's acceptance test (script.js, submit handler): the
 * input, trimmed, must be non-empty and contain `@`.
 */
module Newsletter {

  /** The characters `String.prototype.trim` removes: ECMAScript WhiteSpace and LineTerminator. */
  predicate IsTrimmed(c: char) {
    var k := c as int;
    k == 0x09 || k == 0x0A || k == 0x0B || k == 0x0C || k == 0x0D || k == 0x20
    || k == 0xA0 || k == 0x1680 || (0x2000 <= k <= 0x200A) || k == 0x2028 || k == 0x2029
    || k == 0x202F || k == 0x205F || k == 0x3000 || k == 0xFEFF
  }

  function TrimStart(s: string): string {
    if s != [] && IsTrimmed(s[0]) then TrimStart(s[1..]) else s
  }

  function TrimEnd(s: string): string {
    if s != [] && IsTrimmed(s[|s| - 1]) then TrimEnd(s[..|s| - 1]) else s
  }

  /** `value.trim()` */
  function Trim(s: string): string {
    TrimEnd(TrimStart(s))
  }

  /** `email && email.includes('@')` on the trimmed input. */
  predicate AcceptsEmail(raw: string) {
    var email := Trim(raw);
    email != [] && '@' in email
  }

  // ---------------------------------------------------------------- lemmas

  /** A character trim never removes is kept by TrimStart, and TrimStart adds nothing. */
  lemma {:induction false} TrimStartKeeps(s: string, c: char)
    requires !IsTrimmed(c)
    ensures c in TrimStart(s) <==> c in s
  {
    if s != [] && IsTrimmed(s[0]) {
      TrimStartKeeps(s[1..], c);
      assert s == [s[0]] + s[1..];
    }
  }

  lemma {:induction false} TrimEndKeeps(s: string, c: char)
    requires !IsTrimmed(c)
    ensures c in TrimEnd(s) <==> c in s
  {
    if s != [] && IsTrimmed(s[|s| - 1]) {
      TrimEndKeeps(s[..|s| - 1], c);
      assert s == s[..|s| - 1] + [s[|s| - 1]];
    }
  }

  /**
   * The emptiness test is subsumed: an input is accepted exactly when it
   * contains `@` somewhere, whatever whitespace surrounds it.
   */
  lemma AcceptsIffContainsAt(raw: string)
    ensures AcceptsEmail(raw) <==> '@' in raw
  {
    TrimStartKeeps(raw, '@');
    TrimEndKeeps(TrimStart(raw), '@');
  }

  /**
   * The inputs the form's behaviour is usually described with. (Passed as
   * parameters so that the verifier does not unfold trimming on literals.)
   */
  lemma SampleInputs(bad: string, good: string, padded: string, blank: string)
    requires bad == "not-an-email" && good == "a@b.com"
    requires padded == "  a@b.com " && blank == "   "
    ensures !AcceptsEmail(bad) && !AcceptsEmail(blank)
    ensures AcceptsEmail(good) && AcceptsEmail(padded)
  {
    AcceptsIffContainsAt(bad);
    AcceptsIffContainsAt(good);
    AcceptsIffContainsAt(padded);
    AcceptsIffContainsAt(blank);
    assert good[1] == '@';
    assert padded[3] == '@';
  }
}
