/** String helpers the pipeline relies on: suffix test, Rust's
    left-to-right non-overlapping `str::replace`, and decimal formatting of
    unsigned integers (`to_string`, `{}`) with its parsing inverse. */
module Text {

  predicate EndsWith(s: string, suffix: string) {
    |suffix| <= |s| && s[|s| - |suffix|..] == suffix
  }

  predicate StartsWith(s: string, prefix: string) {
    |prefix| <= |s| && s[..|prefix|] == prefix
  }

  /** `pat` occurs in `s` starting at position `i`. */
  predicate OccursAt(s: string, pat: string, i: int) {
    0 <= i && i + |pat| <= |s| && s[i..i + |pat|] == pat
  }

  predicate Occurs(s: string, pat: string) {
    exists i :: 0 <= i <= |s| && OccursAt(s, pat, i)
  }

  /** Replaces every occurrence of `pat`, scanning left to right and
      resuming after each match (Rust `str::replace`). A string in which
      `pat` does not occur comes back unchanged. */
  function ReplaceAll(s: string, pat: string, rep: string): (r: string)
    requires |pat| > 0
    ensures !Occurs(s, pat) ==> r == s
    decreases |s|
  {
    if |s| < |pat| then s
    else if StartsWith(s, pat) then
      assert OccursAt(s, pat, 0);
      rep + ReplaceAll(s[|pat|..], pat, rep)
    else
      assert forall i :: OccursAt(s[1..], pat, i) ==> OccursAt(s, pat, i + 1) by {
        forall i | OccursAt(s[1..], pat, i) ensures OccursAt(s, pat, i + 1) {
          assert s[1..][i..i + |pat|] == s[i + 1..i + 1 + |pat|];
        }
      }
      [s[0]] + ReplaceAll(s[1..], pat, rep)
  }

  /** A replacement that cannot combine with its surroundings into a new
      occurrence: it is non-empty, does not contain the pattern's first
      character, and its own first character is not in the rest of the
      pattern ("graph" for "scotch"). */
  predicate NoCrossing(pat: string, rep: string) {
    && |pat| > 0 && |rep| > 0
    && (forall i :: 0 <= i < |rep| ==> rep[i] != pat[0])
    && (forall i :: 0 < i < |pat| ==> pat[i] != rep[0])
  }

  /** Under `NoCrossing`, a prefix of the result that does not contain the
      replacement's first character was already a prefix of the input. */
  lemma {:induction false} ReplaceAllPrefix(t: string, pat: string, rep: string, w: string)
    requires NoCrossing(pat, rep)
    requires forall i :: 0 <= i < |w| ==> w[i] != rep[0]
    requires StartsWith(ReplaceAll(t, pat, rep), w)
    ensures StartsWith(t, w)
    decreases |t|
  {
    var u := ReplaceAll(t, pat, rep);
    if w == [] || |t| < |pat| {
    } else if StartsWith(t, pat) {
    } else {
      var u1 := ReplaceAll(t[1..], pat, rep);
      assert u == [t[0]] + u1;
      assert w[1..] == u1[..|w| - 1] by { assert u[..|w|] == w; }
      ReplaceAllPrefix(t[1..], pat, rep, w[1..]);
      assert w == [w[0]] + w[1..];
      assert w[0] == t[0] by { assert u[..|w|][0] == u[0]; }
      assert t[..|w|] == [t[0]] + t[1..][..|w| - 1];
    }
  }

  /** Under `NoCrossing` no occurrence of the pattern is left in the
      result. */
  lemma {:induction false} ReplaceAllRemovesPattern(s: string, pat: string, rep: string)
    requires NoCrossing(pat, rep)
    ensures !Occurs(ReplaceAll(s, pat, rep), pat)
    decreases |s|
  {
    if |s| < |pat| {
      assert !OccursAt(s, pat, 0);
    } else if StartsWith(s, pat) {
      ReplaceAllRemovesPattern(s[|pat|..], pat, rep);
      NoOccurrenceAfterRep(rep, ReplaceAll(s[|pat|..], pat, rep), pat);
    } else {
      ReplaceAllRemovesPattern(s[1..], pat, rep);
      NoOccurrenceAfterChar(s, pat, rep);
    }
  }

  lemma NoOccurrenceAfterRep(rep: string, u: string, pat: string)
    requires NoCrossing(pat, rep) && !Occurs(u, pat)
    ensures !Occurs(rep + u, pat)
  {
    var r := rep + u;
    forall i | OccursAt(r, pat, i) ensures r[i] == pat[0] {
      assert r[i..i + |pat|][0] == r[i];
    }
    forall i | 0 <= i <= |r| && OccursAt(r, pat, i) ensures false {
      if i >= |rep| {
        assert r[i..i + |pat|] == u[i - |rep|..i - |rep| + |pat|];
        assert OccursAt(u, pat, i - |rep|);
      }
    }
  }

  /** The step that copies one character: a new occurrence at the front
      would mean the input started with the pattern. */
  lemma NoOccurrenceAfterChar(s: string, pat: string, rep: string)
    requires NoCrossing(pat, rep) && |s| >= |pat| && !StartsWith(s, pat)
    requires !Occurs(ReplaceAll(s[1..], pat, rep), pat)
    ensures !Occurs([s[0]] + ReplaceAll(s[1..], pat, rep), pat)
  {
    var u := ReplaceAll(s[1..], pat, rep);
    var r := [s[0]] + u;
    forall i | 0 <= i <= |r| && OccursAt(r, pat, i) ensures false {
      if i == 0 {
        var w := pat[1..];
        assert u[..|w|] == w by {
          assert r[1..|pat|] == u[..|w|];
          assert r[1..|pat|] == r[..|pat|][1..];
        }
        ReplaceAllPrefix(s[1..], pat, rep, w);
      } else {
        assert r[i..i + |pat|] == u[i - 1..i - 1 + |pat|];
        assert OccursAt(u, pat, i - 1);
      }
    }
  }

  /** Appending the pattern appends the replacement, when the pattern
      cannot overlap itself. */
  lemma {:induction false} ReplaceAllAppendPattern(p: string, pat: string, rep: string)
    requires FirstCharUnique(pat)
    ensures ReplaceAll(p + pat, pat, rep) == ReplaceAll(p, pat, rep) + rep
    decreases |p|
  {
    var s := p + pat;
    if p == [] {
      assert s == pat && s[..|pat|] == pat && s[|pat|..] == [];
    } else if |p| >= |pat| && StartsWith(p, pat) {
      assert s[..|pat|] == p[..|pat|];
      assert s[|pat|..] == p[|pat|..] + pat;
      ReplaceAllAppendPattern(p[|pat|..], pat, rep);
    } else {
      assert !StartsWith(s, pat) by {
        if |p| >= |pat| {
          assert s[..|pat|] == p[..|pat|];
        } else {
          assert s[|p|] == pat[0];
        }
      }
      assert s[1..] == p[1..] + pat;
      ReplaceAllAppendPattern(p[1..], pat, rep);
    }
  }

  /** A pattern whose first character occurs nowhere else in it cannot
      overlap itself. */
  predicate FirstCharUnique(pat: string) {
    |pat| > 0 && forall d :: 0 < d < |pat| ==> pat[d] != pat[0]
  }

  // ---------------------------------------------------------------------
  // Decimal digits

  function DigitChar(d: nat): char
    requires d < 10
  {
    "0123456789"[d]
  }

  predicate IsDigit(c: char) { '0' <= c <= '9' }

  function DigitValue(c: char): nat
    requires IsDigit(c)
  {
    (c - '0') as nat
  }

  /** Decimal representation without leading zeros (`u32::to_string`). */
  function NatToString(n: nat): (s: string)
    ensures |s| > 0 && forall i :: 0 <= i < |s| ==> IsDigit(s[i])
    decreases n
  {
    if n < 10 then [DigitChar(n)] else NatToString(n / 10) + [DigitChar(n % 10)]
  }

  /** Reads a string of decimal digits. */
  function ParseDigits(s: string): nat
    requires forall i :: 0 <= i < |s| ==> IsDigit(s[i])
  {
    if s == [] then 0 else 10 * ParseDigits(s[..|s| - 1]) + DigitValue(s[|s| - 1])
  }

  /** Parsing inverts formatting. */
  lemma {:induction false} ParseNatToString(n: nat)
    ensures ParseDigits(NatToString(n)) == n
    decreases n
  {
    var s := NatToString(n);
    if n < 10 {
      assert s[..0] == [];
    } else {
      ParseNatToString(n / 10);
      assert s[..|s| - 1] == NatToString(n / 10);
    }
  }

  /** Formatting is injective. */
  lemma NatToStringInjective(a: nat, b: nat)
    requires NatToString(a) == NatToString(b)
    ensures a == b
  {
    ParseNatToString(a);
    ParseNatToString(b);
  }

  /** Signed decimal representation (`i64` formatting). */
  function IntToString(x: int): (s: string)
    ensures |s| > 0
  {
    if x < 0 then "-" + NatToString(-x) else NatToString(x)
  }
}
