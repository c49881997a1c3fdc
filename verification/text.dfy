/**
 String operations the static-file handler relies on, stated over `seq<char>`:
 suffix tests as `str::ends_with` performs them and the removal of a leading
 run of one character as `str::trim_start_matches` performs it for a `char`
 pattern.
 */
module Text {

  /** Case-sensitive, character-by-character suffix test. */
  predicate EndsWith(s: string, suffix: string) {
    |suffix| <= |s| && s[|s| - |suffix|..] == suffix
  }

  /** Independent formulation: `s` ends with `suffix` exactly when some
      prefix followed by `suffix` spells out `s`. */
  lemma EndsWithIffConcat(s: string, suffix: string)
    ensures EndsWith(s, suffix) <==> exists p :: s == p + suffix
  {
    if EndsWith(s, suffix) {
      var p := s[..|s| - |suffix|];
      assert s == p + suffix;
    }
    if exists p :: s == p + suffix {
      var p :| s == p + suffix;
      assert s[|p|..] == suffix;
    }
  }

  /** The string made of `n` copies of `c`. */
  function Repeat(c: char, n: nat): (r: string)
    ensures |r| == n
    ensures forall i :: 0 <= i < n ==> r[i] == c
  {
    if n == 0 then [] else [c] + Repeat(c, n - 1)
  }

  /**
   Independent description of trimming: `r` is a suffix of `s`, everything
   in front of it is `c`, and `r` itself does not begin with `c`. Nothing
   but a prefix made only of `c` has been removed, so interior and trailing
   occurrences of `c` are still in `r`.
   */
  predicate IsTrimStartOf(s: string, c: char, r: string) {
    && |r| <= |s|
    && s[|s| - |r|..] == r
    && (forall i :: 0 <= i < |s| - |r| ==> s[i] == c)
    && (r == [] || r[0] != c)
  }

  /** At most one string is the trimmed form of `s`. */
  lemma TrimStartUnique(s: string, c: char, r1: string, r2: string)
    requires IsTrimStartOf(s, c, r1)
    requires IsTrimStartOf(s, c, r2)
    ensures r1 == r2
  {
  }

  /** The length of the run of `c` at the start of `s`. */
  function LeadingCount(s: string, c: char): (k: nat)
    ensures k <= |s|
    ensures forall i :: 0 <= i < k ==> s[i] == c
    ensures k == |s| || s[k] != c
  {
    if |s| > 0 && s[0] == c then 1 + LeadingCount(s[1..], c) else 0
  }

  /** `str::trim_start_matches(c)`: drops every leading `c`. */
  function TrimStartMatches(s: string, c: char): (r: string)
    ensures IsTrimStartOf(s, c, r)
  {
    s[LeadingCount(s, c)..]
  }

  /** The same operation as a left-to-right scan over the characters, the way
      the standard library walks the string; it agrees with the independent
      description above. */
  method TrimStartMatchesScan(s: string, c: char) returns (r: string)
    ensures IsTrimStartOf(s, c, r)
    ensures r == TrimStartMatches(s, c)
  {
    var i := 0;
    while i < |s| && s[i] == c
      invariant 0 <= i <= |s|
      invariant forall j :: 0 <= j < i ==> s[j] == c
    {
      i := i + 1;
    }
    r := s[i..];
    TrimStartUnique(s, c, r, TrimStartMatches(s, c));
  }

  /** Trimming twice is trimming once. */
  lemma TrimStartIdempotent(s: string, c: char)
    ensures TrimStartMatches(TrimStartMatches(s, c), c) == TrimStartMatches(s, c)
  {
  }

  /** Extra copies of `c` in front make no difference to the result. */
  lemma {:induction false} TrimStartAbsorbsPrefix(s: string, c: char, n: nat)
    ensures TrimStartMatches(Repeat(c, n) + s, c) == TrimStartMatches(s, c)
    decreases n
  {
    if n > 0 {
      var t := Repeat(c, n) + s;
      assert t[1..] == Repeat(c, n - 1) + s;
      assert LeadingCount(t, c) == 1 + LeadingCount(t[1..], c);
      assert TrimStartMatches(t, c) == TrimStartMatches(t[1..], c);
      TrimStartAbsorbsPrefix(s, c, n - 1);
    } else {
      assert Repeat(c, n) + s == s;
    }
  }

  /** Trimming does not change whether the string ends with a suffix that
      does not itself begin with `c`. */
  lemma TrimStartKeepsSuffix(s: string, c: char, suffix: string)
    requires suffix != [] && suffix[0] != c
    ensures EndsWith(s, suffix) <==> EndsWith(TrimStartMatches(s, c), suffix)
  {
  }
}
