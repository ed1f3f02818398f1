/**
 * Key normalisation shared by both game scripts: `normalize_name` turns a
 * display name ("Flutter Mane", "Sleep Talk") into the hyphenated,
 * lower-case form used as a key of the reference cache ("flutter-mane").
 */
module Names {

  /** `str.lower` on one character; only the ASCII letters are mapped. */
  function LowerChar(c: char): char
  {
    if 'A' <= c <= 'Z' then (c as int + 32) as char else c
  }

  /** `str.lower` on a whole string. */
  function Lower(s: string): (r: string)
    ensures |r| == |s|
    ensures forall i :: 0 <= i < |s| ==> r[i] == (if 'A' <= s[i] <= 'Z' then (s[i] as int + 32) as char else s[i])
    ensures forall i :: 0 <= i < |r| ==> !('A' <= r[i] <= 'Z')
  {
    seq(|s|, i requires 0 <= i < |s| => LowerChar(s[i]))
  }

  /** One character of `normalize_name`: lower-case it, then turn a space into a hyphen. */
  function NormChar(c: char): char
  {
    if c == ' ' then '-' else LowerChar(c)
  }

  /** `normalize_name`: the name lower-cased, each space turned into a hyphen. */
  function Normalize(s: string): (r: string)
    ensures |r| == |s|
    ensures forall i :: 0 <= i < |s| ==> r[i] == (if s[i] == ' ' then '-' else Lower(s)[i])
    ensures forall i :: 0 <= i < |r| ==> r[i] != ' ' && !('A' <= r[i] <= 'Z')
  {
    seq(|s|, i requires 0 <= i < |s| => NormChar(s[i]))
  }

  /** `s` begins with `prefix`. */
  predicate StartsWith(s: string, prefix: string)
  {
    |prefix| <= |s| && s[..|prefix|] == prefix
  }

  /** `s` ends with `suffix`. */
  predicate EndsWith(s: string, suffix: string)
  {
    |suffix| <= |s| && s[|s| - |suffix|..] == suffix
  }

  /** `pat` occurs in `s` at position `k`. */
  predicate MatchAt(s: string, pat: string, k: int)
  {
    0 <= k && k + |pat| <= |s| && forall m :: 0 <= m < |pat| ==> s[k + m] == pat[m]
  }

  /** `pat in s`: `pat` occurs somewhere in `s`. */
  predicate Contains(s: string, pat: string)
    decreases |s|
  {
    |pat| <= |s| && (StartsWith(s, pat) || Contains(s[1..], pat))
  }

  /** `Contains` holds exactly when `pat` occurs at some position. */
  lemma {:induction false} ContainsIffMatchAt(s: string, pat: string)
    ensures Contains(s, pat) <==> exists k :: 0 <= k <= |s| && MatchAt(s, pat, k)
    decreases |s|
  {
    if |pat| <= |s| {
      assert StartsWith(s, pat) <==> MatchAt(s, pat, 0) by {
        assert forall m :: 0 <= m < |pat| ==> s[..|pat|][m] == s[m];
      }
      if |s| > 0 {
        ContainsIffMatchAt(s[1..], pat);
        forall k | 0 <= k <= |s[1..]| ensures MatchAt(s[1..], pat, k) <==> MatchAt(s, pat, k + 1) {
          assert forall m :: 0 <= m < |pat| && k + m < |s[1..]| ==> (s[1..][k + m] == pat[m] <==> s[k + 1 + m] == pat[m]);
        }
        if MatchAt(s, pat, 0) {
        } else if exists k :: 0 <= k <= |s| && MatchAt(s, pat, k) {
          var k :| 0 <= k <= |s| && MatchAt(s, pat, k);
          assert MatchAt(s[1..], pat, k - 1);
        }
      }
    } else {
      assert forall k :: 0 <= k <= |s| ==> !MatchAt(s, pat, k);
    }
  }

  /** The normalised keys of a list of names (`{normalize_name(m) for m in ms}`). */
  function NormSet(ms: seq<string>): set<string>
  {
    set m | m in ms :: Normalize(m)
  }

  /** No two names of `s` share a normalised key. */
  predicate NormDistinct(s: seq<string>)
  {
    forall i, j :: 0 <= i < j < |s| ==> Normalize(s[i]) != Normalize(s[j])
  }

  /** Position `j` holds the first name of `s` with its normalised key. */
  predicate FirstOfKey(s: seq<string>, j: int)
    requires 0 <= j < |s|
  {
    forall k :: 0 <= k < j ==> Normalize(s[k]) != Normalize(s[j])
  }

  /** Normalising a key that is already normalised changes nothing. */
  lemma NormalizeIdempotent(s: string)
    ensures Normalize(Normalize(s)) == Normalize(s)
  {
  }

  /** Without spaces in the name, normalising is just lower-casing. */
  lemma NormalizeIsLowerWithoutSpaces(s: string)
    requires forall i :: 0 <= i < |s| ==> s[i] != ' '
    ensures Normalize(s) == Lower(s)
  {
  }
}
