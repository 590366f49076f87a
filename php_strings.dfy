/**
 * The few string primitives of PHP and SQL that the profile code relies on:
 * a string's truth value, ASCII upper-casing, and SQL's REPLACE.
 */
module PhpStrings {

  /** PHP's truth value of a string: only "" and "0" are false. */
  predicate Truthy(s: string) {
    s != "" && s != "0"
  }

  function UpperChar(c: char): char {
    if 'a' <= c <= 'z' then (c as int - 32) as char else c
  }

  /** `strtoupper` on ASCII letters; every other character is kept. */
  function ToUpper(s: string): string {
    seq(|s|, i requires 0 <= i < |s| => UpperChar(s[i]))
  }

  /** p occurs somewhere in s. */
  predicate Contains(s: string, p: string) {
    exists i :: 0 <= i <= |s| && p <= s[i..]
  }

  /**
   * SQL `REPLACE(s, p, '')`: scanning left to right, every occurrence of p
   * that does not overlap an earlier removed one is removed.
   */
  function RemoveAll(s: string, p: string): (r: string)
    requires p != []
    ensures |r| <= |s|
    decreases |s|
  {
    if p <= s then RemoveAll(s[|p|..], p)
    else if s == [] then []
    else [s[0]] + RemoveAll(s[1..], p)
  }

  /** A string in which p does not occur comes back unchanged. */
  lemma {:induction false} RemoveAllAbsent(s: string, p: string)
    requires p != [] && !Contains(s, p)
    ensures RemoveAll(s, p) == s
  {
    if s != [] {
      assert s[0..] == s;
      forall i | 0 <= i <= |s| - 1 ensures !(p <= s[1..][i..]) {
        assert s[1..][i..] == s[i + 1..];
      }
      RemoveAllAbsent(s[1..], p);
    }
  }

  /** Removing p from p + k gives back k when p does not occur in k. */
  lemma RemoveAllPrefixed(k: string, p: string)
    requires p != [] && !Contains(k, p)
    ensures RemoveAll(p + k, p) == k
  {
    assert p <= p + k;
    assert (p + k)[|p|..] == k;
    RemoveAllAbsent(k, p);
  }
}
