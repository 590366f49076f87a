/**
 * Multi-valued profile fields. A field whose descriptor names a delimiter
 * holds several directory values in one profile string: pulling joins them
 * (each value followed by the delimiter), pushing splits the string again
 * (`preg_split`). The symbolic delimiter NEWLINE is written as "\n" but
 * split on any of "\r\n", "\r" and "\n".
 */
module Delimiters {
  import opened PhpStrings

  const NEWLINE_ALIAS: string := "NEWLINE"

  /** The delimiter is the symbolic NEWLINE, in any letter case. */
  predicate IsNewlineAlias(d: string) {
    ToUpper(d) == NEWLINE_ALIAS
  }

  /** What is written after each value when the profile is pulled from the directory. */
  function PullDelimiter(d: string): string {
    if IsNewlineAlias(d) then "\n" else d
  }

  /** What a profile string is split on when it is pushed to the directory. */
  datatype Separator = Literal(text: string) | AnyLineBreak

  function PushSeparator(d: string): Separator {
    if IsNewlineAlias(d) then AnyLineBreak else Literal(d)
  }

  /** c can begin an occurrence of the separator. */
  predicate StartsSeparator(c: char, sep: Separator) {
    match sep
    case Literal(t) => t != [] && c == t[0]
    case AnyLineBreak => c == '\r' || c == '\n'
  }

  /** No character of s can begin a separator occurrence. */
  predicate Unseparated(s: string, sep: Separator) {
    forall j :: 0 <= j < |s| ==> !StartsSeparator(s[j], sep)
  }

  /**
   * Length of the separator occurrence at the very start of s, 0 when there is
   * none; for line breaks "\r\n" is tried before "\r" and "\n", as the
   * alternation `\r\n|\r|\n` does.
   */
  function SeparatorAt(s: string, sep: Separator): (n: nat)
    ensures n <= |s|
    ensures s == [] ==> n == 0
    ensures s != [] && !StartsSeparator(s[0], sep) ==> n == 0
  {
    match sep
    case Literal(t) => if t != [] && t <= s then |t| else 0
    case AnyLineBreak =>
      if |s| >= 2 && s[0] == '\r' && s[1] == '\n' then 2
      else if s != [] && (s[0] == '\r' || s[0] == '\n') then 1
      else 0
  }

  /**
   * `preg_split`: scanning left to right, cut s at every separator occurrence
   * that does not overlap an earlier one. There is always at least one part.
   */
  function Split(s: string, sep: Separator): seq<string> {
    SplitFrom(s, sep, "")
  }

  /** The scan of Split with `part` the text collected since the last cut. */
  function SplitFrom(s: string, sep: Separator, part: string): (parts: seq<string>)
    ensures |parts| >= 1
    decreases |s|
  {
    if s == [] then [part]
    else
      var n := SeparatorAt(s, sep);
      if n > 0 then [part] + SplitFrom(s[n..], sep, "")
      else SplitFrom(s[1..], sep, part + [s[0]])
  }

  /**
   * `$value .= $v . $delimiter` over the values in order: every value is
   * followed by the delimiter, the last one included.
   */
  function JoinDelimited(values: seq<string>, d: string): string {
    if values == [] then ""
    else JoinDelimited(values[..|values| - 1], d) + values[|values| - 1] + d
  }

  /** A non-empty join ends with the delimiter; an empty one is empty. */
  lemma JoinEndsWithDelimiter(values: seq<string>, d: string)
    ensures values == [] ==> JoinDelimited(values, d) == ""
    ensures values != [] ==>
      |d| <= |JoinDelimited(values, d)| && JoinDelimited(values, d)[|JoinDelimited(values, d)| - |d|..] == d
  {
    if values != [] {
      var r := JoinDelimited(values, d);
      var front := JoinDelimited(values[..|values| - 1], d) + values[|values| - 1];
      assert r == front + d;
      assert r[|front|..] == d;
    }
  }

  /** The joined string starts with the first value and its delimiter. */
  lemma {:induction false} JoinFirst(v: string, values: seq<string>, d: string)
    ensures JoinDelimited([v] + values, d) == v + d + JoinDelimited(values, d)
  {
    if values == [] {
      assert ([v] + values)[..0] == [];
    } else {
      var w := [v] + values;
      var init, last := values[..|values| - 1], values[|values| - 1];
      assert w[..|w| - 1] == [v] + init && w[|w| - 1] == last;
      JoinFirst(v, init, d);
      assert JoinDelimited(w, d) == (v + d + JoinDelimited(init, d)) + last + d;
      assert JoinDelimited(values, d) == JoinDelimited(init, d) + last + d;
    }
  }

  /** A run free of separator characters is collected into the current part. */
  lemma {:induction false} SplitGlues(v: string, rest: string, sep: Separator, part: string)
    requires Unseparated(v, sep)
    ensures SplitFrom(v + rest, sep, part) == SplitFrom(rest, sep, part + v)
  {
    if v == [] {
      assert v + rest == rest && part + v == part;
    } else {
      var s := v + rest;
      assert s[0] == v[0] && !StartsSeparator(s[0], sep);
      assert s[1..] == v[1..] + rest;
      assert Unseparated(v[1..], sep) by {
        assert forall j :: 0 <= j < |v[1..]| ==> v[1..][j] == v[j + 1];
      }
      SplitGlues(v[1..], rest, sep, part + [v[0]]);
      assert (part + [v[0]]) + v[1..] == part + v by {
        assert v == [v[0]] + v[1..];
      }
    }
  }

  /** A string without separator characters is split into itself alone. */
  lemma SplitUnseparated(s: string, sep: Separator)
    requires Unseparated(s, sep)
    ensures Split(s, sep) == [s]
  {
    SplitGlues(s, "", sep, "");
    assert s + "" == s && "" + s == s;
  }

  /** One value free of separator characters, then the delimiter, is one part. */
  lemma SplitValue(v: string, d: string, tail: string)
    requires Truthy(d)
    requires Unseparated(v, PushSeparator(d))
    ensures Split(v + PullDelimiter(d) + tail, PushSeparator(d)) == [v] + Split(tail, PushSeparator(d))
  {
    var pd, sep := PullDelimiter(d), PushSeparator(d);
    assert v + pd + tail == v + (pd + tail);
    SplitGlues(v, pd + tail, sep, "");
    assert "" + v == v;
    DelimiterSeparates(d, tail);
    assert (pd + tail)[|pd|..] == tail;
  }

  /** The pull delimiter is a separator occurrence of its full length for the push side. */
  lemma DelimiterSeparates(d: string, tail: string)
    requires Truthy(d)
    ensures |PullDelimiter(d)| > 0
    ensures SeparatorAt(PullDelimiter(d) + tail, PushSeparator(d)) == |PullDelimiter(d)|
  {
    assert PullDelimiter(d) <= PullDelimiter(d) + tail;
  }

  /**
   * Splitting a pulled (joined) value gives back the directory values plus one
   * trailing empty part, when no value contains a separator character.
   */
  lemma {:induction false} SplitJoined(values: seq<string>, d: string)
    requires Truthy(d)
    requires forall i :: 0 <= i < |values| ==> Unseparated(values[i], PushSeparator(d))
    ensures Split(JoinDelimited(values, PullDelimiter(d)), PushSeparator(d)) == values + [""]
  {
    var pd, sep := PullDelimiter(d), PushSeparator(d);
    if values == [] {
      assert JoinDelimited(values, pd) == "";
      assert SeparatorAt("", sep) == 0;
    } else {
      var v, more := values[0], values[1..];
      var tail := JoinDelimited(more, pd);
      assert values == [v] + more;
      assert Unseparated(v, sep);
      assert forall i :: 0 <= i < |more| ==> Unseparated(more[i], sep) by {
        assert forall i :: 0 <= i < |more| ==> more[i] == values[i + 1];
      }
      SplitJoined(more, d);
      JoinFirst(v, more, pd);
      SplitValue(v, d, tail);
      assert Split(JoinDelimited(values, pd), sep) == [v] + Split(tail, sep);
      assert [v] + (more + [""]) == values + [""];
    }
  }

  /**
   * The alias is exactly the seven letters of NEWLINE, each in either case:
   * `strtoupper` maps only 'a'..'z' onto 'A'..'Z'.
   */
  lemma NewlineAliasSpellings(d: string)
    ensures IsNewlineAlias(d) <==>
      |d| == 7 && forall i :: 0 <= i < 7 ==> d[i] == NEWLINE_ALIAS[i] || d[i] == "newline"[i]
  {
    if |d| == 7 && forall i :: 0 <= i < 7 ==> d[i] == NEWLINE_ALIAS[i] || d[i] == "newline"[i] {
      assert forall i :: 0 <= i < 7 ==> ToUpper(d)[i] == NEWLINE_ALIAS[i];
    }
    if IsNewlineAlias(d) {
      forall i | 0 <= i < 7 ensures d[i] == NEWLINE_ALIAS[i] || d[i] == "newline"[i] {
        assert UpperChar(d[i]) == NEWLINE_ALIAS[i];
      }
    }
  }

  /**
   * The NEWLINE round trip is not exact: a directory value ending in "\r" is
   * joined with "\n" into "\r\n", which the push side splits as one break,
   * so the "\r" is lost.
   */
  lemma NewlineRoundTripDropsCarriageReturn(v: string)
    requires Unseparated(v, AnyLineBreak)
    ensures Split(JoinDelimited([v + "\r"], PullDelimiter("NEWLINE")), PushSeparator("NEWLINE"))
            == [v, ""]
  {
    assert IsNewlineAlias("NEWLINE");
    var values := [v + "\r"];
    assert values[..0] == [];
    assert JoinDelimited(values, "\n") == v + "\r\n";
    SplitGlues(v, "\r\n", AnyLineBreak, "");
    assert "" + v == v;
    assert SeparatorAt("\r\n", AnyLineBreak) == 2 && "\r\n"[2..] == "";
  }
}
