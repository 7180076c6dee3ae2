/** Splitting and joining strings, shared by the modules that work on text. */
module Text {

  /** The pieces of `s` between occurrences of `c`; always at least one. */
  function SplitOn(s: string, c: char): (parts: seq<string>)
    ensures |parts| >= 1
  {
    if |s| == 0 then [""]
    else
      var rest := SplitOn(s[1..], c);
      if s[0] == c then [""] + rest else [[s[0]] + rest[0]] + rest[1..]
  }

  /** The pieces that are not empty, in order. */
  function NonEmpty(parts: seq<string>): (r: seq<string>)
    ensures forall x :: x in r <==> x in parts && x != ""
  {
    if |parts| == 0 then []
    else
      assert parts == [parts[0]] + parts[1..];
      (if parts[0] == "" then [] else [parts[0]]) + NonEmpty(parts[1..])
  }

  function Join(parts: seq<string>, sep: string): string
  {
    if |parts| == 0 then ""
    else if |parts| == 1 then parts[0]
    else parts[0] + sep + Join(parts[1..], sep)
  }

  lemma {:induction false} JoinSnoc(parts: seq<string>, x: string)
    ensures Join(parts + [x], "") == Join(parts, "") + x
  {
    if |parts| == 0 {
      assert parts + [x] == [x];
    } else {
      assert (parts + [x])[1..] == parts[1..] + [x];
      JoinSnoc(parts[1..], x);
      if |parts| > 1 {
        Associative(parts[0], Join(parts[1..], ""), x);
      } else {
        assert parts[1..] == [] && parts[0] + "" + x == parts[0] + x;
      }
    }
  }

  lemma Associative(a: string, b: string, c: string)
    ensures a + "" + (b + c) == (a + "" + b) + c
  {
  }

  /** Whether every piece is free of `c`. */
  predicate Without(parts: seq<string>, c: char)
  {
    forall i :: 0 <= i < |parts| ==> c !in parts[i]
  }

  lemma {:induction false} SplitIsWithout(s: string, c: char)
    ensures Without(SplitOn(s, c), c)
  {
    if |s| > 0 {
      SplitIsWithout(s[1..], c);
      var rest := SplitOn(s[1..], c);
      assert forall i :: 0 < i < |rest| ==> c !in rest[i];
    }
  }

  /** Joining undoes splitting. */
  lemma {:induction false} JoinSplit(s: string, c: char)
    ensures Join(SplitOn(s, c), [c]) == s
  {
    if |s| > 0 {
      JoinSplit(s[1..], c);
      var rest := SplitOn(s[1..], c);
      if s[0] == c {
        assert ([""] + rest)[1..] == rest;
        assert s == [c] + s[1..];
      } else {
        JoinHead([s[0]], rest, [c]);
        assert s == [s[0]] + s[1..];
      }
    }
  }

  lemma JoinHead(head: string, parts: seq<string>, sep: string)
    requires |parts| >= 1
    ensures Join([head + parts[0]] + parts[1..], sep) == head + Join(parts, sep)
  {
    var longer := [head + parts[0]] + parts[1..];
    assert longer[1..] == parts[1..];
    if |parts| > 1 {
      assert Join(longer, sep) == head + parts[0] + sep + Join(parts[1..], sep);
      assert head + (parts[0] + sep + Join(parts[1..], sep)) == head + parts[0] + sep + Join(parts[1..], sep);
    }
  }

  lemma {:induction false} SplitPlain(s: string, c: char)
    requires c !in s
    ensures SplitOn(s, c) == [s]
  {
    if |s| > 0 {
      SplitPlain(s[1..], c);
      assert s == [s[0]] + s[1..];
    }
  }

  lemma {:induction false} SplitAppend(a: string, c: char, b: string)
    ensures SplitOn(a + [c] + b, c) == SplitOn(a, c) + SplitOn(b, c)
  {
    var s := a + [c] + b;
    if |a| == 0 {
      assert s[1..] == b;
    } else {
      assert s[1..] == a[1..] + [c] + b;
      SplitAppend(a[1..], c, b);
    }
  }

  /** Splitting undoes joining, when no piece contains the separator. */
  lemma {:induction false} SplitJoin(parts: seq<string>, c: char)
    requires |parts| >= 1 && Without(parts, c)
    ensures SplitOn(Join(parts, [c]), c) == parts
  {
    SplitPlain(parts[0], c);
    if |parts| > 1 {
      SplitJoin(parts[1..], c);
      SplitAppend(parts[0], c, Join(parts[1..], [c]));
      assert parts == [parts[0]] + parts[1..];
    }
  }

  // ---------------------------------------------------------------- longer separators

  predicate MatchesAt(s: string, pattern: string, i: int)
  {
    0 <= i && i + |pattern| <= |s| && s[i..i + |pattern|] == pattern
  }

  /** The first position at or after `from` where `pattern` occurs, or -1. */
  function IndexFrom(s: string, pattern: string, from: nat): (r: int)
    ensures r >= 0 ==> from <= r && MatchesAt(s, pattern, r)
    ensures r >= 0 ==> forall i :: from <= i < r ==> !MatchesAt(s, pattern, i)
    ensures r < 0 ==> r == -1 && forall i :: from <= i ==> !MatchesAt(s, pattern, i)
    decreases |s| - from
  {
    if from + |pattern| > |s| then -1
    else if MatchesAt(s, pattern, from) then from
    else IndexFrom(s, pattern, from + 1)
  }

  predicate Contains(s: string, pattern: string)
  {
    IndexFrom(s, pattern, 0) >= 0
  }

  predicate EndsWith(s: string, suffix: string)
  {
    |suffix| <= |s| && s[|s| - |suffix|..] == suffix
  }

  predicate StartsWith(s: string, prefix: string)
  {
    prefix <= s
  }

  /** Leftmost, non-overlapping splitting at a nonempty separator. */
  function SplitStr(s: string, sep: string): (parts: seq<string>)
    requires |sep| > 0
    ensures |parts| >= 1
    decreases |s|
  {
    var i := IndexFrom(s, sep, 0);
    if i < 0 then [s] else [s[..i]] + SplitStr(s[i + |sep|..], sep)
  }

  lemma {:induction false} JoinSplitStr(s: string, sep: string)
    requires |sep| > 0
    ensures Join(SplitStr(s, sep), sep) == s
    decreases |s|
  {
    var i := IndexFrom(s, sep, 0);
    if i >= 0 {
      var rest := SplitStr(s[i + |sep|..], sep);
      JoinSplitStr(s[i + |sep|..], sep);
      assert ([s[..i]] + rest)[1..] == rest;
      assert s == s[..i] + s[i..i + |sep|] + s[i + |sep|..];
    }
  }

  /** No piece contains the separator. */
  lemma {:induction false} SplitStrPieces(s: string, sep: string)
    requires |sep| > 0
    ensures forall i :: 0 <= i < |SplitStr(s, sep)| ==> !Contains(SplitStr(s, sep)[i], sep)
    decreases |s|
  {
    var i := IndexFrom(s, sep, 0);
    if i >= 0 {
      SplitStrPieces(s[i + |sep|..], sep);
      NotBefore(s, sep, i);
    }
  }

  lemma NotBefore(s: string, sep: string, i: nat)
    requires |sep| > 0 && i == IndexFrom(s, sep, 0)
    ensures !Contains(s[..i], sep)
  {
    var k := IndexFrom(s[..i], sep, 0);
    if k >= 0 {
      assert s[..i][k..k + |sep|] == s[k..k + |sep|];
      assert MatchesAt(s, sep, k);
    }
  }

  // ---------------------------------------------------------------- stripping

  function LStrip(s: string, drop: char -> bool): string
  {
    if |s| > 0 && drop(s[0]) then LStrip(s[1..], drop) else s
  }

  function RStrip(s: string, drop: char -> bool): string
  {
    if |s| > 0 && drop(s[|s| - 1]) then RStrip(s[..|s| - 1], drop) else s
  }

  /** White space off both ends. */
  function Trim(isSpace: char -> bool, s: string): string
  {
    RStrip(LStrip(s, isSpace), isSpace)
  }

  lemma {:induction false} LStripAt(s: string, drop: char -> bool) returns (i: nat)
    ensures i <= |s| && LStrip(s, drop) == s[i..] && (i < |s| ==> !drop(s[i]))
    ensures forall k :: 0 <= k < i ==> drop(s[k])
  {
    if |s| > 0 && drop(s[0]) {
      i := LStripAt(s[1..], drop);
      assert s[1..][i..] == s[i + 1..];
      i := i + 1;
    } else {
      i := 0;
    }
  }

  lemma {:induction false} RStripAt(s: string, drop: char -> bool) returns (j: nat)
    ensures j <= |s| && RStrip(s, drop) == s[..j] && (j > 0 ==> !drop(s[j - 1]))
    ensures forall k :: j <= k < |s| ==> drop(s[k])
    ensures (j > 0 || s == "") || drop(s[0])
  {
    if |s| > 0 && drop(s[|s| - 1]) {
      j := RStripAt(s[..|s| - 1], drop);
      assert s[..|s| - 1][..j] == s[..j];
    } else {
      j := |s|;
    }
  }

  /** White space, and nothing else, goes from both ends. */
  lemma TrimIs(isSpace: char -> bool, s: string) returns (i: nat, j: nat)
    ensures i <= j <= |s| && Trim(isSpace, s) == s[i..j]
    ensures forall k :: 0 <= k < i || j <= k < |s| ==> isSpace(s[k])
    ensures i < j ==> !isSpace(s[i]) && !isSpace(s[j - 1])
  {
    i := LStripAt(s, isSpace);
    var n := RStripAt(s[i..], isSpace);
    j := i + n;
    assert s[i..][..n] == s[i..j];
    assert forall k :: j <= k < |s| ==> s[k] == s[i..][k - i];
    assert n > 0 ==> s[i..][n - 1] == s[j - 1];
  }
}
