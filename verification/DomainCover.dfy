/**
  Collapsing a list of domains to the entries that are not below another entry.
  Case folding and the notion of white space are Unicode tables, passed in.
 */
module DomainCover {
  import opened Text

  /** An element of the JSON list: only strings are looked at. */
  datatype Value = Str(text: string) | Other

  datatype Unicode = Unicode(casefold: string -> string, isSpace: char -> bool)

  // ---------------------------------------------------------------- cleaning

  function CleanDomain(u: Unicode, text: string): string
  {
    var folded := RStrip(LStrip(u.casefold(text), u.isSpace), u.isSpace);
    RStrip(LStrip(folded, c => c == '*' || c == '.'), c => c == '.')
  }

  predicate Considered(v: Value)
  {
    v.Str? && '.' in v.text
  }

  function Cleaned(u: Unicode, values: seq<Value>): set<string>
  {
    set i | 0 <= i < |values| && Considered(values[i]) :: CleanDomain(u, values[i].text)
  }

  // ---------------------------------------------------------------- cleaning twice

  /** White space as far as it goes up to `a`, then '*' and '.' up to `i`; the name; '.' up to `b`, then white space. */
  ghost predicate CutOff(u: Unicode, t: string, a: nat, i: nat, j: nat, b: nat)
  {
    && a <= i <= j <= b <= |t|
    && (forall k :: 0 <= k < a || b <= k < |t| ==> u.isSpace(t[k]))
    && (forall k :: a <= k < i ==> t[k] == '*' || t[k] == '.')
    && (forall k :: j <= k < b ==> t[k] == '.')
    && (a < b ==> !u.isSpace(t[a]) && !u.isSpace(t[b - 1]))
    && (i < j ==> t[i] != '*' && t[i] != '.' && t[j - 1] != '.')
  }

  /** A cleaned name is a piece of the folded text; only white space, '*' and '.' are cut off in front, '.' behind. */
  lemma CleanedIsSlice(u: Unicode, text: string) returns (i: nat, j: nat)
    ensures i <= j <= |u.casefold(text)| && CleanDomain(u, text) == u.casefold(text)[i..j]
    ensures exists a: nat, b: nat :: CutOff(u, u.casefold(text), a, i, j, b)
    ensures var r := CleanDomain(u, text);
            r != "" ==> r[0] != '*' && r[0] != '.' && r[|r| - 1] != '.'
  {
    var t := u.casefold(text);
    var a := LStripAt(t, u.isSpace);
    var b := RStripAt(t[a..], u.isSpace);
    var folded := t[a..][..b];
    var c := LStripAt(folded, x => x == '*' || x == '.');
    var rest := folded[c..];
    var d := RStripAt(rest, x => x == '.');
    i, j := a + c, a + c + d;
    SliceOfSlice(t, a, b, c, d);
    CutParts(u, t, a, b, c, d);
  }

  lemma CutParts(u: Unicode, t: string, a: nat, b: nat, c: nat, d: nat)
    requires a <= |t| && b <= |t| - a && c <= b && d <= b - c
    requires (forall k :: 0 <= k < a ==> u.isSpace(t[k])) && (a < |t| ==> !u.isSpace(t[a]))
    requires (forall k :: b <= k < |t[a..]| ==> u.isSpace(t[a..][k])) && (b > 0 ==> !u.isSpace(t[a..][b - 1]))
    requires var s := t[a..][..b];
             && (forall k :: 0 <= k < c ==> s[k] == '*' || s[k] == '.')
             && (c < |s| ==> s[c] != '*' && s[c] != '.')
             && (forall k :: d <= k < |s[c..]| ==> s[c..][k] == '.') && (d > 0 ==> s[c..][d - 1] != '.')
    ensures CutOff(u, t, a, a + c, a + c + d, a + b)
  {
    var s := t[a..][..b];
    assert forall k :: 0 <= k < b ==> s[k] == t[a + k];
    assert forall k :: a + b <= k < |t| ==> t[k] == t[a..][k - a];
    forall k | a <= k < a + c ensures t[k] == '*' || t[k] == '.' { assert t[k] == s[k - a]; }
    forall k | a + c + d <= k < a + b ensures t[k] == '.' { assert t[k] == s[c..][k - a - c]; }
  }

  lemma SliceOfSlice(t: string, a: nat, b: nat, c: nat, d: nat)
    requires a <= |t| && b <= |t| - a && c <= b && d <= b - c
    ensures t[a..][..b][c..][..d] == t[a + c..a + c + d]
  {
  }

  /** Folding text that is a piece of folded text changes nothing. */
  ghost predicate FoldsOnce(u: Unicode)
  {
    forall t: string, i, j :: 0 <= i <= j <= |u.casefold(t)| ==> u.casefold(u.casefold(t)[i..j]) == u.casefold(t)[i..j]
  }

  /** No white space at either end. */
  predicate Trimmed(u: Unicode, r: string)
  {
    r == "" || (!u.isSpace(r[0]) && !u.isSpace(r[|r| - 1]))
  }

  /** Cleaning a cleaned name changes it exactly if white space has come to one of its ends. */
  lemma CleanTwiceIff(u: Unicode, text: string)
    requires FoldsOnce(u)
    ensures var r := CleanDomain(u, text); CleanDomain(u, r) == r <==> Trimmed(u, r)
  {
    var r := CleanDomain(u, text);
    var i, j := CleanedIsSlice(u, text);
    assert u.casefold(r) == r;
    if Trimmed(u, r) {
      assert RStrip(LStrip(r, u.isSpace), u.isSpace) == r;
    } else {
      Shrinks(u, r);
    }
  }

  lemma Shrinks(u: Unicode, r: string)
    requires u.casefold(r) == r && !Trimmed(u, r)
    ensures |CleanDomain(u, r)| < |r|
  {
    var a := LStripAt(r, u.isSpace);
    var b := RStripAt(r[a..], u.isSpace);
    var folded := r[a..][..b];
    assert |folded| < |r|;
    var c := LStripAt(folded, x => x == '*' || x == '.');
    var d := RStripAt(folded[c..], x => x == '.');
  }

  /** Folded text without white space: such names stay as they are once cleaned. */
  predicate Spaceless(u: Unicode, text: string)
  {
    forall i :: 0 <= i < |u.casefold(text)| ==> !u.isSpace(u.casefold(text)[i])
  }

  lemma SpacelessStays(u: Unicode, text: string)
    requires FoldsOnce(u) && Spaceless(u, text)
    ensures CleanDomain(u, CleanDomain(u, text)) == CleanDomain(u, text)
  {
    var i, j := CleanedIsSlice(u, text);
    CleanTwiceIff(u, text);
  }

  // ---------------------------------------------------------------- covering

  /** An entry covers itself and everything below it. */
  predicate Covers(parent: string, domain: string)
  {
    domain == parent || EndsWith(domain, "." + parent)
  }

  predicate Matched(host: string, entries: set<string>)
  {
    exists e :: e in entries && Covers(e, host)
  }

  /** The entries that no other entry covers. */
  function Roots(entries: set<string>): set<string>
  {
    set d | d in entries && !(exists p :: p in entries && p != d && Covers(p, d))
  }

  function Dots(s: string): nat
  {
    if |s| == 0 then 0 else (if s[0] == '.' then 1 else 0) + Dots(s[1..])
  }

  lemma {:induction false} DotsConcat(a: string, b: string)
    ensures Dots(a + b) == Dots(a) + Dots(b)
  {
    if |a| == 0 {
      assert a + b == b;
    } else {
      assert (a + b)[1..] == a[1..] + b;
      DotsConcat(a[1..], b);
    }
  }

  /** A parent has strictly fewer dots, and is shorter, than what is below it. */
  lemma ParentHasFewerDots(parent: string, domain: string)
    requires Covers(parent, domain) && parent != domain
    ensures Dots(parent) < Dots(domain) && |parent| < |domain|
  {
    var n := |domain| - |parent| - 1;
    assert domain == domain[..n] + ("." + parent);
    DotsConcat(domain[..n], "." + parent);
    assert ("." + parent)[1..] == parent;
  }

  lemma CoversTransitive(a: string, b: string, c: string)
    requires Covers(a, b) && Covers(b, c)
    ensures Covers(a, c)
  {
    if a != b && b != c {
      var tail := "." + b;
      assert c[|c| - |tail|..] == tail;
      assert c[|c| - |a| - 1..] == tail[|tail| - |a| - 1..];
      assert tail[|tail| - |a| - 1..] == b[|b| - |a| - 1..];
    }
  }

  /** Every entry is covered by a root. */
  lemma RootAbove(entries: set<string>, d: string) returns (r: string)
    requires d in entries
    ensures r in Roots(entries) && Covers(r, d)
    decreases |d|
  {
    if p :| p in entries && p != d && Covers(p, d) {
      ParentHasFewerDots(p, d);
      r := RootAbove(entries, p);
      CoversTransitive(r, p, d);
    } else {
      r := d;
    }
  }

  /** The roots match the same hosts as all the entries. */
  lemma RootsMatchTheSame(entries: set<string>, host: string)
    ensures Matched(host, Roots(entries)) <==> Matched(host, entries)
  {
    if e :| e in entries && Covers(e, host) {
      var r := RootAbove(entries, e);
      CoversTransitive(r, e, host);
    }
  }

  /** No root covers another. */
  lemma RootsIndependent(entries: set<string>, a: string, b: string)
    requires a in Roots(entries) && b in Roots(entries) && Covers(a, b)
    ensures a == b
  {
  }

  /** Any selection of entries that matches every host the entries match contains all the roots. */
  lemma RootsAreLeast(entries: set<string>, cover: set<string>)
    requires cover <= entries
    requires forall host :: Matched(host, entries) ==> Matched(host, cover)
    ensures Roots(entries) <= cover
  {
    forall r | r in Roots(entries) ensures r in cover {
      assert Covers(r, r);
      assert Matched(r, entries);
      var e :| e in cover && Covers(e, r);
    }
  }

  lemma RootMatchedBack(a: set<string>, b: set<string>, r: string)
    requires forall host :: Matched(host, a) <==> Matched(host, b)
    requires r in Roots(a)
    ensures r in Roots(b)
  {
    assert Covers(r, r) && Matched(r, b);
    var e :| e in b && Covers(e, r);
    var s := RootAbove(b, e);
    CoversTransitive(s, e, r);
    assert Covers(s, s) && Matched(s, a);
    var f :| f in a && Covers(f, s);
    CoversTransitive(f, s, r);
    assert f == r;
    if s != r {
      ParentHasFewerDots(s, r);
      ParentHasFewerDots(r, s);
    }
  }

  /** The roots are canonical: two sets match the same hosts exactly if they have the same roots. */
  lemma SameHostsIffSameRoots(a: set<string>, b: set<string>)
    ensures (forall host :: Matched(host, a) <==> Matched(host, b)) <==> Roots(a) == Roots(b)
  {
    if forall host :: Matched(host, a) <==> Matched(host, b) {
      forall r ensures r in Roots(a) <==> r in Roots(b) {
        if r in Roots(a) { RootMatchedBack(a, b, r); }
        if r in Roots(b) { RootMatchedBack(b, a, r); }
      }
    }
    if Roots(a) == Roots(b) {
      forall host ensures Matched(host, a) <==> Matched(host, b) {
        RootsMatchTheSame(a, host);
        RootsMatchTheSame(b, host);
      }
    }
  }

  // ---------------------------------------------------------------- order

  predicate LexLess(a: string, b: string)
  {
    |b| > 0 && (|a| == 0 || a[0] < b[0] || (a[0] == b[0] && LexLess(a[1..], b[1..])))
  }

  /** At the first difference the smaller character decides; a proper prefix comes first. */
  lemma {:induction false} LexLessIs(a: string, b: string)
    ensures LexLess(a, b) <==>
            exists k :: 0 <= k <= |a| && k < |b| && a[..k] == b[..k] && (k == |a| || a[k] < b[k])
  {
    SameHead(a, b);
    if |b| > 0 && |a| > 0 && a[0] == b[0] {
      LexLessIs(a[1..], b[1..]);
      var x, y := a[1..], b[1..];
      if k :| 0 <= k <= |x| && k < |y| && x[..k] == y[..k] && (k == |x| || x[k] < y[k]) {
        assert a[..k + 1] == [a[0]] + a[1..][..k] && b[..k + 1] == [b[0]] + b[1..][..k];
      }
      if k :| 0 <= k <= |a| && k < |b| && a[..k] == b[..k] && (k == |a| || a[k] < b[k]) {
        if k > 0 { DropFirst(a, b, k); }
      }
    } else if |b| > 0 {
      assert a[..0] == b[..0];
    }
  }

  lemma SameHead(a: string, b: string)
    ensures forall k :: 0 < k <= |a| && k < |b| && a[..k] == b[..k] ==> a[0] == b[0]
  {
    forall k | 0 < k <= |a| && k < |b| && a[..k] == b[..k] ensures a[0] == b[0] {
      assert a[..k][0] == b[..k][0];
    }
  }

  lemma DropFirst(a: string, b: string, k: nat)
    requires 0 < k <= |a| && k <= |b| && a[..k] == b[..k]
    ensures a[1..][..k - 1] == b[1..][..k - 1]
  {
    assert a[1..][..k - 1] == a[..k][1..] && b[1..][..k - 1] == b[..k][1..];
  }

  /** The sort key: number of dots, then length, then the text itself. */
  predicate Before(a: string, b: string)
  {
    || Dots(a) < Dots(b)
    || (Dots(a) == Dots(b) && (|a| < |b| || (|a| == |b| && LexLess(a, b))))
  }

  lemma {:induction false} LexTotal(a: string, b: string)
    ensures a == b || LexLess(a, b) || LexLess(b, a)
    ensures !(LexLess(a, b) && LexLess(b, a)) && !LexLess(a, a)
  {
    if |a| > 0 && |b| > 0 {
      LexTotal(a[1..], b[1..]);
      LexTotal(a[1..], a[1..]);
      assert a == [a[0]] + a[1..] && b == [b[0]] + b[1..];
    } else if |a| > 0 {
      LexTotal(a[1..], a[1..]);
    }
  }

  lemma {:induction false} LexTransitive(a: string, b: string, c: string)
    requires LexLess(a, b) && LexLess(b, c)
    ensures LexLess(a, c)
  {
    if |a| > 0 && a[0] == b[0] && b[0] == c[0] { LexTransitive(a[1..], b[1..], c[1..]); }
  }

  lemma BeforeTotal(a: string, b: string)
    ensures a == b || Before(a, b) || Before(b, a)
    ensures !(Before(a, b) && Before(b, a)) && !Before(a, a)
  {
    LexTotal(a, b);
    LexTotal(a, a);
  }

  lemma BeforeTransitive(a: string, b: string, c: string)
    requires Before(a, b) && Before(b, c)
    ensures Before(a, c)
  {
    if LexLess(a, b) && LexLess(b, c) { LexTransitive(a, b, c); }
  }

  predicate Sorted(s: seq<string>)
  {
    forall i, j :: 0 <= i < j < |s| ==> Before(s[i], s[j])
  }

  function Elements(s: seq<string>): set<string>
  {
    set x | x in s
  }

  /** A sorted list is determined by its elements. */
  lemma {:induction false} SortedUnique(a: seq<string>, b: seq<string>)
    requires Sorted(a) && Sorted(b) && Elements(a) == Elements(b)
    ensures a == b
  {
    assert |a| > 0 ==> a[0] in Elements(b);
    assert |b| > 0 ==> b[0] in Elements(a);
    if |a| > 0 && |b| > 0 {
      FirstIsLeast(a, b);
      var x, s, t := a[0], a[1..], b[1..];
      forall y ensures y in s <==> y in t {
        BeforeTotal(x, x);
        if y in s { assert y in Elements(a); assert Before(x, y); }
        if y in t { assert y in Elements(b); assert Before(x, y); }
        assert a == [x] + s && b == [x] + t;
        assert y in Elements(a) <==> y in Elements(b);
      }
      SortedUnique(s, t);
    }
  }

  lemma FirstIsLeast(a: seq<string>, b: seq<string>)
    requires Sorted(a) && Sorted(b) && Elements(a) == Elements(b) && |a| > 0 && |b| > 0
    ensures a[0] == b[0]
  {
    assert a[0] in Elements(b) && b[0] in Elements(a);
    BeforeTotal(a[0], b[0]);
  }

  // ---------------------------------------------------------------- the program

  /** Insertion into a sorted list. */
  method Insert(s: seq<string>, x: string) returns (r: seq<string>)
    requires Sorted(s) && x !in s
    ensures Sorted(r) && Elements(r) == Elements(s) + {x}
  {
    var i := 0;
    while i < |s| && Before(s[i], x)
      invariant 0 <= i <= |s|
      invariant forall k :: 0 <= k < i ==> Before(s[k], x)
    {
      i := i + 1;
    }
    r := s[..i] + [x] + s[i..];
    forall k | i <= k < |s| ensures Before(x, s[k]) {
      BeforeTotal(x, s[i]);
      if k > i { BeforeTransitive(x, s[i], s[k]); }
    }
    assert Elements(r) == Elements(s) + {x};
  }

  /** `sorted` over a set, whose elements come in any order. */
  method SortByKey(entries: set<string>) returns (r: seq<string>)
    ensures Sorted(r) && Elements(r) == entries
  {
    r := [];
    var rest := entries;
    while rest != {}
      invariant rest <= entries && Sorted(r) && Elements(r) == entries - rest
      decreases rest
    {
      var x :| x in rest;
      assert x !in Elements(r);
      r := Insert(r, x);
      rest := rest - {x};
    }
  }

  method CleanAll(u: Unicode, values: seq<Value>) returns (cleaned: set<string>)
    ensures cleaned == Cleaned(u, values)
  {
    cleaned := {};
    var i := 0;
    while i < |values|
      invariant 0 <= i <= |values|
      invariant cleaned == Cleaned(u, values[..i])
    {
      var next := if Considered(values[i]) then {CleanDomain(u, values[i].text)} else {};
      CleanedStep(u, values, i);
      cleaned := cleaned + next;
      i := i + 1;
    }
    assert values[..i] == values;
  }

  lemma CleanedStep(u: Unicode, values: seq<Value>, i: nat)
    requires i < |values|
    ensures Cleaned(u, values[..i + 1]) ==
            Cleaned(u, values[..i]) + (if Considered(values[i]) then {CleanDomain(u, values[i].text)} else {})
  {
    var a, b := values[..i], values[..i + 1];
    assert b[i] == values[i] && forall k :: 0 <= k < i ==> b[k] == a[k];
  }

  /** Of the first `i` sorted entries exactly the roots have been kept. */
  ghost predicate Kept(entries: set<string>, sorted: seq<string>, i: nat, result: seq<string>)
    requires i <= |sorted|
  {
    Sorted(result) && forall x :: x in result <==> x in sorted[..i] && x in Roots(entries)
  }

  /** Keeps a domain exactly when no domain kept before covers it. */
  method CollapseDomains(u: Unicode, values: seq<Value>) returns (result: seq<string>)
    ensures Sorted(result) && Elements(result) == Roots(Cleaned(u, values))
  {
    var cleaned := CleanAll(u, values);
    var sorted := SortByKey(cleaned);
    result := [];
    var i := 0;
    while i < |sorted|
      invariant 0 <= i <= |sorted|
      invariant Kept(cleaned, sorted, i, result)
    {
      var domain := sorted[i];
      var covered := exists k :: 0 <= k < |result| && Covers(result[k], domain);
      KeptStep(cleaned, sorted, i, result);
      if !covered {
        result := result + [domain];
      }
      i := i + 1;
    }
    assert sorted[..i] == sorted;
    assert Elements(result) == Roots(cleaned);
  }

  lemma KeptStep(entries: set<string>, sorted: seq<string>, i: nat, result: seq<string>)
    requires Sorted(sorted) && Elements(sorted) == entries && i < |sorted| && Kept(entries, sorted, i, result)
    ensures var covered := exists k :: 0 <= k < |result| && Covers(result[k], sorted[i]);
            Kept(entries, sorted, i + 1, if covered then result else result + [sorted[i]])
  {
    CoveredByKept(entries, sorted, i, result);
    assert sorted[..i + 1] == sorted[..i] + [sorted[i]];
  }

  /** Parents sort first, so looking at the kept entries is enough. */
  lemma CoveredByKept(entries: set<string>, sorted: seq<string>, i: nat, result: seq<string>)
    requires Sorted(sorted) && Elements(sorted) == entries && i < |sorted|
    requires forall x :: x in result <==> x in sorted[..i] && x in Roots(entries)
    ensures (exists k :: 0 <= k < |result| && Covers(result[k], sorted[i])) <==> sorted[i] !in Roots(entries)
    ensures forall k :: 0 <= k < |result| ==> Before(result[k], sorted[i])
  {
    var d := sorted[i];
    assert d in Elements(sorted);
    forall k | 0 <= k < |result| ensures Before(result[k], d) && result[k] in entries && result[k] != d {
      assert result[k] in result;
      var j :| 0 <= j < i && sorted[..i][j] == result[k];
      assert result[k] in Elements(sorted);
      BeforeTotal(d, d);
    }
    if d !in Roots(entries) {
      var r := RootAbove(entries, d);
      ParentHasFewerDots(r, d);
      assert r in Elements(sorted);
      var j :| 0 <= j < |sorted| && sorted[j] == r;
      BeforeTotal(r, d);
      assert i < j ==> Before(d, r);
      assert sorted[..i][j] == r;
    }
  }

  /** The list depends only on which cleaned names occur: not on order, and not on repetition. */
  lemma OrderIndependent(u: Unicode, v: seq<Value>, w: seq<Value>, a: seq<string>, b: seq<string>)
    requires Cleaned(u, v) == Cleaned(u, w)
    requires Sorted(a) && Elements(a) == Roots(Cleaned(u, v))
    requires Sorted(b) && Elements(b) == Roots(Cleaned(u, w))
    ensures a == b
  {
    SortedUnique(a, b);
  }
}
