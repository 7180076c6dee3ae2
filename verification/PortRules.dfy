/**
  Compiling the port entries of a route into the `port` and `port_range` fields of a
  rule. Entries are read from text; ranges are written as "start:end".
 */
module PortRules {
  import opened Lists
  import opened Numerals
  import opened Options
  import opened Text

  const MAX_PORT := 65535

  // ---------------------------------------------------------------- reading an entry

  /** White space and word characters are Unicode tables. */
  datatype Classes = Classes(isSpace: char -> bool, isWord: char -> bool)

  datatype Entry =
    | Malformed
    | Single(port: nat)
    | Span(start: nat, end: nat)
    | SpanExcept(start: nat, end: nat, excluded: nat)

  /** The ports an entry stands for. */
  predicate Denotes(e: Entry, p: int)
  {
    match e
    case Malformed => false
    case Single(n) => p == n
    case Span(a, b) => a <= p <= b
    case SpanExcept(a, b, x) => a <= p <= b && p != x
  }

  /** The end of the longest run of digits from `i`. */
  function DigitsEnd(s: string, i: nat): (j: nat)
    requires i <= |s|
    ensures i <= j <= |s| && AllDigits(s[i..j]) && (j < |s| ==> !IsDigit(s[j]))
    decreases |s| - i
  {
    if i < |s| && IsDigit(s[i]) then
      var j := DigitsEnd(s, i + 1);
      assert s[i..j] == [s[i]] + s[i + 1..j];
      j
    else i
  }

  function SkipSpaces(k: Classes, s: string, i: nat): (j: nat)
    requires i <= |s|
    ensures i <= j <= |s| && (j < |s| ==> !k.isSpace(s[j]))
    decreases |s| - i
  {
    if i < |s| && k.isSpace(s[i]) then SkipSpaces(k, s, i + 1) else i
  }

  /** `^(\d+)\s*-\s*(\d+)` */
  function MatchSpan(k: Classes, s: string): Option<(nat, nat)>
  {
    var a := DigitsEnd(s, 0);
    var b := SkipSpaces(k, s, a);
    if a == 0 || b == |s| || s[b] != '-' then None
    else
      var c := SkipSpaces(k, s, b + 1);
      var d := DigitsEnd(s, c);
      if d == c then None else Some((Number(s[0..a]), Number(s[c..d])))
  }

  predicate SameLetter(c: char, lower: char)
    requires 'a' <= lower <= 'z'
  {
    c == lower || c as int == lower as int - 32
  }

  /** The word "except" in any case, not preceded by a word character. */
  predicate ExceptAt(k: Classes, s: string, i: nat)
  {
    && i + 6 <= |s|
    && (i == 0 || !k.isWord(s[i - 1]))
    && SameLetter(s[i], 'e') && SameLetter(s[i + 1], 'x') && SameLetter(s[i + 2], 'c')
    && SameLetter(s[i + 3], 'e') && SameLetter(s[i + 4], 'p') && SameLetter(s[i + 5], 't')
  }

  function FirstDigit(s: string, i: nat): (j: nat)
    requires i <= |s|
    ensures i <= j <= |s| && (j < |s| ==> IsDigit(s[j]))
    decreases |s| - i
  {
    if i < |s| && !IsDigit(s[i]) then FirstDigit(s, i + 1) else i
  }

  /** `\bexcept\D*(\d+)`, searched from position `i` on. */
  function SearchExcept(k: Classes, s: string, i: nat): Option<nat>
    requires i <= |s|
    decreases |s| - i
  {
    if ExceptAt(k, s, i) && FirstDigit(s, i + 6) < |s| then
      var d := FirstDigit(s, i + 6);
      Some(Number(s[d..DigitsEnd(s, d)]))
    else if i == |s| then None
    else SearchExcept(k, s, i + 1)
  }

  function ParseEntry(k: Classes, text: string): Entry
  {
    var s := Trim(k.isSpace, text);
    if '-' in s then
      var span := MatchSpan(k, s);
      if span.None? then Malformed
      else
        var except := SearchExcept(k, s, 0);
        if except.None? then Span(span.value.0, span.value.1)
        else SpanExcept(span.value.0, span.value.1, except.value)
    else if s != "" && AllDigits(s) then Single(Number(s))
    else Malformed
  }

  // ---------------------------------------------------------------- which texts are which entries

  /** Digits and dashes are not white space; a blank is no word character. */
  predicate Sane(k: Classes)
  {
    (forall c: char :: k.isSpace(c) ==> !IsDigit(c) && c != '-') && !k.isWord(' ')
  }

  predicate DigitsIn(s: string, i: int, j: int)
  {
    0 <= i <= j <= |s| && forall t :: i <= t < j ==> IsDigit(s[t])
  }

  predicate SpacesIn(k: Classes, s: string, i: int, j: int)
  {
    0 <= i <= j <= |s| && forall t :: i <= t < j ==> k.isSpace(s[t])
  }

  /** A number up to `i`, a dash at `j`, and a number from `l` to `m`, with only white space between. */
  predicate SpanAt(k: Classes, s: string, i: nat, j: nat, l: nat, m: nat)
  {
    && 0 < i <= j < |s| && s[j] == '-' && j < l < m <= |s|
    && DigitsIn(s, 0, i) && SpacesIn(k, s, i, j) && SpacesIn(k, s, j + 1, l) && DigitsIn(s, l, m)
    && (m < |s| ==> !IsDigit(s[m]))
  }

  lemma {:induction false} DigitsEndAt(s: string, i: nat, j: nat)
    requires DigitsIn(s, i, j) && (j < |s| ==> !IsDigit(s[j]))
    ensures DigitsEnd(s, i) == j
    decreases j - i
  {
    if i < j { DigitsEndAt(s, i + 1, j); }
  }

  lemma {:induction false} DigitsEndIn(s: string, i: nat)
    requires i <= |s|
    ensures DigitsIn(s, i, DigitsEnd(s, i))
    decreases |s| - i
  {
    if i < |s| && IsDigit(s[i]) { DigitsEndIn(s, i + 1); }
  }

  lemma {:induction false} SkipSpacesAt(k: Classes, s: string, i: nat, j: nat)
    requires SpacesIn(k, s, i, j) && (j < |s| ==> !k.isSpace(s[j]))
    ensures SkipSpaces(k, s, i) == j
    decreases j - i
  {
    if i < j { SkipSpacesAt(k, s, i + 1, j); }
  }

  lemma {:induction false} SkipSpacesIn(k: Classes, s: string, i: nat)
    requires i <= |s|
    ensures SpacesIn(k, s, i, SkipSpaces(k, s, i))
    decreases |s| - i
  {
    if i < |s| && k.isSpace(s[i]) { SkipSpacesIn(k, s, i + 1); }
  }

  /** Wherever a span stands at the start of the text, it is read. */
  lemma SpanRead(k: Classes, s: string, i: nat, j: nat, l: nat, m: nat)
    requires Sane(k) && SpanAt(k, s, i, j, l, m)
    ensures AllDigits(s[0..i]) && AllDigits(s[l..m]) && MatchSpan(k, s) == Some((Number(s[0..i]), Number(s[l..m])))
  {
    DigitsEndAt(s, 0, i);
    SkipSpacesAt(k, s, i, j);
    SkipSpacesAt(k, s, j + 1, l);
    DigitsEndAt(s, l, m);
  }

  /** And nothing else is. */
  lemma SpanFound(k: Classes, s: string) returns (i: nat, j: nat, l: nat, m: nat)
    requires MatchSpan(k, s).Some?
    ensures SpanAt(k, s, i, j, l, m)
  {
    i := DigitsEnd(s, 0);
    j := SkipSpaces(k, s, i);
    l := SkipSpaces(k, s, j + 1);
    m := DigitsEnd(s, l);
    DigitsEndIn(s, 0);
    SkipSpacesIn(k, s, i);
    SkipSpacesIn(k, s, j + 1);
    DigitsEndIn(s, l);
  }

  lemma MatchSpanIff(k: Classes, s: string)
    requires Sane(k)
    ensures MatchSpan(k, s).Some? <==> exists i: nat, j: nat, l: nat, m: nat :: SpanAt(k, s, i, j, l, m)
  {
    if MatchSpan(k, s).Some? { var i, j, l, m := SpanFound(k, s); }
    if i: nat, j: nat, l: nat, m: nat :| SpanAt(k, s, i, j, l, m) { SpanRead(k, s, i, j, l, m); }
  }

  /** The word in any mixture of cases, where no word character stands before it. */
  lemma ExceptAtIff(k: Classes, s: string, i: nat)
    ensures ExceptAt(k, s, i) <==>
            && i + 6 <= |s| && (i == 0 || !k.isWord(s[i - 1]))
            && forall t :: 0 <= t < 6 ==> s[i + t] == "except"[t] || s[i + t] == "EXCEPT"[t]
  {
    if ExceptAt(k, s, i) {
      forall t | 0 <= t < 6 ensures s[i + t] == "except"[t] || s[i + t] == "EXCEPT"[t] {
        assert t == 0 || t == 1 || t == 2 || t == 3 || t == 4 || t == 5;
      }
    }
    if i + 6 <= |s| && (forall t :: 0 <= t < 6 ==> s[i + t] == "except"[t] || s[i + t] == "EXCEPT"[t]) {
      assert forall t :: 0 <= t < 6 ==> SameLetter(s[i + t], "except"[t]);
      assert SameLetter(s[i + 0], "except"[0]) && SameLetter(s[i + 1], "except"[1]);
      assert SameLetter(s[i + 2], "except"[2]) && SameLetter(s[i + 3], "except"[3]);
      assert SameLetter(s[i + 4], "except"[4]) && SameLetter(s[i + 5], "except"[5]);
    }
  }

  /** The first such word stands at `i`, and the first number behind it from `d` to `e`. */
  predicate ExclusionAt(k: Classes, s: string, i: nat, d: nat, e: nat)
  {
    && ExceptAt(k, s, i) && (forall j: nat :: j < i ==> !ExceptAt(k, s, j))
    && i + 6 <= d < e <= |s|
    && (forall t :: i + 6 <= t < d ==> !IsDigit(s[t]))
    && DigitsIn(s, d, e) && (e < |s| ==> !IsDigit(s[e]))
  }

  lemma {:induction false} FirstDigitAt(s: string, i: nat, d: nat)
    requires i <= d <= |s| && (forall t :: i <= t < d ==> !IsDigit(s[t])) && (d < |s| ==> IsDigit(s[d]))
    ensures FirstDigit(s, i) == d
    decreases d - i
  {
    if i < d { FirstDigitAt(s, i + 1, d); }
  }

  lemma {:induction false} NoDigitBefore(s: string, i: nat)
    requires i <= |s|
    ensures forall t :: i <= t < FirstDigit(s, i) ==> !IsDigit(s[t])
    decreases |s| - i
  {
    if i < |s| && !IsDigit(s[i]) { NoDigitBefore(s, i + 1); }
  }

  /** The search passes over positions where the word does not stand. */
  lemma {:induction false} SearchPasses(k: Classes, s: string, i: nat, j: nat)
    requires i <= j <= |s| && forall t: nat :: i <= t < j ==> !ExceptAt(k, s, t)
    ensures SearchExcept(k, s, i) == SearchExcept(k, s, j)
    decreases j - i
  {
    if i < j { SearchPasses(k, s, i + 1, j); }
  }

  lemma ExclusionRead(k: Classes, s: string, i: nat, d: nat, e: nat)
    requires ExclusionAt(k, s, i, d, e)
    ensures AllDigits(s[d..e]) && SearchExcept(k, s, 0) == Some(Number(s[d..e]))
  {
    SearchPasses(k, s, 0, i);
    FirstDigitAt(s, i + 6, d);
    DigitsEndAt(s, d, e);
  }

  /** Behind a later word there is no number that is not behind an earlier one. */
  lemma {:induction false} ExclusionFound(k: Classes, s: string, from: nat) returns (i: nat, d: nat, e: nat)
    requires from <= |s| && SearchExcept(k, s, from).Some? && forall j: nat :: j < from ==> !ExceptAt(k, s, j)
    ensures ExclusionAt(k, s, i, d, e)
    decreases |s| - from
  {
    if ExceptAt(k, s, from) {
      i, d := from, FirstDigit(s, from + 6);
      NoDigitBefore(s, from + 6);
      if d == |s| { NoneBehind(k, s, from, from + 1); }
      e := DigitsEnd(s, d);
      DigitsEndIn(s, d);
    } else {
      i, d, e := ExclusionFound(k, s, from + 1);
    }
  }

  lemma {:induction false} NoneBehind(k: Classes, s: string, i: nat, j: nat)
    requires i + 6 <= |s| && i <= j <= |s| && forall t :: i + 6 <= t < |s| ==> !IsDigit(s[t])
    ensures SearchExcept(k, s, j).None?
    decreases |s| - j
  {
    if j < |s| { NoneBehind(k, s, i, j + 1); }
    if j + 6 <= |s| { FirstDigitAt(s, j + 6, |s|); }
  }

  lemma SearchExceptIff(k: Classes, s: string)
    ensures SearchExcept(k, s, 0).Some? <==> exists i: nat, d: nat, e: nat :: ExclusionAt(k, s, i, d, e)
  {
    if SearchExcept(k, s, 0).Some? { var i, d, e := ExclusionFound(k, s, 0); }
    if i: nat, d: nat, e: nat :| ExclusionAt(k, s, i, d, e) { ExclusionRead(k, s, i, d, e); }
  }

  /**
    Every text, once stripped: a number without a dash; a span at its start, with or without an
    excluded number behind it; anything else is malformed.
   */
  lemma EntryIs(k: Classes, text: string)
    requires Sane(k)
    ensures var s, e := Trim(k.isSpace, text), ParseEntry(k, text);
            && (e.Malformed? <==>
                  if '-' in s then !exists i: nat, j: nat, l: nat, m: nat :: SpanAt(k, s, i, j, l, m)
                  else s == "" || !AllDigits(s))
            && (e.Single? <==> '-' !in s && s != "" && AllDigits(s))
            && (e.SpanExcept? ==> exists i: nat, d: nat, n: nat :: ExclusionAt(k, s, i, d, n))
            && (e.Span? ==> !exists i: nat, d: nat, n: nat :: ExclusionAt(k, s, i, d, n))
  {
    var s := Trim(k.isSpace, text);
    MatchSpanIff(k, s);
    SearchExceptIff(k, s);
  }

  /** And the numbers of the entry are those in the text. */
  lemma EntryNumbers(k: Classes, text: string, i: nat, j: nat, l: nat, m: nat)
    requires Sane(k) && SpanAt(k, Trim(k.isSpace, text), i, j, l, m)
    ensures var s, e := Trim(k.isSpace, text), ParseEntry(k, text);
            && (e.Span? || e.SpanExcept?)
            && AllDigits(s[0..i]) && AllDigits(s[l..m]) && e.start == Number(s[0..i]) && e.end == Number(s[l..m])
            && forall x: nat, d: nat, n: nat :: ExclusionAt(k, s, x, d, n) ==>
                 e.SpanExcept? && AllDigits(s[d..n]) && e.excluded == Number(s[d..n])
  {
    var s := Trim(k.isSpace, text);
    SpanRead(k, s, i, j, l, m);
    assert s[j] == '-';
    forall x: nat, d: nat, n: nat | ExclusionAt(k, s, x, d, n)
      ensures AllDigits(s[d..n]) && SearchExcept(k, s, 0) == Some(Number(s[d..n]))
    {
      ExclusionRead(k, s, x, d, n);
    }
  }

  // ---------------------------------------------------------------- entries as text

  const EXCEPT := " except "

  /** The plain spelling of an entry. */
  function Spelled(e: Entry): string
    requires !e.Malformed?
  {
    match e
    case Single(n) => Decimal(n)
    case Span(a, b) => Decimal(a) + "-" + Decimal(b)
    case SpanExcept(a, b, x) => Decimal(a) + "-" + Decimal(b) + EXCEPT + Decimal(x)
  }

  /** The search passes over everything that is not the letter it looks for. */
  lemma {:induction false} SearchSkips(k: Classes, s: string, i: nat, j: nat)
    requires i <= j <= |s| && forall t :: i <= t < j ==> s[t] != 'e' && s[t] != 'E'
    ensures SearchExcept(k, s, i) == SearchExcept(k, s, j)
    decreases j - i
  {
    if i < j { SearchSkips(k, s, i + 1, j); }
  }

  lemma SpanMatches(k: Classes, a: nat, b: nat, tail: string)
    requires Sane(k) && (tail == "" || !IsDigit(tail[0]))
    ensures MatchSpan(k, Decimal(a) + "-" + Decimal(b) + tail) == Some((a, b))
  {
    var x, y := Decimal(a), Decimal(b);
    var s := x + "-" + y + tail;
    var i, j := |x| + 1, |x| + 1 + |y|;
    assert s[|x|] == '-' && s[0..|x|] == x && s[i..j] == y;
    assert forall t :: i <= t < j ==> s[t] == y[t - i];
    assert s[i] == y[0];
    DigitsEndAt(s, 0, |x|);
    DigitsEndAt(s, i, j);
    NumberOfDecimal(a);
    NumberOfDecimal(b);
  }

  /** The characters of the word, as they stand in `s` from position `i` on. */
  predicate WordAt(s: string, i: nat)
  {
    && i + 8 <= |s| && s[i] == ' ' && s[i + 1] == 'e' && s[i + 2] == 'x' && s[i + 3] == 'c'
    && s[i + 4] == 'e' && s[i + 5] == 'p' && s[i + 6] == 't' && s[i + 7] == ' '
  }

  lemma WordStands(head: string, y: string)
    ensures var s := head + EXCEPT + y;
            && WordAt(s, |head|) && |s| == |head| + 8 + |y| && s[..|head|] == head && s[|head| + 8..] == y
  {
    var s := head + EXCEPT + y;
    assert forall t :: |head| <= t < |head| + 8 ==> s[t] == EXCEPT[t - |head|];
  }

  lemma ExceptRead(k: Classes, s: string, i: nat, x: nat)
    requires Sane(k) && WordAt(s, i) && s[i + 8..] == Decimal(x)
    requires forall t :: 0 <= t < i ==> s[t] != 'e' && s[t] != 'E'
    ensures SearchExcept(k, s, 0) == Some(x)
  {
    var y := Decimal(x);
    var d := i + 8;
    assert forall t :: d <= t < |s| ==> s[t] == y[t - d];
    SearchSkips(k, s, 0, i + 1);
    assert ExceptAt(k, s, i + 1);
    assert FirstDigit(s, d - 1) == FirstDigit(s, d) == d;
    DigitsEndAt(s, d, |s|);
    assert s[d..|s|] == y;
    NumberOfDecimal(x);
  }

  lemma ExceptFound(k: Classes, head: string, x: nat)
    requires Sane(k) && forall t :: 0 <= t < |head| ==> head[t] != 'e' && head[t] != 'E'
    ensures SearchExcept(k, head + EXCEPT + Decimal(x), 0) == Some(x)
  {
    var s := head + EXCEPT + Decimal(x);
    WordStands(head, Decimal(x));
    assert forall t :: 0 <= t < |head| ==> s[t] == s[..|head|][t];
    ExceptRead(k, s, |head|, x);
  }

  lemma StripNone(k: Classes, s: string)
    requires Sane(k) && |s| > 0 && IsDigit(s[0]) && IsDigit(s[|s| - 1])
    ensures Trim(k.isSpace, s) == s
  {
  }

  /** What the reader makes of a text once its pieces are known. */
  lemma ReadParts(k: Classes, s: string, a: nat, b: nat)
    requires Sane(k) && |s| > 0 && IsDigit(s[0]) && IsDigit(s[|s| - 1]) && '-' in s
    requires MatchSpan(k, s) == Some((a, b))
    ensures var x := SearchExcept(k, s, 0);
            ParseEntry(k, s) == if x.None? then Span(a, b) else SpanExcept(a, b, x.value)
  {
    StripNone(k, s);
  }

  lemma NoLetters(k: Classes, x: string, y: string)
    requires AllDigits(x) && AllDigits(y)
    ensures SearchExcept(k, x + "-" + y, 0).None?
  {
    var s := x + "-" + y;
    assert forall t :: 0 <= t < |s| ==> s[t] == '-' || IsDigit(s[t]);
    SearchSkips(k, s, 0, |s|);
  }

  lemma SpanEnds(x: string, y: string)
    requires |x| > 0 && |y| > 0
    ensures var s := x + "-" + y;
            s == x + "-" + y + "" && '-' in s && s[0] == x[0] && s[|s| - 1] == y[|y| - 1]
  {
    var s := x + "-" + y;
    assert s[|x|] == '-';
  }

  lemma ReadSpan(k: Classes, a: nat, b: nat)
    requires Sane(k)
    ensures ParseEntry(k, Spelled(Span(a, b))) == Span(a, b)
  {
    var x, y := Decimal(a), Decimal(b);
    SpanEnds(x, y);
    SpanMatches(k, a, b, "");
    NoLetters(k, x, y);
    ReadParts(k, x + "-" + y, a, b);
  }

  /** The three places of the text that the reader looks at first. */
  lemma ExceptEnds(x: string, y: string, z: string)
    requires |x| > 0 && |z| > 0
    ensures var s := x + "-" + y + EXCEPT + z;
            && s == x + "-" + y + (EXCEPT + z) && '-' in s && s[0] == x[0] && s[|s| - 1] == z[|z| - 1]
  {
    var s := x + "-" + y + EXCEPT + z;
    assert s[|x|] == '-';
  }

  lemma ReadSpanExcept(k: Classes, a: nat, b: nat, x: nat)
    requires Sane(k)
    ensures ParseEntry(k, Spelled(SpanExcept(a, b, x))) == SpanExcept(a, b, x)
  {
    var head, y := Decimal(a) + "-" + Decimal(b), Decimal(x);
    ExceptEnds(Decimal(a), Decimal(b), y);
    SpanMatches(k, a, b, EXCEPT + y);
    ExceptFound(k, head, x);
    ReadParts(k, head + EXCEPT + y, a, b);
  }

  /** Reading undoes spelling, for every well-formed entry. */
  lemma ReadSpelled(k: Classes, e: Entry)
    requires Sane(k) && !e.Malformed?
    ensures ParseEntry(k, Spelled(e)) == e
  {
    match e
    case Single(n) =>
      StripNone(k, Decimal(n));
      NumberOfDecimal(n);
    case Span(a, b) => ReadSpan(k, a, b);
    case SpanExcept(a, b, x) => ReadSpanExcept(k, a, b, x);
  }

  // ---------------------------------------------------------------- writing the rule

  function RangeText(start: nat, end: nat): string
  {
    Decimal(start) + ":" + Decimal(end)
  }

  /** How the rule engine reads a range: both bounds inclusive. */
  predicate RangeHas(range: string, p: int)
  {
    var parts := SplitOn(range, ':');
    |parts| == 2 && AllDigits(parts[0]) && AllDigits(parts[1]) && Number(parts[0]) <= p <= Number(parts[1])
  }

  /** The rule matches port `p`. */
  predicate Emitted(ports: seq<int>, ranges: seq<string>, p: int)
  {
    p in ports || exists r :: r in ranges && RangeHas(r, p)
  }

  lemma RangeTextMeaning(start: nat, end: nat, p: int)
    ensures RangeHas(RangeText(start, end), p) <==> start <= p <= end
  {
    var a, b := Decimal(start), Decimal(end);
    assert ':' !in a && ':' !in b;
    SplitAppend(a, ':', b);
    SplitPlain(a, ':');
    SplitPlain(b, ':');
    NumberOfDecimal(start);
    NumberOfDecimal(end);
  }

  /** Clips a span to valid ports and emits what is left. */
  method AppendPortSpan(ports: seq<int>, ranges: seq<string>, start: int, end: int)
    returns (ports': seq<int>, ranges': seq<string>)
    ensures forall p :: Emitted(ports', ranges', p) <==>
              Emitted(ports, ranges, p) || (1 <= p <= MAX_PORT && start <= p <= end)
    ensures ports <= ports' && ranges <= ranges'
    ensures |ports'| + |ranges'| <= |ports| + |ranges| + 1
  {
    var lo := if start < 1 then 1 else start;
    var hi := if end > MAX_PORT then MAX_PORT else end;
    ports', ranges' := ports, ranges;
    if lo > hi {
      return;
    }
    if lo == hi {
      ports' := ports + [lo];
    } else {
      ranges' := ranges + [RangeText(lo, hi)];
      forall p ensures RangeHas(RangeText(lo, hi), p) <==> lo <= p <= hi {
        RangeTextMeaning(lo, hi, p);
      }
      assert RangeText(lo, hi) in ranges';
    }
  }

  /** Some of the first `n` entries stands for port `p`. */
  ghost predicate Wanted(k: Classes, values: seq<string>, n: nat, p: int)
    requires n <= |values|
  {
    exists i :: 0 <= i < n && Denotes(ParseEntry(k, values[i]), p)
  }

  /** One entry, with the branches of the program. */
  method AppendEntry(ports: seq<int>, ranges: seq<string>, e: Entry)
    returns (ports': seq<int>, ranges': seq<string>)
    ensures forall p :: Emitted(ports', ranges', p) <==>
              Emitted(ports, ranges, p) || (1 <= p <= MAX_PORT && Denotes(e, p))
  {
    ports', ranges' := ports, ranges;
    match e
    case Malformed =>
    case Single(n) =>
      if 1 <= n <= MAX_PORT {
        ports' := ports + [n];
      }
    case Span(a, b) =>
      ports', ranges' := AppendPortSpan(ports, ranges, a, b);
    case SpanExcept(a, b, x) =>
      if !(a <= x <= b) {
        ports', ranges' := AppendPortSpan(ports, ranges, a, b);
      } else {
        ports', ranges' := AppendPortSpan(ports, ranges, a, x - 1);
        ports', ranges' := AppendPortSpan(ports', ranges', x + 1, b);
      }
  }

  lemma WantedStep(k: Classes, values: seq<string>, i: nat)
    requires i < |values|
    ensures forall p :: Wanted(k, values, i + 1, p) <==> Wanted(k, values, i, p) || Denotes(ParseEntry(k, values[i]), p)
  {
    forall p ensures Wanted(k, values, i + 1, p) <==> Wanted(k, values, i, p) || Denotes(ParseEntry(k, values[i]), p) {
      if Wanted(k, values, i + 1, p) {
        var j :| 0 <= j < i + 1 && Denotes(ParseEntry(k, values[j]), p);
      }
    }
  }

  lemma UniqueEmits(ports: seq<int>, ranges: seq<string>)
    ensures forall p :: Emitted(Unique(ports), Unique(ranges), p) <==> Emitted(ports, ranges, p)
  {
    forall p ensures Emitted(Unique(ports), Unique(ranges), p) <==> Emitted(ports, ranges, p) {
      if r :| r in ranges && RangeHas(r, p) { assert r in Unique(ranges); }
    }
  }

  /** The emitted fields match exactly the valid ports that some entry stands for. */
  method CompilePorts(k: Classes, values: seq<string>) returns (ports: seq<int>, ranges: seq<string>)
    ensures forall p :: Emitted(ports, ranges, p) <==> 1 <= p <= 65535 && Wanted(k, values, |values|, p)
    ensures NoDuplicates(ports) && NoDuplicates(ranges)
  {
    ports, ranges := [], [];
    var i := 0;
    while i < |values|
      invariant 0 <= i <= |values|
      invariant forall p :: Emitted(ports, ranges, p) <==> 1 <= p <= MAX_PORT && Wanted(k, values, i, p)
    {
      ports, ranges := AppendEntry(ports, ranges, ParseEntry(k, values[i]));
      WantedStep(k, values, i);
      i := i + 1;
    }
    UniqueEmits(ports, ranges);
    ports, ranges := Unique(ports), Unique(ranges);
  }
}
