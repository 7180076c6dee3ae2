/**
  Version strings of releases: parsing, comparison, and the sort that finds the latest
  one. White space is a Unicode table, passed in.
 */
module Versions {
  import opened Numerals
  import opened Options
  import opened Text

  const FIELDS := 6

  // ---------------------------------------------------------------- parsing

  /** The longest prefix of digits. */
  function DigitPrefix(s: string): (r: string)
    ensures AllDigits(r) && r <= s
  {
    if |s| > 0 && IsDigit(s[0]) then
      var r := DigitPrefix(s[1..]);
      assert s == [s[0]] + s[1..];
      [s[0]] + r
    else ""
  }

  /** parseInt in base ten: white space, a sign, digits; None is NaN. */
  function ParseInt(isSpace: char -> bool, s: string): Option<int>
  {
    var t := LStrip(s, isSpace);
    var negative := |t| > 0 && t[0] == '-';
    var digits := DigitPrefix(if |t| > 0 && (t[0] == '-' || t[0] == '+') then t[1..] else t);
    var n: int := Number(digits);
    if digits == "" then None else Some(if negative then -n else n)
  }

  /** `parseInt(s, 10) || 0` */
  function ParseIntOrZero(isSpace: char -> bool, s: string): int
  {
    var n := ParseInt(isSpace, s);
    if n.Some? then n.value else 0
  }

  /** [major, minor, patch, stage, stage number, revision]; None is the null result. */
  type Version = v: seq<Option<int>> | |v| == FIELDS witness [None, None, None, None, None, None]

  function ReplaceDash(s: string): string
  {
    var i := IndexFrom(s, "-", 0);
    if i < 0 then s else s[..i] + "." + s[i + 1..]
  }

  /** The rank of a pre-release stage name. */
  function StageOf(s: string): Option<int>
  {
    if s == "alpha" then Some(1) else if s == "beta" then Some(2) else if s == "rc" then Some(3) else None
  }

  /** The fields after the base, from the parts behind it. */
  function Suffix(isSpace: char -> bool, p: seq<string>): (Option<int>, Option<int>, Option<int>)
  {
    if |p| == 0 then (Some(4), Some(0), Some(0))
    else
      var stage := StageOf(p[0]);
      if stage.None? then (Some(4), Some(0), Some(ParseIntOrZero(isSpace, p[0])))
      else (stage, Some(if |p| > 1 then ParseIntOrZero(isSpace, p[1]) else 0), Some(0))
  }

  function Fields(isSpace: char -> bool, p: seq<string>): Option<Version>
  {
    if |p| < 3 then None
    else
      var t := Suffix(isSpace, p[3..]);
      Some([ParseInt(isSpace, p[0]), ParseInt(isSpace, p[1]), ParseInt(isSpace, p[2]), t.0, t.1, t.2])
  }

  function ParseVer(isSpace: char -> bool, str: string): Option<Version>
  {
    Fields(isSpace, SplitOn(ReplaceDash(Trim(isSpace, str)), '.'))
  }

  // ---------------------------------------------------------------- comparison

  /** `a > b`, false when either is NaN. */
  predicate Greater(a: Option<int>, b: Option<int>)
  {
    a.Some? && b.Some? && a.value > b.value
  }

  /** The comparison loop from field `i` on. */
  predicate NewerFrom(cur: Version, ver: Version, i: nat)
    requires i <= FIELDS
    decreases FIELDS - i
  {
    i < FIELDS && (Greater(ver[i], cur[i]) || (!Greater(cur[i], ver[i]) && NewerFrom(cur, ver, i + 1)))
  }

  /** `version` is newer than `curver`; unreadable versions are never newer or older. */
  predicate IsNewer(isSpace: char -> bool, curver: string, version: string)
  {
    var ver, cur := ParseVer(isSpace, version), ParseVer(isSpace, curver);
    ver.Some? && cur.Some? && NewerFrom(cur.value, ver.value, 0)
  }

  /** The comparison loop over the six fields. */
  method CompareFields(cur: Version, ver: Version) returns (newer: bool)
    ensures newer == NewerFrom(cur, ver, 0)
  {
    var i := 0;
    while i < FIELDS
      invariant 0 <= i <= FIELDS
      invariant NewerFrom(cur, ver, 0) <==> NewerFrom(cur, ver, i)
    {
      if Greater(ver[i], cur[i]) {
        return true;
      }
      if Greater(cur[i], ver[i]) {
        return false;
      }
      i := i + 1;
    }
    return false;
  }

  method IsNewerVersion(isSpace: char -> bool, curver: string, version: string) returns (newer: bool)
    ensures newer == IsNewer(isSpace, curver, version)
  {
    var ver := ParseVer(isSpace, version);
    var cur := ParseVer(isSpace, curver);
    if ver.None? || cur.None? {
      return false;
    }
    newer := CompareFields(cur.value, ver.value);
  }

  /** All fields are numbers. */
  predicate Numeric(v: Version)
  {
    forall i :: 0 <= i < FIELDS ==> v[i].Some?
  }

  /** The version string is readable and its numeric fields parse. */
  predicate Readable(isSpace: char -> bool, s: string)
  {
    ParseVer(isSpace, s).Some? && Numeric(ParseVer(isSpace, s).value)
  }

  function Tuple(isSpace: char -> bool, s: string): Version
    requires Readable(isSpace, s)
  {
    ParseVer(isSpace, s).value
  }

  /** Lexicographic comparison, stated by the deciding field `k`. */
  predicate Decides(ver: Version, cur: Version, k: nat)
  {
    k < FIELDS && Greater(ver[k], cur[k]) && forall j :: 0 <= j < k ==> ver[j] == cur[j]
  }

  ghost predicate LexGreater(ver: Version, cur: Version)
  {
    exists k :: 0 <= k < FIELDS && Decides(ver, cur, k)
  }

  lemma {:induction false} NewerFromIsLex(cur: Version, ver: Version, i: nat)
    requires i <= FIELDS && Numeric(cur) && Numeric(ver) && forall j :: 0 <= j < i ==> ver[j] == cur[j]
    ensures NewerFrom(cur, ver, i) <==> LexGreater(ver, cur)
    decreases FIELDS - i
  {
    if i < FIELDS {
      if Greater(ver[i], cur[i]) {
        assert Decides(ver, cur, i);
      } else if ver[i] == cur[i] {
        NewerFromIsLex(cur, ver, i + 1);
      }
    }
  }

  /** On readable versions the loop is the lexicographic order of the parsed fields. */
  lemma NewerIsLex(isSpace: char -> bool, a: string, b: string)
    requires Readable(isSpace, a) && Readable(isSpace, b)
    ensures IsNewer(isSpace, a, b) <==> LexGreater(Tuple(isSpace, b), Tuple(isSpace, a))
  {
    NewerFromIsLex(Tuple(isSpace, a), Tuple(isSpace, b), 0);
  }

  lemma LexAsymmetric(a: Version, b: Version)
    requires LexGreater(a, b)
    ensures !LexGreater(b, a) && a != b
  {
    var k :| 0 <= k < FIELDS && Decides(a, b, k);
    forall l | 0 <= l < FIELDS ensures !Decides(b, a, l) {
      if k < l { assert a[k] != b[k]; }
    }
  }

  lemma LexTransitive(a: Version, b: Version, c: Version)
    requires LexGreater(a, b) && LexGreater(b, c)
    ensures LexGreater(a, c)
  {
    var k :| 0 <= k < FIELDS && Decides(a, b, k);
    var l :| 0 <= l < FIELDS && Decides(b, c, l);
    assert Decides(a, c, if k < l then k else l);
  }

  lemma LexTotal(a: Version, b: Version)
    requires Numeric(a) && Numeric(b) && a != b
    ensures LexGreater(a, b) || LexGreater(b, a)
  {
    var k := 0;
    while a[k] == b[k]
      invariant 0 <= k < FIELDS && forall j :: 0 <= j < k ==> a[j] == b[j]
      decreases FIELDS - k
    {
      k := k + 1;
    }
    assert Decides(a, b, k) || Decides(b, a, k);
  }

  /** A strict weak order whose ties are exactly the equal parsed tuples. */
  lemma NewerIsStrictWeakOrder(isSpace: char -> bool, a: string, b: string, c: string)
    requires Readable(isSpace, a) && Readable(isSpace, b) && Readable(isSpace, c)
    ensures !IsNewer(isSpace, a, a)
    ensures IsNewer(isSpace, a, b) ==> !IsNewer(isSpace, b, a)
    ensures IsNewer(isSpace, a, b) && IsNewer(isSpace, b, c) ==> IsNewer(isSpace, a, c)
    ensures !IsNewer(isSpace, a, b) && !IsNewer(isSpace, b, a) <==> Tuple(isSpace, a) == Tuple(isSpace, b)
  {
    var x, y, z := Tuple(isSpace, a), Tuple(isSpace, b), Tuple(isSpace, c);
    NewerIsLex(isSpace, a, a);
    NewerIsLex(isSpace, a, b);
    NewerIsLex(isSpace, b, a);
    NewerIsLex(isSpace, b, c);
    NewerIsLex(isSpace, a, c);
    if LexGreater(x, x) { LexAsymmetric(x, x); }
    if LexGreater(y, x) { LexAsymmetric(y, x); }
    if LexGreater(x, y) { LexAsymmetric(x, y); }
    if LexGreater(y, x) && LexGreater(z, y) { LexTransitive(z, y, x); }
    if x != y { LexTotal(x, y); }
  }

  // ---------------------------------------------------------------- versions as text

  /** What may stand behind X.Y.Z. */
  datatype Tail = Stable | Stage(rank: int, number: int) | Revision(number: int)

  predicate Ranked(t: Tail)
  {
    t.Stage? ==> 1 <= t.rank <= 3
  }

  predicate GoodTail(t: Tail)
  {
    Ranked(t) && (!t.Stable? ==> t.number >= 0)
  }

  function StageName(rank: int): string
    requires 1 <= rank <= 3
  {
    if rank == 1 then "alpha" else if rank == 2 then "beta" else "rc"
  }

  function Signed(n: int): string
  {
    if n < 0 then "-" + Decimal(-n) else Decimal(n)
  }

  function TailText(t: Tail): string
    requires GoodTail(t)
  {
    match t
    case Stable => ""
    case Stage(rank, n) => "-" + StageName(rank) + "." + Decimal(n)
    case Revision(n) => "." + Decimal(n)
  }

  function BaseText(a: nat, b: nat, c: nat): string
  {
    Decimal(a) + "." + Decimal(b) + "." + Decimal(c)
  }

  /** X.Y.Z, X.Y.Z-stage.N or X.Y.Z.W */
  function VersionText(a: nat, b: nat, c: nat, t: Tail): string
    requires GoodTail(t)
  {
    BaseText(a, b, c) + TailText(t)
  }

  function VersionTuple(a: int, b: int, c: int, t: Tail): Version
  {
    match t
    case Stable => [Some(a), Some(b), Some(c), Some(4), Some(0), Some(0)]
    case Stage(rank, n) => [Some(a), Some(b), Some(c), Some(rank), Some(n), Some(0)]
    case Revision(n) => [Some(a), Some(b), Some(c), Some(4), Some(0), Some(n)]
  }

  /** Neither digits nor the sign are white space. */
  predicate Sane(isSpace: char -> bool)
  {
    forall c: char :: isSpace(c) ==> !IsDigit(c) && c != '-'
  }

  lemma {:induction false} DigitPrefixAll(s: string)
    requires AllDigits(s)
    ensures DigitPrefix(s) == s
  {
    if |s| > 0 {
      DigitPrefixAll(s[1..]);
      assert s == [s[0]] + s[1..];
    }
  }

  lemma ParseDigits(isSpace: char -> bool, d: string)
    requires Sane(isSpace) && d != "" && AllDigits(d)
    ensures ParseInt(isSpace, d) == Some(Number(d))
  {
    DigitPrefixAll(d);
  }

  lemma ParseMinus(isSpace: char -> bool, s: string, d: string)
    requires Sane(isSpace) && d != "" && AllDigits(d) && |s| > 0 && s[0] == '-' && s[1..] == d
    ensures var n: int := Number(d); ParseInt(isSpace, s) == Some(-n)
  {
    DigitPrefixAll(d);
    assert LStrip(s, isSpace) == s;
  }

  lemma ParseNatural(isSpace: char -> bool, n: nat)
    requires Sane(isSpace)
    ensures ParseInt(isSpace, Decimal(n)) == Some(n)
  {
    NumberOfDecimal(n);
    ParseDigits(isSpace, Decimal(n));
  }

  lemma ParseNegative(isSpace: char -> bool, n: nat, d: string)
    requires Sane(isSpace) && d == Decimal(n)
    ensures ParseInt(isSpace, "-" + d) == Some(-(n as int))
  {
    NumberOfDecimal(n);
    assert ("-" + d)[1..] == d;
    ParseMinus(isSpace, "-" + d, d);
  }

  lemma ParseSigned(isSpace: char -> bool, n: int)
    requires Sane(isSpace)
    ensures ParseInt(isSpace, Signed(n)) == Some(n)
  {
    if n < 0 { ParseNegative(isSpace, -n, Decimal(-n)); } else { ParseNatural(isSpace, n); }
  }

  /** White space, a sign, digits; what follows does not matter. Without digits there is no number. */
  lemma ParseIntIs(isSpace: char -> bool, s: string, i: nat, sign: string, digits: string, rest: string)
    requires Sane(isSpace) && !isSpace('+') && (sign == "" || sign == "+" || sign == "-")
    requires i <= |s| && (forall k :: 0 <= k < i ==> isSpace(s[k])) && s[i..] == sign + digits + rest
    requires AllDigits(digits) && (rest != "" ==> !IsDigit(rest[0]))
    requires sign == digits == "" && rest != "" ==> !isSpace(rest[0]) && rest[0] != '+' && rest[0] != '-'
    ensures var n: int := Number(digits);
            ParseInt(isSpace, s) == if digits == "" then None else Some(if sign == "-" then -n else n)
  {
    var t := s[i..];
    SignReads(t, sign, digits, rest);
    assert i < |s| ==> s[i] == t[0];
    FirstIsNoSpace(isSpace, t, sign, digits, rest);
    LStripReads(isSpace, s, i);
    DigitPrefixReads(digits, rest);
    ParseIntOf(isSpace, s, t, digits + rest, digits);
  }

  lemma FirstIsNoSpace(isSpace: char -> bool, t: string, sign: string, digits: string, rest: string)
    requires Sane(isSpace) && !isSpace('+') && (sign == "" || sign == "+" || sign == "-")
    requires t == sign + digits + rest && AllDigits(digits)
    requires sign == digits == "" && rest != "" ==> !isSpace(rest[0])
    ensures t != "" ==> !isSpace(t[0])
  {
    if sign != "" { assert t[0] == sign[0]; }
    else if digits != "" { assert t[0] == digits[0]; }
    else { assert t == rest; }
  }

  lemma ParseIntOf(isSpace: char -> bool, s: string, t: string, core: string, digits: string)
    requires LStrip(s, isSpace) == t && DigitPrefix(core) == digits
    requires core == if |t| > 0 && (t[0] == '-' || t[0] == '+') then t[1..] else t
    ensures var n: int := Number(digits);
            ParseInt(isSpace, s) ==
            if digits == "" then None else Some(if |t| > 0 && t[0] == '-' then -n else n)
  {
  }

  /** The sign of a text, and what stands behind it. */
  lemma SignReads(t: string, sign: string, digits: string, rest: string)
    requires t == sign + digits + rest && (sign == "" || sign == "+" || sign == "-") && AllDigits(digits)
    requires sign == digits == "" && rest != "" ==> rest[0] != '+' && rest[0] != '-'
    ensures |t| > 0 && t[0] == '-' <==> sign == "-"
    ensures (if |t| > 0 && (t[0] == '-' || t[0] == '+') then t[1..] else t) == digits + rest
  {
    if sign != "" {
      assert t[0] == sign[0] && t[1..] == digits + rest;
    } else {
      assert t == digits + rest;
      if digits != "" { assert t[0] == digits[0]; }
    }
  }

  lemma {:induction false} LStripReads(isSpace: char -> bool, s: string, i: nat)
    requires i <= |s| && (forall k :: 0 <= k < i ==> isSpace(s[k])) && (i < |s| ==> !isSpace(s[i]))
    ensures LStrip(s, isSpace) == s[i..]
  {
    if i > 0 {
      LStripReads(isSpace, s[1..], i - 1);
      assert s[1..][i - 1..] == s[i..];
    }
  }

  lemma {:induction false} DigitPrefixReads(digits: string, rest: string)
    requires AllDigits(digits) && (rest != "" ==> !IsDigit(rest[0]))
    ensures DigitPrefix(digits + rest) == digits
  {
    if digits == "" {
      assert digits + rest == rest;
    } else {
      assert (digits + rest)[1..] == digits[1..] + rest;
      DigitPrefixReads(digits[1..], rest);
    }
  }

  lemma DecimalIsPlain(n: nat, c: char)
    requires !IsDigit(c)
    ensures c !in Decimal(n)
  {
  }

  lemma SignedIsPlain(n: int)
    ensures '.' !in Signed(n) && StageOf(Signed(n)).None?
  {
    if n < 0 {
      DecimalIsPlain(-n, '.');
      assert Signed(n)[0] == '-';
    } else {
      DecimalIsPlain(n, '.');
      assert IsDigit(Signed(n)[0]);
    }
  }

  lemma BaseParts(a: nat, b: nat, c: nat)
    ensures SplitOn(BaseText(a, b, c), '.') == [Decimal(a), Decimal(b), Decimal(c)]
    ensures '-' !in BaseText(a, b, c)
  {
    DecimalIsPlain(a, '.');
    DecimalIsPlain(b, '.');
    DecimalIsPlain(c, '.');
    SplitPlain(Decimal(a), '.');
    SplitPlain(Decimal(b), '.');
    SplitPlain(Decimal(c), '.');
    SplitAppend(Decimal(a), '.', Decimal(b));
    SplitAppend(Decimal(a) + "." + Decimal(b), '.', Decimal(c));
  }

  /** The pieces of the tail, as the reader sees them. */
  function TailParts(t: Tail): seq<string>
    requires Ranked(t)
  {
    match t
    case Stable => []
    case Stage(rank, n) => [StageName(rank), Signed(n)]
    case Revision(n) => [Signed(n)]
  }

  lemma TextEnds(isSpace: char -> bool, s: string)
    requires Sane(isSpace) && |s| > 0 && IsDigit(s[0]) && IsDigit(s[|s| - 1])
    ensures Trim(isSpace, s) == s
  {
  }

  lemma DashReplaced(base: string, rest: string)
    requires '-' !in base
    ensures ReplaceDash(base + "-" + rest) == base + "." + rest
  {
    var s := base + "-" + rest;
    assert s[|base|] == '-';
    assert s[|base|..|base| + 1] == "-";
    assert MatchesAt(s, "-", |base|);
    assert forall i :: 0 <= i < |base| ==> s[i] == base[i];
    var i := IndexFrom(s, "-", 0);
    assert s[i] == s[i..i + 1][0] == '-';
    assert i == |base|;
    assert s[..i] == base && s[i + 1..] == rest;
  }

  lemma NoDash(s: string)
    requires '-' !in s
    ensures ReplaceDash(s) == s
  {
  }

  lemma StageNames(rank: int)
    requires 1 <= rank <= 3
    ensures '.' !in StageName(rank) && StageOf(StageName(rank)) == Some(rank)
  {
  }

  lemma StageParts(base: string, name: string, number: string)
    requires '-' !in base && '.' !in name && '.' !in number
    ensures SplitOn(ReplaceDash(base + ("-" + name + "." + number)), '.') == SplitOn(base, '.') + [name, number]
  {
    assert base + ("-" + name + "." + number) == base + "-" + (name + "." + number);
    DashReplaced(base, name + "." + number);
    SplitAppend(base, '.', name + "." + number);
    SplitAppend(name, '.', number);
    SplitPlain(name, '.');
    SplitPlain(number, '.');
  }

  lemma RevisionParts(base: string, number: string)
    requires '-' !in base && '.' !in number && '-' !in number
    ensures SplitOn(ReplaceDash(base + ("." + number)), '.') == SplitOn(base, '.') + [number]
  {
    assert base + ("." + number) == base + "." + number;
    NoDash(base + "." + number);
    SplitAppend(base, '.', number);
    SplitPlain(number, '.');
  }

  lemma TextParts(a: nat, b: nat, c: nat, t: Tail)
    requires GoodTail(t)
    ensures SplitOn(ReplaceDash(VersionText(a, b, c, t)), '.') == [Decimal(a), Decimal(b), Decimal(c)] + TailParts(t)
  {
    var base := BaseText(a, b, c);
    BaseParts(a, b, c);
    match t
    case Stable =>
      assert base + "" == base;
      NoDash(base);
    case Stage(rank, n) =>
      StageNames(rank);
      DecimalIsPlain(n, '.');
      StageParts(base, StageName(rank), Decimal(n));
    case Revision(n) =>
      DecimalIsPlain(n, '.');
      DecimalIsPlain(n, '-');
      RevisionParts(base, Decimal(n));
  }

  lemma TailRead(isSpace: char -> bool, t: Tail)
    requires Ranked(t) && Sane(isSpace)
    ensures var f, v := Suffix(isSpace, TailParts(t)), VersionTuple(0, 0, 0, t);
            f.0 == v[3] && f.1 == v[4] && f.2 == v[5]
  {
    match t
    case Stable =>
    case Stage(rank, n) =>
      StageNames(rank);
      ParseSigned(isSpace, n);
    case Revision(n) =>
      SignedIsPlain(n);
      ParseSigned(isSpace, n);
  }

  lemma TextStartsAndEnds(a: nat, b: nat, c: nat, t: Tail)
    requires GoodTail(t)
    ensures var s := VersionText(a, b, c, t); |s| > 0 && IsDigit(s[0]) && IsDigit(s[|s| - 1])
  {
    var base, tail := BaseText(a, b, c), TailText(t);
    assert base[0] == Decimal(a)[0];
    assert base[|base| - 1] == Decimal(c)[|Decimal(c)| - 1];
    if !t.Stable? { assert tail[|tail| - 1] == Decimal(t.number)[|Decimal(t.number)| - 1]; }
  }

  /** Parsing reads back every version in one of the three written forms. */
  lemma ParseReadsBack(isSpace: char -> bool, a: nat, b: nat, c: nat, t: Tail)
    requires Sane(isSpace) && GoodTail(t)
    ensures ParseVer(isSpace, VersionText(a, b, c, t)) == Some(VersionTuple(a, b, c, t))
  {
    var s := VersionText(a, b, c, t);
    TextStartsAndEnds(a, b, c, t);
    TextEnds(isSpace, s);
    TextParts(a, b, c, t);
    FieldsRead(isSpace, a, b, c, t);
  }

  lemma FieldsRead(isSpace: char -> bool, a: int, b: int, c: int, t: Tail)
    requires Sane(isSpace) && Ranked(t)
    ensures Fields(isSpace, [Signed(a), Signed(b), Signed(c)] + TailParts(t)) == Some(VersionTuple(a, b, c, t))
  {
    BaseRead(isSpace, a, b, c, TailParts(t));
    TailRead(isSpace, t);
  }

  lemma BaseRead(isSpace: char -> bool, a: int, b: int, c: int, rest: seq<string>)
    requires Sane(isSpace)
    ensures var f := Suffix(isSpace, rest);
            Fields(isSpace, [Signed(a), Signed(b), Signed(c)] + rest) ==
            Some([Some(a), Some(b), Some(c), f.0, f.1, f.2])
  {
    var p := [Signed(a), Signed(b), Signed(c)] + rest;
    assert p[3..] == rest;
    ParseSigned(isSpace, a);
    ParseSigned(isSpace, b);
    ParseSigned(isSpace, c);
  }

  /** Parts behind a complete tail do not count. */
  lemma ExtraPartsIgnored(isSpace: char -> bool, a: int, b: int, c: int, t: Tail, more: seq<string>)
    requires Sane(isSpace) && Ranked(t) && !t.Stable?
    ensures Fields(isSpace, [Signed(a), Signed(b), Signed(c)] + (TailParts(t) + more)) == Some(VersionTuple(a, b, c, t))
  {
    BaseRead(isSpace, a, b, c, TailParts(t) + more);
    ParseSigned(isSpace, t.number);
    if t.Stage? { StageNames(t.rank); } else { SignedIsPlain(t.number); }
  }

  /** A stage without a number counts as number 0. */
  lemma MissingNumberIsZero(isSpace: char -> bool, a: int, b: int, c: int, rank: int, word: string)
    requires Sane(isSpace) && 1 <= rank <= 3 && ParseInt(isSpace, word).None?
    ensures var base := [Signed(a), Signed(b), Signed(c)];
            && Fields(isSpace, base + [StageName(rank)]) == Some(VersionTuple(a, b, c, Stage(rank, 0)))
            && Fields(isSpace, base + [StageName(rank), word]) == Some(VersionTuple(a, b, c, Stage(rank, 0)))
  {
    StageNames(rank);
    BaseRead(isSpace, a, b, c, [StageName(rank)]);
    BaseRead(isSpace, a, b, c, [StageName(rank), word]);
  }

  /** A fourth part that is neither a stage nor a number counts as revision 0. */
  lemma UnreadableRevisionIsZero(isSpace: char -> bool, a: int, b: int, c: int, word: string)
    requires Sane(isSpace) && word != "alpha" && word != "beta" && word != "rc" && ParseInt(isSpace, word).None?
    ensures Fields(isSpace, [Signed(a), Signed(b), Signed(c)] + [word]) == Some(VersionTuple(a, b, c, Revision(0)))
  {
    BaseRead(isSpace, a, b, c, [word]);
  }

  // ---------------------------------------------------------------- versions with negative numbers

  /** Only the first dash is replaced: X-Y.Z.T gives any numbers for all but the first field. */
  function AnyText(a: nat, b: int, c: int, t: Tail): string
    requires Ranked(t) && !t.Stable?
  {
    Decimal(a) + "-" + Join([Signed(b), Signed(c)] + TailParts(t), ".")
  }

  /** Behind the first dash the parts are joined by dots. */
  lemma DashedParts(head: string, parts: seq<string>)
    requires '-' !in head && '.' !in head && |parts| > 0 && Without(parts, '.')
    ensures SplitOn(ReplaceDash(head + "-" + Join(parts, ".")), '.') == [head] + parts
  {
    DashReplaced(head, Join(parts, "."));
    SplitAppend(head, '.', Join(parts, "."));
    SplitPlain(head, '.');
    SplitJoin(parts, '.');
  }

  lemma TailPartsPlain(t: Tail)
    requires Ranked(t)
    ensures Without(TailParts(t), '.')
  {
    if !t.Stable? { SignedIsPlain(t.number); }
    if t.Stage? { StageNames(t.rank); }
  }

  lemma AnyParts(a: nat, b: int, c: int, t: Tail)
    requires Ranked(t) && !t.Stable?
    ensures SplitOn(ReplaceDash(AnyText(a, b, c, t)), '.') == [Signed(a), Signed(b), Signed(c)] + TailParts(t)
  {
    var parts := [Signed(b), Signed(c)] + TailParts(t);
    DecimalIsPlain(a, '-');
    DecimalIsPlain(a, '.');
    SignedIsPlain(b);
    SignedIsPlain(c);
    TailPartsPlain(t);
    DashedParts(Decimal(a), parts);
    assert [Signed(a)] + parts == [Signed(a), Signed(b), Signed(c)] + TailParts(t);
  }

  lemma {:induction false} JoinEnds(parts: seq<string>, sep: string)
    requires |parts| > 0 && parts[|parts| - 1] != ""
    ensures var s, last := Join(parts, sep), parts[|parts| - 1]; |s| > 0 && s[|s| - 1] == last[|last| - 1]
  {
    if |parts| > 1 { JoinEnds(parts[1..], sep); }
  }

  lemma AnyEnds(a: nat, b: int, c: int, t: Tail)
    requires Ranked(t) && !t.Stable?
    ensures var s := AnyText(a, b, c, t); |s| > 0 && IsDigit(s[0]) && IsDigit(s[|s| - 1])
  {
    var parts := [Signed(b), Signed(c)] + TailParts(t);
    assert parts[|parts| - 1] == Signed(t.number);
    JoinEnds(parts, ".");
    SignedEnds(t.number);
    assert AnyText(a, b, c, t)[0] == Decimal(a)[0];
  }

  lemma SignedEnds(n: int)
    ensures Signed(n) != "" && IsDigit(Signed(n)[|Signed(n)| - 1])
  {
    var s := Signed(n);
    if n < 0 { assert s[|s| - 1] == Decimal(-n)[|s| - 2]; }
  }

  lemma ParseReadsAny(isSpace: char -> bool, a: nat, b: int, c: int, t: Tail)
    requires Sane(isSpace) && Ranked(t) && !t.Stable?
    ensures ParseVer(isSpace, AnyText(a, b, c, t)) == Some(VersionTuple(a, b, c, t))
  {
    AnyEnds(a, b, c, t);
    TextEnds(isSpace, AnyText(a, b, c, t));
    AnyParts(a, b, c, t);
    FieldsRead(isSpace, a, b, c, t);
  }

  // ---------------------------------------------------------------- unreadable fields close cycles

  /** The shape of every parsed version. */
  ghost predicate Parsed(v: Version)
  {
    && (v[0].Some? ==> v[0].value >= 0)
    && v[3].Some? && v[4].Some? && v[5].Some?
    && ((1 <= v[3].value <= 3 && v[5].value == 0) || (v[3].value == 4 && v[4].value == 0))
  }

  lemma ParsedShape(isSpace: char -> bool, s: string)
    requires ParseVer(isSpace, s).Some?
    ensures Parsed(ParseVer(isSpace, s).value)
  {
    var t := Trim(isSpace, s);
    FirstPartHasNoDash(t);
    var p := SplitOn(ReplaceDash(t), '.');
    NoSignIsNatural(isSpace, p[0]);
    SuffixShape(isSpace, p[3..]);
  }

  lemma SuffixShape(isSpace: char -> bool, p: seq<string>)
    ensures var f := Suffix(isSpace, p);
            && f.0.Some? && f.1.Some? && f.2.Some?
            && ((1 <= f.0.value <= 3 && f.2.value == 0) || (f.0.value == 4 && f.1.value == 0))
  {
  }

  lemma NoSignIsNatural(isSpace: char -> bool, s: string)
    requires '-' !in s
    ensures ParseInt(isSpace, s).Some? ==> ParseInt(isSpace, s).value >= 0
  {
    var i := LStripAt(s, isSpace);
  }

  lemma FirstPartHasNoDash(s: string)
    ensures '-' !in SplitOn(ReplaceDash(s), '.')[0]
  {
    var i := IndexFrom(s, "-", 0);
    if i < 0 {
      NoDashAnywhere(s);
      FirstPartOf(s, '.');
    } else {
      NoDashBefore(s, i);
      SplitAppend(s[..i], '.', s[i + 1..]);
      FirstPartOf(s[..i], '.');
    }
  }

  lemma NoDashAnywhere(s: string)
    requires IndexFrom(s, "-", 0) < 0
    ensures '-' !in s
  {
    forall k | 0 <= k < |s| ensures s[k] != '-' {
      assert !MatchesAt(s, "-", k);
      assert s[k..k + 1] == [s[k]];
    }
  }

  lemma NoDashBefore(s: string, i: nat)
    requires i == IndexFrom(s, "-", 0)
    ensures i < |s| && '-' !in s[..i]
  {
    forall k | 0 <= k < i ensures s[..i][k] != '-' { NoDashAt(s, k); }
  }

  lemma NoDashAt(s: string, k: nat)
    requires k < |s| && !MatchesAt(s, "-", k)
    ensures s[k] != '-'
  {
    assert s[k..k + 1] == [s[k]];
  }

  lemma {:induction false} FirstPartOf(s: string, c: char)
    ensures SplitOn(s, c)[0] <= s
  {
    if |s| > 0 {
      FirstPartOf(s[1..], c);
      assert s == [s[0]] + s[1..];
    }
  }

  /** `a`, `c` and `b` run in a circle. */
  predicate Circle(a: Version, c: Version, b: Version)
  {
    NewerFrom(a, c, 0) && NewerFrom(c, b, 0) && NewerFrom(b, a, 0)
  }

  function OrZero(x: Option<int>): int { if x.Some? then x.value else 0 }

  /** `b` with field `k` set to `x`, other unreadable fields to zero, and its tail moved by `shift`. */
  function Filled(b: Version, k: nat, x: int, shift: int): (int, int, int, Tail)
    requires Parsed(b) && k < 3
  {
    var t := if b[3].value <= 3 then Stage(b[3].value, b[4].value + shift) else Revision(b[5].value + shift);
    (if k == 0 then x else OrZero(b[0]), if k == 1 then x else OrZero(b[1]), if k == 2 then x else OrZero(b[2]), t)
  }

  function FilledTuple(b: Version, k: nat, x: int, shift: int): Version
    requires Parsed(b) && k < 3
  {
    var f := Filled(b, k, x, shift);
    VersionTuple(f.0, f.1, f.2, f.3)
  }

  /** A field that is not a number lets smaller and larger neighbours pass in the wrong order. */
  lemma FilledCircle(b: Version, k: nat)
    requires Parsed(b) && k < 3 && b[k].None?
    ensures Circle(FilledTuple(b, k, 0, 1), FilledTuple(b, k, 1, -1), b)
  {
    var a, c := FilledTuple(b, k, 0, 1), FilledTuple(b, k, 1, -1);
    Overtakes(a, c, k);
    Slips(c, b);
    Slips(b, a);
  }

  lemma Overtakes(cur: Version, ver: Version, k: nat)
    requires k < FIELDS && Decides(ver, cur, k)
    ensures NewerFrom(cur, ver, 0)
  {
    OvertakesFrom(cur, ver, 0, k);
  }

  lemma {:induction false} OvertakesFrom(cur: Version, ver: Version, i: nat, k: nat)
    requires i <= k < FIELDS && Decides(ver, cur, k)
    ensures NewerFrom(cur, ver, i)
    decreases k - i
  {
    if i < k { OvertakesFrom(cur, ver, i + 1, k); }
  }

  /** Where the base does not decide, the tail does. */
  lemma Slips(cur: Version, ver: Version)
    requires forall i :: 0 <= i < 3 ==> !Greater(cur[i], ver[i]) && !Greater(ver[i], cur[i])
    requires !Greater(cur[3], ver[3]) && !Greater(ver[3], cur[3]) && !Greater(cur[4], ver[4])
    requires Greater(ver[4], cur[4]) || Greater(ver[5], cur[5])
    ensures NewerFrom(cur, ver, 0)
  {
    assert NewerFrom(cur, ver, 5) || Greater(ver[4], cur[4]);
    assert NewerFrom(cur, ver, 3) && NewerFrom(cur, ver, 2);
  }

  lemma NumericHasNoCircle(a: Version, c: Version, b: Version)
    requires Numeric(a) && Numeric(b) && Numeric(c)
    ensures !Circle(a, c, b)
  {
    NewerFromIsLex(a, c, 0);
    NewerFromIsLex(c, b, 0);
    NewerFromIsLex(b, a, 0);
    if Circle(a, c, b) {
      LexTransitive(b, c, a);
      LexAsymmetric(a, b);
    }
  }

  /** The version `b` lies on a circle with two readable ones. */
  ghost predicate OnCircle(isSpace: char -> bool, b: string)
  {
    exists a, c :: Readable(isSpace, a) && Readable(isSpace, c) &&
      IsNewer(isSpace, a, c) && IsNewer(isSpace, c, b) && IsNewer(isSpace, b, a)
  }

  lemma CircleOfTexts(
    isSpace: char -> bool, a: string, c: string, b: string, x: Version, z: Version, y: Version)
    requires ParseVer(isSpace, a) == Some(x) && ParseVer(isSpace, c) == Some(z) && ParseVer(isSpace, b) == Some(y)
    requires Numeric(x) && Numeric(z) && Circle(x, z, y)
    ensures OnCircle(isSpace, b)
  {
    NewerOfTuples(isSpace, a, c, x, z);
    NewerOfTuples(isSpace, c, b, z, y);
    NewerOfTuples(isSpace, b, a, y, x);
    assert Readable(isSpace, a) && Readable(isSpace, c);
  }

  lemma FilledNumeric(b: Version, k: nat, x: int, shift: int)
    requires Parsed(b) && k < 3
    ensures Numeric(FilledTuple(b, k, x, shift))
  {
  }

  /** Some text has this tuple. */
  ghost predicate Written(isSpace: char -> bool, v: Version)
  {
    exists s :: ParseVer(isSpace, s) == Some(v)
  }

  lemma FilledWritten(isSpace: char -> bool, b: Version, k: nat, x: nat, shift: int)
    requires Sane(isSpace) && Parsed(b) && k < 3
    ensures Written(isSpace, FilledTuple(b, k, x, shift))
  {
    var f := Filled(b, k, x, shift);
    ParseReadsAny(isSpace, f.0, f.1, f.2, f.3);
  }

  lemma WrittenCircle(isSpace: char -> bool, b: string, x: Version, z: Version, y: Version)
    requires Written(isSpace, x) && Written(isSpace, z) && ParseVer(isSpace, b) == Some(y)
    requires Numeric(x) && Numeric(z) && Circle(x, z, y)
    ensures OnCircle(isSpace, b)
  {
    var a :| ParseVer(isSpace, a) == Some(x);
    var c :| ParseVer(isSpace, c) == Some(z);
    CircleOfTexts(isSpace, a, c, b, x, z, y);
  }

  lemma UnreadableOnCircle(isSpace: char -> bool, b: string, y: Version, k: nat)
    requires Sane(isSpace) && ParseVer(isSpace, b) == Some(y) && Parsed(y) && k < 3 && y[k].None?
    ensures OnCircle(isSpace, b)
  {
    FilledCircle(y, k);
    FilledNumeric(y, k, 0, 1);
    FilledNumeric(y, k, 1, -1);
    FilledWritten(isSpace, y, k, 0, 1);
    FilledWritten(isSpace, y, k, 1, -1);
    WrittenCircle(isSpace, b, FilledTuple(y, k, 0, 1), FilledTuple(y, k, 1, -1), y);
  }

  lemma ReadableOffCircle(isSpace: char -> bool, b: string)
    requires Readable(isSpace, b)
    ensures !OnCircle(isSpace, b)
  {
    forall a, c | Readable(isSpace, a) && Readable(isSpace, c)
      ensures !(IsNewer(isSpace, a, c) && IsNewer(isSpace, c, b) && IsNewer(isSpace, b, a))
    {
      NumericHasNoCircle(Tuple(isSpace, a), Tuple(isSpace, c), Tuple(isSpace, b));
    }
  }

  /** A version lies on a circle exactly if it parses and one of its fields is not a number. */
  lemma OnCircleIff(isSpace: char -> bool, b: string)
    requires Sane(isSpace)
    ensures OnCircle(isSpace, b) <==> ParseVer(isSpace, b).Some? && !Readable(isSpace, b)
  {
    if Readable(isSpace, b) {
      ReadableOffCircle(isSpace, b);
    } else if ParseVer(isSpace, b).Some? {
      ParsedShape(isSpace, b);
      var y := ParseVer(isSpace, b).value;
      var k :| 0 <= k < FIELDS && y[k].None?;
      UnreadableOnCircle(isSpace, b, y, k);
    }
  }

  /** 1.5.0 is older than 2.1.0, that is older than x.3.0, and that is older than 1.5.0. */
  lemma UnreadableFieldsCycle(isSpace: char -> bool)
    requires Sane(isSpace) && !isSpace('x')
    ensures IsNewer(isSpace, "1.5.0", "2.1.0") && IsNewer(isSpace, "2.1.0", "x.3.0") &&
        IsNewer(isSpace, "x.3.0", "1.5.0")
  {
    var a: Version := [Some(1), Some(5), Some(0), Some(4), Some(0), Some(0)];
    var b: Version := [None, Some(3), Some(0), Some(4), Some(0), Some(0)];
    var c: Version := [Some(2), Some(1), Some(0), Some(4), Some(0), Some(0)];
    assert NewerFrom(a, c, 0);
    assert NewerFrom(c, b, 1) && NewerFrom(b, a, 1);
    ExampleTexts();
    ParseReadsBack(isSpace, 1, 5, 0, Stable);
    ParseReadsBack(isSpace, 2, 1, 0, Stable);
    ParseX(isSpace);
    NewerOfTuples(isSpace, "1.5.0", "2.1.0", a, c);
    NewerOfTuples(isSpace, "2.1.0", "x.3.0", c, b);
    NewerOfTuples(isSpace, "x.3.0", "1.5.0", b, a);
  }

  lemma ExampleTexts()
    ensures VersionText(1, 5, 0, Stable) == "1.5.0" && VersionText(2, 1, 0, Stable) == "2.1.0"
  {
    assert Decimal(0) == "0" && Decimal(1) == "1" && Decimal(2) == "2" && Decimal(5) == "5";
  }

  lemma ParseX(isSpace: char -> bool)
    requires Sane(isSpace) && !isSpace('x')
    ensures ParseVer(isSpace, "x.3.0") == Some([None, Some(3), Some(0), Some(4), Some(0), Some(0)])
  {
    SplitX();
    assert Trim(isSpace, "x.3.0") == "x.3.0";
    NoDash("x.3.0");
    FieldsX(isSpace, ["x", "3", "0"]);
  }

  lemma SplitX()
    ensures SplitOn("x.3.0", '.') == ["x", "3", "0"]
  {
    var p := ["x", "3", "0"];
    assert Join(p, ".") == "x.3.0" by { assert p[1..] == ["3", "0"] && ["3", "0"][1..] == ["0"]; }
    SplitJoin(p, '.');
  }

  lemma FieldsX(isSpace: char -> bool, p: seq<string>)
    requires Sane(isSpace) && !isSpace('x') && p == ["x", "3", "0"]
    ensures Fields(isSpace, p) == Some([None, Some(3), Some(0), Some(4), Some(0), Some(0)])
  {
    assert Signed(0) == "0" && Signed(3) == "3";
    ParseSigned(isSpace, 0);
    ParseSigned(isSpace, 3);
    assert ParseInt(isSpace, "x").None?;
    assert p[3..] == [];
  }

  /** Behind equal bases: pre-releases come first, by stage and number, then the stable one and its revisions. */
  function Rank(t: Tail): (int, int)
  {
    match t
    case Stable => (4, 0)
    case Stage(rank, n) => (rank, n)
    case Revision(n) => (4, n)
  }

  lemma NewerOfTuples(isSpace: char -> bool, s: string, t: string, v: Version, w: Version)
    requires ParseVer(isSpace, s) == Some(v) && ParseVer(isSpace, t) == Some(w)
    ensures IsNewer(isSpace, s, t) <==> NewerFrom(v, w, 0)
  {
  }

  lemma TuplesOrder(a: nat, b: nat, c: nat, t: Tail, u: Tail)
    requires GoodTail(t) && GoodTail(u)
    ensures NewerFrom(VersionTuple(a, b, c, t), VersionTuple(a, b, c, u), 0) <==>
            Rank(u).0 > Rank(t).0 || (Rank(u).0 == Rank(t).0 && Rank(u).1 > Rank(t).1)
  {
    NewerUnfolds(VersionTuple(a, b, c, t), VersionTuple(a, b, c, u));
  }

  /** So X.Y.Z-stage.N < X.Y.Z < X.Y.Z.W for W > 0. */
  lemma TailsOrder(isSpace: char -> bool, a: nat, b: nat, c: nat, t: Tail, u: Tail)
    requires Sane(isSpace) && GoodTail(t) && GoodTail(u)
    ensures IsNewer(isSpace, VersionText(a, b, c, t), VersionText(a, b, c, u)) <==>
            Rank(u).0 > Rank(t).0 || (Rank(u).0 == Rank(t).0 && Rank(u).1 > Rank(t).1)
  {
    var v, w := VersionTuple(a, b, c, t), VersionTuple(a, b, c, u);
    ParseReadsBack(isSpace, a, b, c, t);
    ParseReadsBack(isSpace, a, b, c, u);
    NewerOfTuples(isSpace, VersionText(a, b, c, t), VersionText(a, b, c, u), v, w);
    TuplesOrder(a, b, c, t, u);
  }

  lemma NewerUnfolds(cur: Version, ver: Version)
    requires Numeric(cur) && Numeric(ver) && forall i :: 0 <= i < 3 ==> cur[i] == ver[i]
    ensures NewerFrom(cur, ver, 0) <==>
            || Greater(ver[3], cur[3])
            || (ver[3] == cur[3] && (Greater(ver[4], cur[4]) || (ver[4] == cur[4] && Greater(ver[5], cur[5]))))
  {
    assert NewerFrom(cur, ver, 0) == NewerFrom(cur, ver, 1) == NewerFrom(cur, ver, 2) == NewerFrom(cur, ver, 3);
    assert NewerFrom(cur, ver, 5) == Greater(ver[5], cur[5]);
  }

  // ---------------------------------------------------------------- the latest version

  /** The comparator handed to the sort, for any relation in the role of isNewerVersion. */
  function Compare(newer: (string, string) -> bool, a: string, b: string): int
  {
    if a == b then 0 else if newer(a, b) then -1 else 1
  }

  function NewerThan(isSpace: char -> bool): (string, string) -> bool
  {
    (cur: string, ver: string) => IsNewer(isSpace, cur, ver)
  }

  /** Some field is a number in both and differs. */
  predicate Distinct(x: Version, y: Version)
  {
    exists k :: 0 <= k < FIELDS && (Greater(x[k], y[k]) || Greater(y[k], x[k]))
  }

  lemma {:induction false} ExactlyOneNewer(x: Version, y: Version, i: nat)
    requires i <= FIELDS
    ensures !(NewerFrom(x, y, i) && NewerFrom(y, x, i))
    ensures NewerFrom(x, y, i) || NewerFrom(y, x, i) <==>
            exists k :: i <= k < FIELDS && (Greater(x[k], y[k]) || Greater(y[k], x[k]))
    decreases FIELDS - i
  {
    if i < FIELDS { ExactlyOneNewer(x, y, i + 1); }
  }

  /** On two different names the comparator agrees with itself exactly if both parse and a common number differs. */
  lemma ComparatorConsistentIff(isSpace: char -> bool, a: string, b: string)
    requires a != b
    ensures Compare(NewerThan(isSpace), a, b) == -Compare(NewerThan(isSpace), b, a) <==>
            && ParseVer(isSpace, a).Some? && ParseVer(isSpace, b).Some?
            && Distinct(ParseVer(isSpace, a).value, ParseVer(isSpace, b).value)
  {
    if ParseVer(isSpace, a).Some? && ParseVer(isSpace, b).Some? {
      ExactlyOneNewer(ParseVer(isSpace, a).value, ParseVer(isSpace, b).value, 0);
    }
  }

  /** On readable names that means: exactly if the tuples differ. */
  lemma ReadableComparatorIff(isSpace: char -> bool, a: string, b: string)
    requires Readable(isSpace, a) && Readable(isSpace, b) && a != b
    ensures Compare(NewerThan(isSpace), a, b) == -Compare(NewerThan(isSpace), b, a) <==>
            Tuple(isSpace, a) != Tuple(isSpace, b)
  {
    NewerIsStrictWeakOrder(isSpace, a, b, a);
  }

  /** A strict total order on the names in a list. */
  ghost predicate TotalOrder(newer: (string, string) -> bool, names: set<string>)
  {
    && (forall a, b :: a in names && b in names && newer(a, b) ==> !newer(b, a))
    && (forall a, b :: a in names && b in names && a != b ==> newer(a, b) || newer(b, a))
    && (forall a, b, c :: a in names && b in names && c in names && newer(a, b) && newer(b, c) ==> newer(a, c))
  }

  function Names(versions: seq<string>): set<string>
  {
    set x | x in versions
  }

  /** All names are readable, and distinct names have distinct tuples. */
  ghost predicate Distinguishable(isSpace: char -> bool, versions: seq<string>)
  {
    && (forall a :: a in versions ==> Readable(isSpace, a))
    && (forall a, b :: a in versions && b in versions && a != b ==> Tuple(isSpace, a) != Tuple(isSpace, b))
  }

  /** On such lists the comparator is a consistent total order. */
  lemma DistinguishableIsTotal(isSpace: char -> bool, versions: seq<string>)
    requires Distinguishable(isSpace, versions)
    ensures TotalOrder(NewerThan(isSpace), Names(versions))
  {
    forall a, b, c | a in versions && b in versions && c in versions
      ensures IsNewer(isSpace, a, b) ==> !IsNewer(isSpace, b, a)
      ensures a != b ==> IsNewer(isSpace, a, b) || IsNewer(isSpace, b, a)
      ensures IsNewer(isSpace, a, b) && IsNewer(isSpace, b, c) ==> IsNewer(isSpace, a, c)
    {
      NewerIsStrictWeakOrder(isSpace, a, b, c);
    }
  }

  /** No two neighbours compare the wrong way round. */
  ghost predicate SortedBy(newer: (string, string) -> bool, s: seq<string>)
  {
    forall i, j :: 0 <= i && j == i + 1 && j < |s| ==> Compare(newer, s[i], s[j]) <= 0
  }

  lemma {:induction false} SortedIsAscending(newer: (string, string) -> bool, s: seq<string>, i: nat, j: nat)
    requires TotalOrder(newer, Names(s)) && SortedBy(newer, s) && i <= j < |s|
    ensures s[i] == s[j] || newer(s[i], s[j])
    decreases j - i
  {
    if i < j {
      SortedIsAscending(newer, s, i, j - 1);
      assert s[i] in Names(s) && s[j - 1] in Names(s) && s[j] in Names(s);
      assert Compare(newer, s[j - 1], s[j]) <= 0;
    }
  }

  lemma SameNames(s: seq<string>, t: seq<string>)
    requires multiset(s) == multiset(t)
    ensures Names(s) == Names(t) && |s| == |t|
  {
    assert forall x :: x in s <==> x in multiset(s);
    assert forall x :: x in t <==> x in multiset(t);
    assert |multiset(s)| == |s| && |multiset(t)| == |t|;
  }

  /** Whatever algorithm sorts: the last element of the sorted list is one that no other is newer than. */
  lemma LastIsNewest(newer: (string, string) -> bool, versions: seq<string>, s: seq<string>, x: string)
    requires TotalOrder(newer, Names(versions)) && multiset(s) == multiset(versions) && SortedBy(newer, s)
    requires x in versions
    ensures |s| > 0 && s[|s| - 1] in versions && !newer(s[|s| - 1], x)
    ensures x != s[|s| - 1] ==> newer(x, s[|s| - 1])
  {
    SameNames(s, versions);
    assert x in Names(s);
    var i :| 0 <= i < |s| && s[i] == x;
    SortedIsAscending(newer, s, i, |s| - 1);
    assert s[|s| - 1] in Names(s);
  }

  /** Inserting before the first element that does not compare lower. */
  method Insert(newer: (string, string) -> bool, s: seq<string>, x: string) returns (r: seq<string>)
    ensures multiset(r) == multiset(s) + multiset{x}
    ensures SortedBy(newer, s) && TotalOrder(newer, Names(s) + {x}) ==> SortedBy(newer, r)
  {
    var i := 0;
    while i < |s| && Compare(newer, s[i], x) < 0
      invariant 0 <= i <= |s|
      invariant i > 0 ==> Compare(newer, s[i - 1], x) <= 0
    {
      i := i + 1;
    }
    r := s[..i] + [x] + s[i..];
    assert s == s[..i] + s[i..];
    if SortedBy(newer, s) && TotalOrder(newer, Names(s) + {x}) {
      InsertKeepsSorted(newer, s, x, i);
    }
  }

  lemma InsertKeepsSorted(newer: (string, string) -> bool, s: seq<string>, x: string, i: nat)
    requires SortedBy(newer, s) && TotalOrder(newer, Names(s) + {x}) && i <= |s|
    requires i > 0 ==> Compare(newer, s[i - 1], x) <= 0
    requires i < |s| ==> Compare(newer, s[i], x) >= 0
    ensures SortedBy(newer, s[..i] + [x] + s[i..])
  {
    if i < |s| { Flipped(newer, s, x, i); }
    Spliced(newer, s, x, i);
  }

  lemma Flipped(newer: (string, string) -> bool, s: seq<string>, x: string, i: nat)
    requires TotalOrder(newer, Names(s) + {x}) && i < |s| && Compare(newer, s[i], x) >= 0
    ensures Compare(newer, x, s[i]) <= 0
  {
    assert s[i] in Names(s) + {x} && x in Names(s) + {x};
  }

  lemma Spliced(newer: (string, string) -> bool, s: seq<string>, x: string, i: nat)
    requires SortedBy(newer, s) && i <= |s|
    requires i > 0 ==> Compare(newer, s[i - 1], x) <= 0
    requires i < |s| ==> Compare(newer, x, s[i]) <= 0
    ensures SortedBy(newer, s[..i] + [x] + s[i..])
  {
    var r := s[..i] + [x] + s[i..];
    forall k, l | 0 <= k && l == k + 1 && l < |r| ensures Compare(newer, r[k], r[l]) <= 0 {
      if l < i { assert r[k] == s[k] && r[l] == s[l]; }
      else if k > i { assert r[k] == s[k - 1] && r[l] == s[l - 1]; }
    }
  }

  method SortVersions(newer: (string, string) -> bool, versions: seq<string>) returns (s: seq<string>)
    ensures multiset(s) == multiset(versions)
    ensures TotalOrder(newer, Names(versions)) ==> SortedBy(newer, s)
  {
    s := [];
    var i := 0;
    while i < |versions|
      invariant 0 <= i <= |versions|
      invariant multiset(s) == multiset(versions[..i])
      invariant TotalOrder(newer, Names(versions)) ==> SortedBy(newer, s)
    {
      assert versions[..i + 1] == versions[..i] + [versions[i]];
      SameNames(s, versions[..i]);
      assert Names(s) + {versions[i]} <= Names(versions);
      s := Insert(newer, s, versions[i]);
      i := i + 1;
    }
    assert versions[..i] == versions;
  }

  /** The latest of the listed versions, or "0.0.0" when there is none. */
  method LatestVersion(isSpace: char -> bool, versions: seq<string>) returns (latest: string)
    ensures versions == [] ==> latest == "0.0.0"
    ensures versions != [] ==> latest in versions
    ensures versions != [] && Distinguishable(isSpace, versions) ==>
      forall x :: x in versions ==> !IsNewer(isSpace, latest, x)
  {
    if |versions| == 0 {
      return "0.0.0";
    }
    var s := SortVersions(NewerThan(isSpace), versions);
    SameNames(s, versions);
    latest := s[|s| - 1];
    assert latest in Names(s);
    if Distinguishable(isSpace, versions) {
      DistinguishableIsTotal(isSpace, versions);
      forall x | x in versions ensures !IsNewer(isSpace, latest, x) {
        LastIsNewest(NewerThan(isSpace), versions, s, x);
      }
    }
  }
}
