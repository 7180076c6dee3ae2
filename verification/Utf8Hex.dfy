/**
  The updater's UTF-8 and hexadecimal encoders over JavaScript strings, that is over
  arbitrary sequences of UTF-16 code units.
 */
module Utf8Hex {

  import opened Options

  type CodeUnit = bv16
  type CodePoint = bv24

  // ---------------------------------------------------------------- UTF-16

  predicate High(u: CodeUnit) { 0xD800 <= u <= 0xDBFF }

  predicate Low(u: CodeUnit) { 0xDC00 <= u <= 0xDFFF }

  /** The string starts with a surrogate pair. */
  predicate PairFirst(s: seq<CodeUnit>)
  {
    |s| >= 2 && High(s[0]) && Low(s[1])
  }

  function Combine(high: CodeUnit, low: CodeUnit): (p: CodePoint)
    requires High(high) && Low(low)
    ensures 0x10000 <= p <= 0x10FFFF
  {
    ((high as bv24 - 0xD800) << 10) + (low as bv24 - 0xDC00) + 0x10000
  }

  /** The code point at the front of a string; a lone surrogate stands for itself. */
  function FirstPoint(s: seq<CodeUnit>): (p: CodePoint)
    requires |s| > 0
    ensures p <= 0x10FFFF && (p > 0xFFFF <==> PairFirst(s))
  {
    if PairFirst(s) then Combine(s[0], s[1]) else s[0] as bv24
  }

  function CodePointAt(s: seq<CodeUnit>, i: nat): (p: CodePoint)
    requires i < |s|
    ensures p <= 0x10FFFF
  {
    FirstPoint(s[i..])
  }

  /** A string without lone surrogates. */
  predicate WellFormed(s: seq<CodeUnit>)
    decreases |s|
  {
    |s| == 0 ||
    (if PairFirst(s) then WellFormed(s[2..]) else !High(s[0]) && !Low(s[0]) && WellFormed(s[1..]))
  }

  function ToUnits(p: CodePoint): seq<CodeUnit>
    requires p <= 0x10FFFF
  {
    if p <= 0xFFFF then [p as bv16]
    else [(0xD800 + ((p - 0x10000) >> 10)) as bv16, (0xDC00 + ((p - 0x10000) & 0x3FF)) as bv16]
  }

  // ---------------------------------------------------------------- the encoder

  function Lead2(p: CodePoint): bv8
    requires p <= 0x7FF
  {
    (0xC0 | (p >> 6)) as bv8
  }

  function Lead3(p: CodePoint): bv8
    requires p <= 0xFFFF
  {
    (0xE0 | (p >> 12)) as bv8
  }

  function Lead4(p: CodePoint): bv8
    requires p <= 0x10FFFF
  {
    (0xF0 | (p >> 18)) as bv8
  }

  /** The continuation bytes, from the last one backwards. */
  function Tail0(p: CodePoint): bv8 { (0x80 | (p & 0x3F)) as bv8 }

  function Tail6(p: CodePoint): bv8 { (0x80 | ((p >> 6) & 0x3F)) as bv8 }

  function Tail12(p: CodePoint): bv8 { (0x80 | ((p >> 12) & 0x3F)) as bv8 }

  function EncodePoint(p: CodePoint): seq<bv8>
    requires p <= 0x10FFFF
  {
    if p <= 0x7F then [p as bv8]
    else if p <= 0x7FF then [Lead2(p), Tail0(p)]
    else if p <= 0xFFFF then [Lead3(p), Tail6(p), Tail0(p)]
    else [Lead4(p), Tail12(p), Tail6(p), Tail0(p)]
  }

  function Width(s: seq<CodeUnit>): nat
    requires |s| > 0
  {
    if PairFirst(s) then 2 else 1
  }

  /** The encoding of a whole string, one code point after the other. */
  function Encode(s: seq<CodeUnit>): seq<bv8>
    decreases |s|
  {
    if |s| == 0 then [] else EncodePoint(FirstPoint(s)) + Encode(s[Width(s)..])
  }

  /** The byte groups pushed for one code point. */
  method PushPoint(bytes: seq<bv8>, codePoint: CodePoint) returns (r: seq<bv8>)
    requires codePoint <= 0x10FFFF
    ensures r == bytes + EncodePoint(codePoint)
  {
    if codePoint <= 0x7F {
      r := bytes + [codePoint as bv8];
    } else if codePoint <= 0x7FF {
      r := bytes + [Lead2(codePoint), Tail0(codePoint)];
    } else if codePoint <= 0xFFFF {
      r := bytes + [Lead3(codePoint), Tail6(codePoint), Tail0(codePoint)];
    } else {
      r := bytes + [Lead4(codePoint), Tail12(codePoint), Tail6(codePoint), Tail0(codePoint)];
    }
  }

  method Utf8Encode(str: seq<CodeUnit>) returns (bytes: seq<bv8>)
    ensures bytes == Encode(str)
  {
    bytes := [];
    var i := 0;
    while i < |str|
      invariant 0 <= i <= |str|
      invariant Encode(str) == bytes + Encode(str[i..])
    {
      var codePoint := CodePointAt(str, i);
      EncodeStep(str, i, bytes, EncodePoint(codePoint));
      i := i + if codePoint > 0xFFFF then 2 else 1;
      bytes := PushPoint(bytes, codePoint);
    }
    assert str[i..] == [];
  }

  lemma AtFront(str: seq<CodeUnit>, i: nat)
    requires i < |str|
    ensures Width(str[i..]) == (if CodePointAt(str, i) > 0xFFFF then 2 else 1)
    ensures i + Width(str[i..]) <= |str|
    ensures str[i..][Width(str[i..])..] == str[i + Width(str[i..])..]
  {
  }

  lemma EncodeUnfolds(s: seq<CodeUnit>, bytes: seq<bv8>, group: seq<bv8>, tail: seq<bv8>)
    requires |s| > 0 && group == EncodePoint(FirstPoint(s)) && tail == Encode(s[Width(s)..])
    ensures bytes + Encode(s) == (bytes + group) + tail
  {
    assert Encode(s) == group + tail;
    Associate(bytes, group, tail);
  }

  lemma EncodeStep(str: seq<CodeUnit>, i: nat, bytes: seq<bv8>, group: seq<bv8>)
    requires i < |str| && group == EncodePoint(CodePointAt(str, i))
    ensures var w := if CodePointAt(str, i) > 0xFFFF then 2 else 1;
            i + w <= |str| && bytes + Encode(str[i..]) == (bytes + group) + Encode(str[i + w..])
  {
    AtFront(str, i);
    EncodeUnfolds(str[i..], bytes, group, Encode(str[i + Width(str[i..])..]));
  }

  lemma Associate(a: seq<bv8>, b: seq<bv8>, c: seq<bv8>)
    ensures a + (b + c) == (a + b) + c
  {
  }

  // ---------------------------------------------------------------- a decoder

  /** How many bytes the lead byte announces; 0 for a byte that cannot lead. */
  function Announced(lead: bv8): nat
  {
    if lead < 0x80 then 1
    else if lead < 0xC0 then 0
    else if lead < 0xE0 then 2
    else if lead < 0xF0 then 3
    else if lead < 0xF5 then 4
    else 0
  }

  function Value2(a: bv8, b: bv8): CodePoint
  {
    ((a as bv24 & 0x1F) << 6) | (b as bv24 & 0x3F)
  }

  function Value3(a: bv8, b: bv8, c: bv8): CodePoint
  {
    ((a as bv24 & 0x0F) << 12) | ((b as bv24 & 0x3F) << 6) | (c as bv24 & 0x3F)
  }

  function Value4(a: bv8, b: bv8, c: bv8, d: bv8): CodePoint
  {
    ((a as bv24 & 0x07) << 18) | ((b as bv24 & 0x3F) << 12) | ((c as bv24 & 0x3F) << 6) | (d as bv24 & 0x3F)
  }

  function DecodePoint(b: seq<bv8>): CodePoint
    requires 1 <= |b| <= 4
  {
    if |b| == 1 then b[0] as bv24
    else if |b| == 2 then Value2(b[0], b[1])
    else if |b| == 3 then Value3(b[0], b[1], b[2])
    else Value4(b[0], b[1], b[2], b[3])
  }

  /** Back to code units; surrogates may come out of three-byte groups. */
  function Decode(b: seq<bv8>): Option<seq<CodeUnit>>
    decreases |b|
  {
    if |b| == 0 then Some([])
    else
      var n := Announced(b[0]);
      if n == 0 || n > |b| || DecodePoint(b[..n]) > 0x10FFFF then None
      else
        var rest := Decode(b[n..]);
        if rest.Some? then Some(ToUnits(DecodePoint(b[..n])) + rest.value) else None
  }

  lemma EncodeTwo(p: CodePoint)
    requires 0x7F < p <= 0x7FF
    ensures 0xC0 <= Lead2(p) < 0xE0 && Value2(Lead2(p), Tail0(p)) == p
  {
  }

  lemma EncodeThree(p: CodePoint)
    requires 0x7FF < p <= 0xFFFF
    ensures 0xE0 <= Lead3(p) < 0xF0 && Value3(Lead3(p), Tail6(p), Tail0(p)) == p
  {
  }

  lemma TailBits(p: CodePoint)
    ensures Tail0(p) as bv24 & 0x3F == p & 0x3F
    ensures Tail6(p) as bv24 & 0x3F == (p >> 6) & 0x3F
    ensures Tail12(p) as bv24 & 0x3F == (p >> 12) & 0x3F
  {
  }

  lemma LeadBits(p: CodePoint)
    requires 0xFFFF < p <= 0x10FFFF
    ensures 0xF0 <= Lead4(p) < 0xF5 && Lead4(p) as bv24 & 0x07 == p >> 18
  {
  }

  lemma Regroup(p: CodePoint)
    requires p <= 0x1FFFFF
    ensures ((p >> 18) << 18) | (((p >> 12) & 0x3F) << 12) | (((p >> 6) & 0x3F) << 6) | (p & 0x3F) == p
  {
  }

  lemma EncodeFour(p: CodePoint)
    requires 0xFFFF < p <= 0x10FFFF
    ensures 0xF0 <= Lead4(p) < 0xF5 && Value4(Lead4(p), Tail12(p), Tail6(p), Tail0(p)) == p
  {
    TailBits(p);
    LeadBits(p);
    Regroup(p);
  }

  lemma DecodeEncodePoint(p: CodePoint)
    requires p <= 0x10FFFF
    ensures Announced(EncodePoint(p)[0]) == |EncodePoint(p)| && DecodePoint(EncodePoint(p)) == p
  {
    if p <= 0x7F { }
    else if p <= 0x7FF { EncodeTwo(p); }
    else if p <= 0xFFFF { EncodeThree(p); }
    else { EncodeFour(p); }
  }

  lemma SplitTwenty(h: bv24, l: bv24)
    requires h < 0x400 && l < 0x400
    ensures ((h << 10) + l) >> 10 == h && ((h << 10) + l) & 0x3FF == l
  {
  }

  lemma CombineOffset(high: CodeUnit, low: CodeUnit)
    requires High(high) && Low(low)
    ensures var h, l := high as bv24 - 0xD800, low as bv24 - 0xDC00;
            h < 0x400 && l < 0x400 && Combine(high, low) - 0x10000 == (h << 10) + l
  {
  }

  lemma UnitOffset(high: CodeUnit, low: CodeUnit)
    requires High(high) && Low(low)
    ensures (0xD800 + (high as bv24 - 0xD800)) == high as bv24 && (0xDC00 + (low as bv24 - 0xDC00)) == low as bv24
  {
  }

  lemma ToUnitsCombine(high: CodeUnit, low: CodeUnit)
    requires High(high) && Low(low)
    ensures ToUnits(Combine(high, low)) == [high, low]
  {
    CombineOffset(high, low);
    SplitTwenty(high as bv24 - 0xD800, low as bv24 - 0xDC00);
    UnitOffset(high, low);
    UnitWidens(high);
    UnitWidens(low);
  }

  /** The code units at the front of a string come back from their code point. */
  lemma ToUnitsAt(s: seq<CodeUnit>)
    requires |s| > 0
    ensures ToUnits(FirstPoint(s)) == s[..Width(s)]
  {
    if PairFirst(s) {
      ToUnitsCombine(s[0], s[1]);
    } else {
      UnitWidens(s[0]);
    }
  }

  lemma UnitWidens(u: CodeUnit)
    ensures u as bv24 <= 0xFFFF && (u as bv24) as bv16 == u
  {
  }

  lemma DecodeBehind(head: seq<bv8>, tail: seq<bv8>)
    requires 1 <= |head| <= 4 && |head| == Announced(head[0]) && DecodePoint(head) <= 0x10FFFF
    requires Decode(tail).Some?
    ensures Decode(head + tail) == Some(ToUnits(DecodePoint(head)) + Decode(tail).value)
  {
    var b := head + tail;
    assert b[..|head|] == head && b[|head|..] == tail && b[0] == head[0];
  }

  /** Every JavaScript string, lone surrogates included, is recovered from its bytes. */
  lemma {:induction false} RoundTrip(s: seq<CodeUnit>)
    ensures Decode(Encode(s)) == Some(s)
    decreases |s|
  {
    if |s| > 0 {
      var p, rest := FirstPoint(s), s[Width(s)..];
      RoundTrip(rest);
      DecodeEncodePoint(p);
      DecodeBehind(EncodePoint(p), Encode(rest));
      ToUnitsAt(s);
      Rejoin(s, Width(s));
    }
  }

  lemma Rejoin(s: seq<CodeUnit>, n: nat)
    requires n <= |s|
    ensures s[..n] + s[n..] == s
  {
  }

  // ---------------------------------------------------------------- validity

  predicate Tail(b: bv8) { 0x80 <= b <= 0xBF }

  /** One character as the grammar in section 4 of RFC 3629 allows it. */
  predicate ValidChar(b: seq<bv8>)
  {
    || (|b| == 1 && b[0] <= 0x7F)
    || (|b| == 2 && 0xC2 <= b[0] <= 0xDF && Tail(b[1]))
    || (|b| == 3 && Tail(b[2]) &&
        (|| (b[0] == 0xE0 && 0xA0 <= b[1] <= 0xBF)
         || (0xE1 <= b[0] <= 0xEC && Tail(b[1]))
         || (b[0] == 0xED && 0x80 <= b[1] <= 0x9F)
         || (0xEE <= b[0] <= 0xEF && Tail(b[1]))))
    || (|b| == 4 && Tail(b[2]) && Tail(b[3]) &&
        (|| (b[0] == 0xF0 && 0x90 <= b[1] <= 0xBF)
         || (0xF1 <= b[0] <= 0xF3 && Tail(b[1]))
         || (b[0] == 0xF4 && 0x80 <= b[1] <= 0x8F)))
  }

  /** A byte sequence that is a concatenation of valid characters. */
  ghost predicate ValidUtf8(b: seq<bv8>)
    decreases |b|
  {
    |b| == 0 || exists n :: 1 <= n <= |b| && ValidChar(b[..n]) && ValidUtf8(b[n..])
  }

  lemma ValidCharAnnounces(b: seq<bv8>)
    requires ValidChar(b)
    ensures |b| == Announced(b[0])
  {
  }

  lemma EncodePointValid(p: CodePoint)
    requires p <= 0x10FFFF
    ensures ValidChar(EncodePoint(p)) <==> !(0xD800 <= p <= 0xDFFF)
  {
    if p <= 0x7F {
    } else if p <= 0x7FF {
      TwoValid(p);
    } else if p <= 0xFFFF {
      ThreeValid(p);
    } else {
      FourValid(p);
    }
  }

  lemma TwoValid(p: CodePoint)
    requires 0x7F < p <= 0x7FF
    ensures ValidChar(EncodePoint(p))
  {
  }

  lemma ThreeValid(p: CodePoint)
    requires 0x7FF < p <= 0xFFFF
    ensures ValidChar(EncodePoint(p)) <==> !(0xD800 <= p <= 0xDFFF)
  {
  }

  lemma FourValid(p: CodePoint)
    requires 0xFFFF < p <= 0x10FFFF
    ensures ValidChar(EncodePoint(p))
  {
  }

  lemma SurrogateAt(s: seq<CodeUnit>)
    requires |s| > 0
    ensures 0xD800 <= FirstPoint(s) <= 0xDFFF <==> !PairFirst(s) && (High(s[0]) || Low(s[0]))
  {
  }

  /** The bytes are UTF-8 exactly when the string has no lone surrogate. */
  lemma {:induction false} ValidIff(s: seq<CodeUnit>)
    ensures ValidUtf8(Encode(s)) <==> WellFormed(s)
    decreases |s|
  {
    if |s| > 0 {
      var p, rest := FirstPoint(s), s[Width(s)..];
      ValidIff(rest);
      EncodePointValid(p);
      SurrogateAt(s);
      DecodeEncodePoint(p);
      ValidBehind(EncodePoint(p), Encode(rest));
    }
  }

  lemma ValidBehind(head: seq<bv8>, tail: seq<bv8>)
    requires |head| > 0 && |head| == Announced(head[0])
    ensures ValidUtf8(head + tail) <==> ValidChar(head) && ValidUtf8(tail)
  {
    var b := head + tail;
    assert b[..|head|] == head && b[|head|..] == tail && b[0] == head[0];
    if n :| 1 <= n <= |b| && ValidChar(b[..n]) && ValidUtf8(b[n..]) {
      ValidCharAnnounces(b[..n]);
      assert b[..n][0] == b[0];
    }
  }

  // ---------------------------------------------------------------- hexadecimal

  const DIGITS := "0123456789abcdef"

  /** Number.prototype.toString(16) */
  function ToString16(n: nat): string
  {
    if n < 16 then [DIGITS[n]] else ToString16(n / 16) + [DIGITS[n % 16]]
  }

  function Repeat(p: string, k: nat): string
  {
    if k == 0 then "" else Repeat(p, k - 1) + p
  }

  function PadUnit(padString: string): string
  {
    if padString == "" then " " else padString
  }

  /** `r` is `str` behind the first `n` characters of `p` written over and over. */
  ghost predicate Padded(r: string, n: nat, p: string, str: string)
  {
    exists k :: |Repeat(p, k)| >= n && r == Repeat(p, k)[..n] + str
  }

  /** An empty pad string counts as a space. */
  method CustomPadStart(str: string, targetLength: int, padString: string) returns (r: string)
    ensures |str| >= targetLength ==> r == str
    ensures |str| < targetLength ==> Padded(r, targetLength - |str|, PadUnit(padString), str)
  {
    if |str| >= targetLength {
      return str;
    }
    var p := if padString == "" then " " else padString;
    var padLength := targetLength - |str|;
    var pad := "";
    ghost var k := 0;
    while |pad| < padLength
      invariant pad == Repeat(p, k)
    {
      pad := pad + p;
      k := k + 1;
    }
    return pad[..padLength] + str;
  }

  function HexByte(b: bv8): (s: string)
    ensures |s| == 2
  {
    [DIGITS[b as int / 16], DIGITS[b as int % 16]]
  }

  function Hex(bytes: seq<bv8>): string
  {
    if |bytes| == 0 then "" else Hex(bytes[..|bytes| - 1]) + HexByte(bytes[|bytes| - 1])
  }

  method Utf8EncodeHex(str: seq<CodeUnit>) returns (hex: string)
    ensures hex == Hex(Encode(str))
  {
    var bytes := Utf8Encode(str);
    hex := "";
    var i := 0;
    while i < |bytes|
      invariant 0 <= i <= |bytes|
      invariant hex == Hex(bytes[..i])
    {
      var digits := CustomPadStart(ToString16(bytes[i] as int), 2, "0");
      PaddedIsHexByte(bytes[i], digits);
      hex := hex + digits;
      assert bytes[..i + 1][..i] == bytes[..i];
      i := i + 1;
    }
    assert bytes[..i] == bytes;
  }

  /** A missing value counts as the empty string. */
  method StringToHex(str: Option<seq<CodeUnit>>) returns (hex: string)
    ensures hex == Hex(Encode(if str.None? then [] else str.value))
  {
    hex := Utf8EncodeHex(if str.None? then [] else str.value);
  }

  lemma PaddedIsHexByte(b: bv8, digits: string)
    requires var t := ToString16(b as int);
             && (|t| >= 2 ==> digits == t)
             && (|t| < 2 ==> Padded(digits, 2 - |t|, "0", t))
    ensures digits == HexByte(b)
  {
    var n := b as int;
    if n < 16 {
      var k :| |Repeat("0", k)| >= 1 && digits == Repeat("0", k)[..1] + [DIGITS[n]];
      ZerosOnly(k);
      assert Repeat("0", k)[0] == '0';
    } else {
      assert ToString16(n / 16) == [DIGITS[n / 16]];
    }
  }

  lemma {:induction false} ZerosOnly(k: nat)
    ensures forall i :: 0 <= i < |Repeat("0", k)| ==> Repeat("0", k)[i] == '0'
  {
    if k > 0 { ZerosOnly(k - 1); }
  }

  function DigitValue(c: char): (v: int)
    ensures -1 <= v < 16
  {
    if '0' <= c <= '9' then c as int - '0' as int
    else if 'a' <= c <= 'f' then c as int - 'a' as int + 10
    else -1
  }

  function UnhexPair(front: Option<seq<int>>, c: char, d: char): Option<seq<int>>
  {
    if front.None? || DigitValue(c) < 0 || DigitValue(d) < 0 then None
    else Some(front.value + [16 * DigitValue(c) + DigitValue(d)])
  }

  /** Byte values from pairs of digits; None for anything else. */
  function Unhex(s: string): Option<seq<int>>
  {
    if |s| == 0 then Some([])
    else if |s| == 1 then None
    else UnhexPair(Unhex(s[..|s| - 2]), s[|s| - 2], s[|s| - 1])
  }

  function Values(bytes: seq<bv8>): seq<int>
  {
    if |bytes| == 0 then [] else Values(bytes[..|bytes| - 1]) + [bytes[|bytes| - 1] as int]
  }

  lemma DigitsDecode(n: nat)
    requires n < 16
    ensures DigitValue(DIGITS[n]) == n
  {
  }

  lemma UnhexDigits(s: string, c: char, d: char)
    ensures Unhex(s + [c, d]) == UnhexPair(Unhex(s), c, d)
  {
    var t := s + [c, d];
    assert |t| == |s| + 2 && t[..|s|] == s && t[|s|] == c && t[|s| + 1] == d;
  }

  lemma UnhexStep(s: string, n: nat, c: char, d: char)
    requires Unhex(s).Some? && n < 256 && DigitValue(c) == n / 16 && DigitValue(d) == n % 16
    ensures Unhex(s + [c, d]) == Some(Unhex(s).value + [n])
  {
    UnhexDigits(s, c, d);
    assert 16 * (n / 16) + n % 16 == n;
  }

  lemma {:induction false} UnhexHex(bytes: seq<bv8>)
    ensures |Hex(bytes)| == 2 * |bytes| && Unhex(Hex(bytes)) == Some(Values(bytes))
  {
    if |bytes| > 0 {
      var front, last := bytes[..|bytes| - 1], bytes[|bytes| - 1];
      UnhexHex(front);
      DigitsDecode(last as int / 16);
      DigitsDecode(last as int % 16);
      UnhexStep(Hex(front), last as int, HexByte(last)[0], HexByte(last)[1]);
      assert HexByte(last) == [HexByte(last)[0], HexByte(last)[1]];
    }
  }

  lemma ByteInjective(a: bv8, b: bv8)
    requires a as int == b as int
    ensures a == b
  {
    assert (a as int) as bv8 == (b as int) as bv8;
  }

  lemma {:induction false} ValuesInjective(a: seq<bv8>, b: seq<bv8>)
    requires Values(a) == Values(b)
    ensures a == b
  {
    if |a| > 0 && |b| > 0 {
      var x, y := Values(a), Values(b);
      assert x[|x| - 1] == y[|y| - 1] && x[..|x| - 1] == y[..|y| - 1];
      ByteInjective(a[|a| - 1], b[|b| - 1]);
      ValuesInjective(a[..|a| - 1], b[..|b| - 1]);
      assert a == a[..|a| - 1] + [a[|a| - 1]] && b == b[..|b| - 1] + [b[|b| - 1]];
    }
  }

  /** Two digits per byte, and different strings have different hexadecimal forms. */
  lemma StringToHexInjective(s: seq<CodeUnit>, t: seq<CodeUnit>)
    ensures |Hex(Encode(s))| == 2 * |Encode(s)|
    ensures Hex(Encode(s)) == Hex(Encode(t)) ==> s == t
  {
    UnhexHex(Encode(s));
    UnhexHex(Encode(t));
    if Hex(Encode(s)) == Hex(Encode(t)) { ValuesInjective(Encode(s), Encode(t)); }
    RoundTrip(s);
    RoundTrip(t);
  }
}
