/**
  Mapping a ruleset URL to its cache file on Unix: escaping of special characters,
  lexical path cleaning, and placement below the cache directory.
 */
module UrlPath {
  import opened Options
  import opened Text

  // ---------------------------------------------------------------- escaping

  function ReplaceAll(s: string, c: char, sub: string): string
  {
    if |s| == 0 then "" else (if s[0] == c then sub else [s[0]]) + ReplaceAll(s[1..], c, sub)
  }

  function ReplaceFirst(s: string, pattern: string, sub: string): string
  {
    var i := IndexFrom(s, pattern, 0);
    if i < 0 then s else s[..i] + sub + s[i + |pattern|..]
  }

  /** The nine passes, in source order. */
  function EscapePasses(s0: string): string
  {
    var s1 := ReplaceAll(s0, '_', "_0_");
    var s2 := ReplaceAll(s1, ':', "_1_");
    var s3 := ReplaceAll(s2, '@', "_2_");
    var s4 := ReplaceAll(s3, '?', "_3_");
    var s5 := ReplaceAll(s4, '=', "_4_");
    var s6 := ReplaceAll(s5, '&', "_5_");
    var s7 := ReplaceAll(s6, '\"', "_6_");
    var s8 := ReplaceAll(s7, '\'', "_7_");
    ReplaceAll(s8, '*', "_8_")
  }

  const SPECIAL := "_:@?=&\"'*"

  /** What a single character becomes. */
  function EscapeChar(c: char): string
  {
    if c == '_' then "_0_" else if c == ':' then "_1_" else if c == '@' then "_2_"
    else if c == '?' then "_3_" else if c == '=' then "_4_" else if c == '&' then "_5_"
    else if c == '\"' then "_6_" else if c == '\'' then "_7_" else if c == '*' then "_8_"
    else [c]
  }

  /** One character-wise substitution. */
  function Escape(s: string): string
  {
    if |s| == 0 then "" else EscapeChar(s[0]) + Escape(s[1..])
  }

  function UnescapeDigit(d: char): Option<char>
  {
    if '0' <= d <= '8' then Some(SPECIAL[d as int - '0' as int]) else None
  }

  /** The decoder; None for text that no escaping produces. */
  function Unescape(s: string): Option<string>
  {
    if |s| == 0 then Some("")
    else if s[0] != '_' then
      var rest := Unescape(s[1..]);
      if rest.Some? then Some([s[0]] + rest.value) else None
    else if |s| < 3 || s[2] != '_' || UnescapeDigit(s[1]).None? then None
    else
      var rest := Unescape(s[3..]);
      if rest.Some? then Some([UnescapeDigit(s[1]).value] + rest.value) else None
  }

  lemma {:induction false} ReplaceAllConcat(a: string, b: string, c: char, sub: string)
    ensures ReplaceAll(a + b, c, sub) == ReplaceAll(a, c, sub) + ReplaceAll(b, c, sub)
  {
    if |a| == 0 {
      assert a + b == b;
    } else {
      assert (a + b)[1..] == a[1..] + b;
      ReplaceAllConcat(a[1..], b, c, sub);
    }
  }

  lemma {:induction false} ReplaceAbsent(s: string, c: char, sub: string)
    requires c !in s
    ensures ReplaceAll(s, c, sub) == s
  {
    if |s| > 0 { ReplaceAbsent(s[1..], c, sub); assert s == [s[0]] + s[1..]; }
  }

  lemma ReplaceOne(c: char, d: char, sub: string)
    ensures ReplaceAll([c], d, sub) == if c == d then sub else [c]
  {
    assert ReplaceAll([c][1..], d, sub) == "";
  }

  lemma EscapePassesConcat(a: string, b: string)
    ensures EscapePasses(a + b) == EscapePasses(a) + EscapePasses(b)
  {
    ReplaceAllConcat(a, b, '_', "_0_");
    var a1, b1 := ReplaceAll(a, '_', "_0_"), ReplaceAll(b, '_', "_0_");
    ReplaceAllConcat(a1, b1, ':', "_1_");
    var a2, b2 := ReplaceAll(a1, ':', "_1_"), ReplaceAll(b1, ':', "_1_");
    ReplaceAllConcat(a2, b2, '@', "_2_");
    var a3, b3 := ReplaceAll(a2, '@', "_2_"), ReplaceAll(b2, '@', "_2_");
    ReplaceAllConcat(a3, b3, '?', "_3_");
    var a4, b4 := ReplaceAll(a3, '?', "_3_"), ReplaceAll(b3, '?', "_3_");
    ReplaceAllConcat(a4, b4, '=', "_4_");
    var a5, b5 := ReplaceAll(a4, '=', "_4_"), ReplaceAll(b4, '=', "_4_");
    ReplaceAllConcat(a5, b5, '&', "_5_");
    var a6, b6 := ReplaceAll(a5, '&', "_5_"), ReplaceAll(b5, '&', "_5_");
    ReplaceAllConcat(a6, b6, '\"', "_6_");
    var a7, b7 := ReplaceAll(a6, '\"', "_6_"), ReplaceAll(b6, '\"', "_6_");
    ReplaceAllConcat(a7, b7, '\'', "_7_");
    ReplaceAllConcat(ReplaceAll(a7, '\'', "_7_"), ReplaceAll(b7, '\'', "_7_"), '*', "_8_");
  }

  /** A character after the first `k` passes. */
  function AfterPasses(c: char, k: nat): string
    requires k <= |SPECIAL|
  {
    if c in SPECIAL[..k] then EscapeChar(c) else [c]
  }

  lemma OnePass(c: char, k: nat)
    requires k < |SPECIAL|
    ensures ReplaceAll(AfterPasses(c, k), SPECIAL[k], EscapeChar(SPECIAL[k])) == AfterPasses(c, k + 1)
  {
    var d := SPECIAL[k];
    assert SPECIAL[..k + 1] == SPECIAL[..k] + [d];
    if c in SPECIAL[..k] {
      EscapedHasNoOther(c, d) by { assert k > 0; }
      ReplaceAbsent(EscapeChar(c), d, EscapeChar(d));
    } else {
      ReplaceOne(c, d, EscapeChar(d));
    }
  }

  lemma EscapedHasNoOther(c: char, d: char)
    requires c in SPECIAL && d in SPECIAL[1..]
    ensures d !in EscapeChar(c)
  {
    NotReused(d);
    EscapeCharShape(c);
  }

  lemma NotReused(d: char)
    requires d in SPECIAL[1..]
    ensures d != '_' && !('0' <= d <= '9')
  {
    var i :| 0 <= i < |SPECIAL[1..]| && SPECIAL[1..][i] == d;
    assert SPECIAL[i + 1] == d;
  }

  lemma EscapePassesChar(c: char)
    ensures EscapePasses([c]) == EscapeChar(c)
  {
    assert AfterPasses(c, 0) == [c];
    OnePass(c, 0);
    OnePass(c, 1);
    OnePass(c, 2);
    OnePass(c, 3);
    OnePass(c, 4);
    OnePass(c, 5);
    OnePass(c, 6);
    OnePass(c, 7);
    OnePass(c, 8);
    LastPass(c);
  }

  lemma LastPass(c: char)
    ensures AfterPasses(c, |SPECIAL|) == EscapeChar(c)
  {
    assert SPECIAL[..|SPECIAL|] == SPECIAL;
    if c !in SPECIAL { Ordinary(c); }
  }

  lemma Ordinary(c: char)
    requires c !in SPECIAL
    ensures EscapeChar(c) == [c]
  {
    assert SPECIAL[0] == '_' && SPECIAL[1] == ':' && SPECIAL[2] == '@' && SPECIAL[3] == '?' && SPECIAL[4] == '='
      && SPECIAL[5] == '&' && SPECIAL[6] == '\"' && SPECIAL[7] == '\'' && SPECIAL[8] == '*';
  }

  /** The nine sequential passes are one character-wise substitution. */
  lemma {:induction false} PassesAreSubstitution(s: string)
    ensures EscapePasses(s) == Escape(s)
  {
    if |s| > 0 {
      assert s == [s[0]] + s[1..];
      EscapePassesConcat([s[0]], s[1..]);
      EscapePassesChar(s[0]);
      PassesAreSubstitution(s[1..]);
    }
  }

  lemma EscapeCharShape(c: char)
    ensures var e := EscapeChar(c);
            || (e == [c] && c != '_')
            || (|e| == 3 && e[0] == '_' && e[2] == '_' && '0' <= e[1] <= '8' && UnescapeDigit(e[1]) == Some(c))
    ensures c in SPECIAL ==> |EscapeChar(c)| == 3
  {
  }

  lemma UnescapeStep(c: char, e: string, rest: string)
    requires || (e == [c] && c != '_')
             || (|e| == 3 && e[0] == '_' && e[2] == '_' && UnescapeDigit(e[1]) == Some(c))
    requires Unescape(rest).Some?
    ensures Unescape(e + rest) == Some([c] + Unescape(rest).value)
  {
    var t := e + rest;
    assert t[0] == e[0] && t[|e|..] == rest;
    if |e| == 3 { assert t[1] == e[1] && t[2] == e[2]; }
  }

  /** The substitution is undone by the decoder, for every string. */
  lemma {:induction false} UnescapeEscape(s: string)
    ensures Unescape(Escape(s)) == Some(s)
  {
    if |s| > 0 {
      UnescapeEscape(s[1..]);
      EscapeCharShape(s[0]);
      UnescapeStep(s[0], EscapeChar(s[0]), Escape(s[1..]));
      assert s == [s[0]] + s[1..];
    }
  }

  lemma EscapeInjective(a: string, b: string)
    requires Escape(a) == Escape(b)
    ensures a == b
  {
    UnescapeEscape(a);
    UnescapeEscape(b);
  }

  lemma {:induction false} EscapeConcat(a: string, b: string)
    ensures Escape(a + b) == Escape(a) + Escape(b)
  {
    if |a| == 0 {
      assert a + b == b;
    } else {
      assert (a + b)[1..] == a[1..] + b;
      EscapeConcat(a[1..], b);
    }
  }

  // ---------------------------------------------------------------- lexical cleaning

  /** A path component that cleaning leaves in place. */
  predicate Plain(segment: string)
  {
    segment != "" && segment != "." && segment != ".." && '/' !in segment
  }

  predicate AllPlain(segments: seq<string>)
  {
    forall i :: 0 <= i < |segments| ==> Plain(segments[i])
  }

  function Last(s: seq<string>): string
    requires |s| > 0
  {
    s[|s| - 1]
  }

  /** One component against the components kept so far. */
  function CleanOne(rooted: bool, kept: seq<string>, segment: string): seq<string>
  {
    if segment == "" || segment == "." then kept
    else if segment == ".." then
      if |kept| > 0 && Last(kept) != ".." then kept[..|kept| - 1]
      else if rooted then kept
      else kept + [".."]
    else kept + [segment]
  }

  function CleanAll(rooted: bool, kept: seq<string>, segments: seq<string>): seq<string>
    decreases |segments|
  {
    if |segments| == 0 then kept
    else CleanAll(rooted, CleanOne(rooted, kept, segments[0]), segments[1..])
  }

  predicate Rooted(path: string)
  {
    |path| > 0 && path[0] == '/'
  }

  /** The components a path denotes, read from the left. */
  function Components(path: string): seq<string>
  {
    CleanAll(Rooted(path), [], SplitOn(path, '/'))
  }

  function Render(rooted: bool, components: seq<string>): string
  {
    if rooted then "/" + Join(components, "/")
    else if |components| == 0 then "."
    else Join(components, "/")
  }

  function Clean(path: string): string
  {
    Render(Rooted(path), Components(path))
  }

  function JoinPath(dir: string, path: string): string
  {
    if dir == "" then (if path == "" then "" else Clean(path))
    else if path == "" then Clean(dir)
    else Clean(dir + "/" + path)
  }

  function UrlToPath(dir: string, url: string): string
  {
    var path := Clean(EscapePasses(ReplaceFirst(url, ":/", "/")));
    Clean(JoinPath(dir, path))
  }

  lemma {:induction false} CleanAllConcat(rooted: bool, kept: seq<string>, a: seq<string>, b: seq<string>)
    ensures CleanAll(rooted, kept, a + b) == CleanAll(rooted, CleanAll(rooted, kept, a), b)
    decreases |a|
  {
    if |a| == 0 {
      assert a + b == b;
    } else {
      assert (a + b)[1..] == a[1..] + b;
      CleanAllConcat(rooted, CleanOne(rooted, kept, a[0]), a[1..], b);
    }
  }

  /** A component and a following ".." cancel; at the root ".." stays there, elsewhere in front it is kept. */
  lemma ParentSteps(rooted: bool, kept: seq<string>, segment: string)
    requires Plain(segment)
    ensures CleanAll(rooted, kept, [segment, ".."]) == kept
    ensures CleanAll(true, [], [".."]) == [] && CleanAll(false, [], [".."]) == [".."]
    ensures CleanAll(false, [".."], [".."]) == ["..", ".."]
    ensures CleanAll(rooted, kept, ["", segment, ".", ""]) == kept + [segment]
  {
    assert [segment, ".."][1..] == [".."] && [".."][1..] == [];
    assert (kept + [segment])[..|kept|] == kept;
    assert ["", segment, ".", ""][1..] == [segment, ".", ""] && [segment, ".", ""][1..] == [".", ""];
    assert [".", ""][1..] == [""] && [""][1..] == [];
    var all := kept + [segment];
    assert CleanAll(rooted, kept, [segment, ".", ""]) == CleanAll(rooted, all, [".", ""]);
    assert CleanAll(rooted, all, [".", ""]) == CleanAll(rooted, all, [""]) == CleanAll(rooted, all, []) == all;
  }

  lemma {:induction false} CleanPlain(rooted: bool, kept: seq<string>, segments: seq<string>)
    requires AllPlain(segments)
    ensures CleanAll(rooted, kept, segments) == kept + segments
    decreases |segments|
  {
    if |segments| > 0 {
      assert Plain(segments[0]);
      CleanPlain(rooted, kept + [segments[0]], segments[1..]);
      assert kept + [segments[0]] + segments[1..] == kept + segments;
    }
  }

  /** What cleaning keeps: no separators, nothing empty or ".", and ".." only in front. */
  predicate Settled(rooted: bool, kept: seq<string>)
  {
    && (forall i :: 0 <= i < |kept| ==> kept[i] != "" && kept[i] != "." && '/' !in kept[i])
    && (rooted ==> ".." !in kept)
    && (forall i :: 0 < i < |kept| && kept[i] == ".." ==> kept[i - 1] == "..")
  }

  lemma {:induction false} CleanSettles(rooted: bool, kept: seq<string>, segments: seq<string>)
    requires Settled(rooted, kept) && Without(segments, '/')
    ensures Settled(rooted, CleanAll(rooted, kept, segments))
    decreases |segments|
  {
    if |segments| > 0 {
      var n := CleanOne(rooted, kept, segments[0]);
      assert Settled(rooted, n);
      assert Without(segments[1..], '/');
      CleanSettles(rooted, n, segments[1..]);
    }
  }

  lemma ComponentsSettled(path: string)
    ensures Settled(Rooted(path), Components(path))
  {
    SplitIsWithout(path, '/');
    CleanSettles(Rooted(path), [], SplitOn(path, '/'));
  }

  lemma {:induction false} CleanSettled(rooted: bool, kept: seq<string>, segments: seq<string>)
    requires Settled(rooted, kept + segments)
    ensures CleanAll(rooted, kept, segments) == kept + segments
    decreases |segments|
  {
    if |segments| > 0 {
      var x := segments[0];
      assert (kept + segments)[|kept|] == x;
      assert x != "" && x != ".";
      if x == ".." {
        assert !rooted;
        if |kept| > 0 { assert (kept + segments)[|kept| - 1] == Last(kept); }
      }
      assert CleanOne(rooted, kept, x) == kept + [x];
      assert kept + [x] + segments[1..] == kept + segments;
      CleanSettled(rooted, kept + [x], segments[1..]);
    } else {
      assert kept + segments == kept;
    }
  }

  /** How a rendered path falls apart at its separators. */
  lemma RenderSplit(rooted: bool, components: seq<string>)
    requires Settled(rooted, components)
    ensures Rooted(Render(rooted, components)) == rooted
    ensures SplitOn(Render(rooted, components), '/') ==
            (if rooted then [""] else []) + (if components != [] then components else if rooted then [""] else ["."])
  {
    var body := Join(components, "/");
    SplitPlain("", '/');
    SplitPlain(".", '/');
    if components != [] {
      SplitJoin(components, '/') by { assert Without(components, '/'); }
      BodyNotRooted(components);
    }
    SplitAppend("", '/', body);
    assert "" + ['/'] + body == "/" + body;
  }

  /** Separators and dots that rendering adds have no effect. */
  lemma CleanRendered(rooted: bool, kept: seq<string>, r: bool, components: seq<string>)
    requires Settled(r, components)
    ensures CleanAll(rooted, kept, SplitOn(Render(r, components), '/')) == CleanAll(rooted, kept, components)
  {
    RenderSplit(r, components);
    var lead := if r then [""] else [];
    var body := if components != [] then components else if r then [""] else ["."];
    CleanAllConcat(rooted, kept, lead, body);
    CleanNothing(rooted, kept);
  }

  lemma CleanNothing(rooted: bool, kept: seq<string>)
    ensures CleanAll(rooted, kept, []) == CleanAll(rooted, kept, [""]) == CleanAll(rooted, kept, ["."]) == kept
  {
    assert [""][1..] == [] && ["."][1..] == [];
  }

  /** Reading back a rendered path gives the same components: rendering loses nothing. */
  lemma ReadBack(rooted: bool, components: seq<string>)
    requires Settled(rooted, components)
    ensures Rooted(Render(rooted, components)) == rooted
    ensures Components(Render(rooted, components)) == components
  {
    RenderSplit(rooted, components);
    CleanRendered(rooted, [], rooted, components);
    assert [] + components == components;
    CleanSettled(rooted, [], components);
  }

  lemma BodyNotRooted(components: seq<string>)
    requires |components| > 0 && components[0] != "" && '/' !in components[0]
    ensures !Rooted(Join(components, "/")) && Join(components, "/") != ""
  {
    assert Join(components, "/")[0] == components[0][0];
    assert components[0][0] in components[0];
  }

  /** Cleaning twice is cleaning once. */
  lemma CleanIdempotent(path: string)
    ensures Clean(Clean(path)) == Clean(path)
  {
    ComponentsSettled(path);
    ReadBack(Rooted(path), Components(path));
  }

  lemma EmptyHasNoComponents()
    ensures Components("") == [] && !Rooted("")
  {
    SplitPlain("", '/');
    CleanNothing(false, []);
  }

  /** Below a directory, a path continues with its components where those of the directory end. */
  lemma JoinPathIs(dir: string, r: bool, components: seq<string>)
    requires Settled(r, components)
    ensures var rooted := if dir == "" then r else Rooted(dir);
            var all := CleanAll(rooted, Components(dir), components);
            Settled(rooted, all) && Clean(JoinPath(dir, Render(r, components))) == Render(rooted, all)
  {
    var path := Render(r, components);
    RenderSplit(r, components);
    ReadBack(r, components);
    EmptyHasNoComponents();
    CleanIdempotent(path);
    if dir == "" {
      assert [] + components == components;
      CleanSettled(r, [], components);
    } else {
      var whole := dir + "/" + path;
      SplitAppend(dir, '/', path);
      CleanAllConcat(Rooted(dir), [], SplitOn(dir, '/'), SplitOn(path, '/'));
      CleanRendered(Rooted(dir), Components(dir), r, components);
      assert Rooted(whole) == Rooted(dir);
      ComponentsSettled(whole);
      CleanIdempotent(whole);
    }
  }

  /** A plain name is one more component. */
  lemma JoinName(dir: string, name: string)
    requires Plain(name)
    ensures Components(Clean(JoinPath(dir, name))) == Components(dir) + [name]
  {
    assert Settled(false, [name]) && Render(false, [name]) == name;
    JoinPathIs(dir, false, [name]);
    CleanPlain(Rooted(dir), Components(dir), [name]);
    ReadBack(Rooted(dir), Components(dir) + [name]);
  }

  // ---------------------------------------------------------------- URLs

  /** scheme://segment/.../segment */
  datatype Url = Url(scheme: string, segments: seq<string>)

  predicate WellFormed(u: Url)
  {
    Plain(u.scheme) && ':' !in u.scheme && AllPlain(u.segments)
  }

  function UrlText(u: Url): string
  {
    u.scheme + "://" + Join(u.segments, "/")
  }

  function EscapeEach(segments: seq<string>): (r: seq<string>)
    ensures |r| == |segments|
    ensures forall i :: 0 <= i < |r| ==> r[i] == Escape(segments[i])
  {
    seq(|segments|, i requires 0 <= i < |segments| => Escape(segments[i]))
  }

  /** The components of the cache file of a URL. */
  function CacheFile(dir: string, u: Url): seq<string>
  {
    Components(dir) + EscapeEach([u.scheme] + u.segments)
  }

  lemma {:induction false} EscapeJoin(segments: seq<string>)
    ensures Escape(Join(segments, "/")) == Join(EscapeEach(segments), "/")
  {
    if |segments| > 1 {
      var tail := Join(segments[1..], "/");
      EscapeJoin(segments[1..]);
      EscapeConcat(segments[0] + "/", tail);
      EscapeConcat(segments[0], "/");
      assert Escape("/") == "/" by { assert Escape("/"[1..]) == ""; }
      assert EscapeEach(segments)[1..] == EscapeEach(segments[1..]);
    }
  }

  lemma {:induction false} EscapeKeepsSlashes(s: string)
    ensures '/' in Escape(s) <==> '/' in s
  {
    if |s| > 0 {
      EscapeKeepsSlashes(s[1..]);
      assert s == [s[0]] + s[1..];
    }
  }

  /** Escaping neither makes nor hides one of the components that cleaning treats specially. */
  lemma EscapeSpecial(s: string)
    ensures (Escape(s) == "" <==> s == "") && (Escape(s) == "." <==> s == ".") && (Escape(s) == ".." <==> s == "..")
  {
    assert Escape("") == "";
    assert Escape(".") == "." by { assert Escape("."[1..]) == ""; }
    assert Escape("..") == ".." by { assert ".."[1..] == "."; }
    if Escape(s) == "" { EscapeInjective(s, ""); }
    if Escape(s) == "." { EscapeInjective(s, "."); }
    if Escape(s) == ".." { EscapeInjective(s, ".."); }
  }

  lemma EscapePlain(segment: string)
    requires Plain(segment)
    ensures Plain(Escape(segment))
  {
    EscapeKeepsSlashes(segment);
    EscapeSpecial(segment);
  }

  lemma EscapeEachPlain(segments: seq<string>)
    requires AllPlain(segments)
    ensures AllPlain(EscapeEach(segments))
  {
    forall i | 0 <= i < |segments| ensures Plain(EscapeEach(segments)[i]) { EscapePlain(segments[i]); }
  }

  lemma SchemeEndsAtFirstColonSlash(scheme: string, rest: string)
    requires ':' !in scheme
    ensures ReplaceFirst(scheme + "://" + rest, ":/", "/") == scheme + "//" + rest
  {
    var url := scheme + "://" + rest;
    var i := IndexFrom(url, ":/", 0);
    assert MatchesAt(url, ":/", |scheme|);
    forall k | 0 <= k < |scheme| ensures !MatchesAt(url, ":/", k) {
      assert scheme[k] in scheme && url[k] == scheme[k];
      assert url[k..k + 2][0] == url[k];
    }
    assert i == |scheme|;
    assert url[..i] == scheme && url[i + 2..] == "/" + rest;
    assert scheme + "/" + ("/" + rest) == scheme + "//" + rest;
  }

  lemma SplitDoubleSlash(a: string, body: string)
    requires '/' !in a
    ensures SplitOn(a + "//" + body, '/') == [a, ""] + SplitOn(body, '/')
  {
    SplitAppend(a + "/", '/', body);
    assert a + "/" + ['/'] + body == a + "//" + body;
    SplitAppend(a, '/', "");
    assert a + ['/'] + "" == a + "/";
    SplitPlain(a, '/');
    SplitPlain("", '/');
  }

  // ---------------------------------------------------------------- where a URL is cached

  /** The URL as a path: the first ":/" becomes "/". */
  function RawPath(url: string): string
  {
    ReplaceFirst(url, ":/", "/")
  }

  /** The components that a URL names, unescaped. */
  function Flat(url: string): seq<string>
  {
    Components(RawPath(url))
  }

  predicate RootedAt(dir: string, url: string)
  {
    if dir == "" then Rooted(RawPath(url)) else Rooted(dir)
  }

  /** The components of the cache file: those of the URL, escaped one by one, behind the directory. */
  function Place(dir: string, url: string): seq<string>
  {
    CleanAll(RootedAt(dir, url), Components(dir), EscapeEach(Flat(url)))
  }

  lemma SplitEscape(s: string)
    ensures SplitOn(Escape(s), '/') == EscapeEach(SplitOn(s, '/'))
  {
    var parts := SplitOn(s, '/');
    JoinSplit(s, '/');
    SplitIsWithout(s, '/');
    EscapeJoin(parts);
    forall i | 0 <= i < |parts| ensures '/' !in EscapeEach(parts)[i] { EscapeKeepsSlashes(parts[i]); }
    SplitJoin(EscapeEach(parts), '/');
  }

  lemma CleanOneEscape(rooted: bool, kept: seq<string>, segment: string)
    ensures CleanOne(rooted, EscapeEach(kept), Escape(segment)) == EscapeEach(CleanOne(rooted, kept, segment))
  {
    EscapeSpecial(segment);
    EscapeSpecial("..");
    if |kept| > 0 { EscapeSpecial(Last(kept)); }
  }

  /** Cleaning and escaping commute. */
  lemma {:induction false} CleanAllEscape(rooted: bool, kept: seq<string>, segments: seq<string>)
    ensures CleanAll(rooted, EscapeEach(kept), EscapeEach(segments)) == EscapeEach(CleanAll(rooted, kept, segments))
    decreases |segments|
  {
    if |segments| > 0 {
      CleanOneEscape(rooted, kept, segments[0]);
      assert EscapeEach(segments)[1..] == EscapeEach(segments[1..]);
      CleanAllEscape(rooted, CleanOne(rooted, kept, segments[0]), segments[1..]);
    }
  }

  lemma EscapeRooted(s: string)
    ensures Rooted(Escape(s)) == Rooted(s)
  {
    if |s| > 0 { EscapeCharShape(s[0]); }
  }

  lemma EscapeComponents(s: string)
    ensures Rooted(Escape(s)) == Rooted(s) && Components(Escape(s)) == EscapeEach(Components(s))
  {
    EscapeRooted(s);
    SplitEscape(s);
    assert EscapeEach([]) == [];
    CleanAllEscape(Rooted(s), [], SplitOn(s, '/'));
  }

  /** Where any URL text is cached. */
  lemma UrlToPathIsPlace(dir: string, url: string)
    ensures UrlToPath(dir, url) == Render(RootedAt(dir, url), Place(dir, url))
    ensures Settled(RootedAt(dir, url), Place(dir, url))
  {
    var raw := RawPath(url);
    PassesAreSubstitution(raw);
    EscapeComponents(raw);
    ComponentsSettled(Escape(raw));
    JoinPathIs(dir, Rooted(raw), EscapeEach(Flat(url)));
  }

  /** Any two URL texts share a cache file exactly if their places are the same. */
  lemma SharedFileIff(dir: string, u: string, v: string)
    ensures UrlToPath(dir, u) == UrlToPath(dir, v) <==>
            RootedAt(dir, u) == RootedAt(dir, v) && Place(dir, u) == Place(dir, v)
  {
    UrlToPathIsPlace(dir, u);
    UrlToPathIsPlace(dir, v);
    ReadBack(RootedAt(dir, u), Place(dir, u));
    ReadBack(RootedAt(dir, v), Place(dir, v));
  }

  lemma PlaceOfFlat(dir: string, url: string)
    requires ".." !in Flat(url)
    ensures Place(dir, url) == Components(dir) + EscapeEach(Flat(url))
  {
    var flat := Flat(url);
    ComponentsSettled(RawPath(url));
    forall i | 0 <= i < |flat| ensures Plain(flat[i]) {
      assert flat[i] in flat;
    }
    EscapeEachPlain(flat);
    CleanPlain(RootedAt(dir, url), Components(dir), EscapeEach(flat));
  }

  /** For URLs that do not climb: exactly if they name the same components. Escaping merges nothing. */
  lemma SharedFileIffSameFlat(dir: string, u: string, v: string)
    requires ".." !in Flat(u) && ".." !in Flat(v)
    ensures UrlToPath(dir, u) == UrlToPath(dir, v) <==> RootedAt(dir, u) == RootedAt(dir, v) && Flat(u) == Flat(v)
  {
    SharedFileIff(dir, u, v);
    PlaceOfFlat(dir, u);
    PlaceOfFlat(dir, v);
    var d := Components(dir);
    if Place(dir, u) == Place(dir, v) {
      assert EscapeEach(Flat(u)) == Place(dir, u)[|d|..] && EscapeEach(Flat(v)) == Place(dir, v)[|d|..];
      EscapeEachInjective(Flat(u), Flat(v));
    }
  }

  // ---------------------------------------------------------------- URLs with a scheme

  /** Any scheme without separators, also an empty one or dots. */
  predicate Addressable(u: Url)
  {
    ':' !in u.scheme && '/' !in u.scheme && AllPlain(u.segments)
  }

  /** An empty scheme and "." leave no trace. */
  function Lead(scheme: string): seq<string>
  {
    if scheme == "" || scheme == "." then [] else [scheme]
  }

  lemma FlatOfUrl(u: Url)
    requires Addressable(u)
    ensures Flat(UrlText(u)) == Lead(u.scheme) + u.segments
    ensures Rooted(RawPath(UrlText(u))) == (u.scheme == "")
  {
    var body, raw := Join(u.segments, "/"), RawPath(UrlText(u));
    SchemeEndsAtFirstColonSlash(u.scheme, body);
    assert raw == u.scheme + "//" + body;
    if u.scheme != "" { assert raw[0] == u.scheme[0]; assert u.scheme[0] in u.scheme; }
    SplitDoubleSlash(u.scheme, body);
    var rooted := Rooted(raw);
    CleanAllConcat(rooted, [], [u.scheme, ""], SplitOn(body, '/'));
    CleanLead(rooted, u.scheme);
    if |u.segments| == 0 {
      SplitPlain("", '/');
      CleanNothing(rooted, Lead(u.scheme));
    } else {
      SplitJoin(u.segments, '/') by { assert Without(u.segments, '/'); }
      CleanPlain(rooted, Lead(u.scheme), u.segments);
    }
  }

  lemma CleanLead(rooted: bool, scheme: string)
    requires rooted ==> scheme == ""
    ensures CleanAll(rooted, [], [scheme, ""]) == Lead(scheme)
  {
    assert [scheme, ""][1..] == [""];
    CleanNothing(rooted, CleanOne(rooted, [], scheme));
  }

  /** Two URLs share a cache file exactly if scheme and segments, read as one path, agree. */
  lemma UrlsShareFileIff(dir: string, u: Url, v: Url)
    requires Addressable(u) && Addressable(v) && u.scheme != ".." && v.scheme != ".."
    ensures UrlToPath(dir, UrlText(u)) == UrlToPath(dir, UrlText(v)) <==>
            && Lead(u.scheme) + u.segments == Lead(v.scheme) + v.segments
            && (dir == "" ==> (u.scheme == "" <==> v.scheme == ""))
  {
    FlatOfUrl(u);
    FlatOfUrl(v);
    NoClimbing(u);
    NoClimbing(v);
    SharedFileIffSameFlat(dir, UrlText(u), UrlText(v));
  }

  lemma NoClimbing(u: Url)
    requires Addressable(u) && u.scheme != ".."
    ensures ".." !in Lead(u.scheme) + u.segments
  {
    var all := Lead(u.scheme) + u.segments;
    forall i | 0 <= i < |all| ensures all[i] != ".." {
      if i >= |Lead(u.scheme)| { assert Plain(u.segments[i - |Lead(u.scheme)|]); }
    }
  }

  /** With the scheme ".." the file moves up by one component of the directory. */
  lemma ParentSchemePlace(dir: string, segments: seq<string>)
    requires AllPlain(segments)
    ensures Place(dir, UrlText(Url("..", segments))) ==
            CleanOne(Rooted(dir), Components(dir), "..") + EscapeEach(segments)
  {
    var u := Url("..", segments);
    FlatOfUrl(u);
    EmptyHasNoComponents();
    EscapeSpecial("..");
    EscapeEachCons("..", segments);
    EscapeEachPlain(segments);
    var rest := [".."] + EscapeEach(segments);
    assert rest[1..] == EscapeEach(segments);
    CleanPlain(Rooted(dir), CleanOne(Rooted(dir), Components(dir), ".."), EscapeEach(segments));
  }

  lemma EscapeEachCons(a: string, rest: seq<string>)
    ensures EscapeEach([a] + rest) == [Escape(a)] + EscapeEach(rest)
  {
  }

  /** Where a well-formed URL is cached. */
  lemma UrlToPathIs(dir: string, u: Url)
    requires WellFormed(u)
    ensures UrlToPath(dir, UrlText(u)) == Render(Rooted(dir), CacheFile(dir, u))
    ensures Components(UrlToPath(dir, UrlText(u))) == CacheFile(dir, u)
  {
    FlatOfUrl(u);
    NoClimbing(u);
    PlaceOfFlat(dir, UrlText(u));
    UrlToPathIsPlace(dir, UrlText(u));
    ReadBack(Rooted(dir), CacheFile(dir, u));
  }

  lemma EscapeEachInjective(a: seq<string>, b: seq<string>)
    requires EscapeEach(a) == EscapeEach(b)
    ensures a == b
  {
    assert |a| == |EscapeEach(a)| == |EscapeEach(b)| == |b|;
    forall i | 0 <= i < |a| ensures a[i] == b[i] {
      assert EscapeEach(a)[i] == EscapeEach(b)[i];
      EscapeInjective(a[i], b[i]);
    }
  }

  /** No two well-formed URLs share a cache path, whatever the cache directory. */
  lemma UrlToPathInjective(dir: string, u: Url, v: Url)
    requires WellFormed(u) && WellFormed(v)
    requires UrlToPath(dir, UrlText(u)) == UrlToPath(dir, UrlText(v))
    ensures u == v
  {
    UrlsShareFileIff(dir, u, v);
    var a, b := [u.scheme] + u.segments, [v.scheme] + v.segments;
    assert a[0] == b[0] && u.segments == a[1..] && v.segments == b[1..];
  }

  /** Different URLs have different cache files. */
  lemma CacheFileInjective(dir: string, u: Url, v: Url)
    requires CacheFile(dir, u) == CacheFile(dir, v)
    ensures u == v
  {
    var a, b := [u.scheme] + u.segments, [v.scheme] + v.segments;
    var d := Components(dir);
    assert EscapeEach(a) == CacheFile(dir, u)[|d|..] && EscapeEach(b) == CacheFile(dir, v)[|d|..];
    EscapeEachInjective(a, b);
    assert a[0] == b[0] && u.segments == a[1..] && v.segments == b[1..];
  }

  /** "://a/b" is cached in the file of "a://b". */
  lemma EmptySchemeCollides(dir: string, a: string, segments: seq<string>)
    requires dir != "" && WellFormed(Url(a, segments))
    ensures UrlToPath(dir, UrlText(Url("", [a] + segments))) == UrlToPath(dir, UrlText(Url(a, segments)))
    ensures UrlText(Url("", [a] + segments)) != UrlText(Url(a, segments))
  {
    var u, v := Url("", [a] + segments), Url(a, segments);
    assert AllPlain([a] + segments);
    UrlsShareFileIff(dir, u, v);
    assert a[0] in a;
    assert UrlText(u)[0] == ':' && UrlText(v)[0] == a[0];
  }
}
