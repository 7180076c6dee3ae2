/**
  The ruleset download cache: a file store below one directory, filled by lookups and
  emptied by ClearRulesets. Downloads of known URLs succeed and the servers' contents
  do not change.
 */
module RulesetCache {
  import opened Text
  import opened UrlPath

  type Path = seq<string>

  /** Regular files by the components of their path; every proper prefix is a directory. */
  type Files = map<Path, string>

  predicate Comparable(p: Path, q: Path)
  {
    p <= q || q <= p
  }

  /**
    `os.Stat` gives anything but "does not exist": for a file, for a directory, and for
    a path that runs through a regular file.
   */
  predicate FileExists(files: Files, p: Path)
  {
    exists f :: f in files && Comparable(f, p)
  }

  function Fetch(files: Files, p: Path, body: string): Files
  {
    if FileExists(files, p) then files else files[p := body]
  }

  /** RemoveAll of a subtree. */
  function Remove(files: Files, root: Path): Files
  {
    map f | f in files && !(root <= f) :: files[f]
  }

  const CLEARED: seq<string> := ["ftps", "ftp", "http", "https"]

  function ClearedDir(dir: string, name: string): Path
  {
    Components(Clean(JoinPath(dir, name)))
  }

  function RootOf(dir: string): string -> Path
  {
    (name: string) => ClearedDir(dir, name)
  }

  function Roots(rootOf: string -> Path, names: seq<string>): (r: seq<Path>)
    ensures |r| == |names| && forall i :: 0 <= i < |r| ==> r[i] == rootOf(names[i])
  {
    seq(|names|, i requires 0 <= i < |names| => rootOf(names[i]))
  }

  /** The first `n` roots removed, one after the other. */
  function RemoveFirst(files: Files, roots: seq<Path>, n: nat): Files
    requires n <= |roots|
  {
    if n == 0 then files else Remove(RemoveFirst(files, roots, n - 1), roots[n - 1])
  }

  lemma RemoveStep(files: Files, roots: seq<Path>, i: nat)
    requires i < |roots|
    ensures RemoveFirst(files, roots, i + 1) == Remove(RemoveFirst(files, roots, i), roots[i])
  {
  }

  function ClearAll(files: Files, dir: string): Files
  {
    RemoveFirst(files, Roots(RootOf(dir), CLEARED), |CLEARED|)
  }

  datatype Reply = NilFlag | EmptyUrl | Fatal | Served(path: string, downloaded: bool)

  class Cache {
    const dir: string
    var files: Files

    constructor (dir: string)
      ensures this.dir == dir && files == map[]
    {
      this.dir := dir;
      files := map[];
    }

    /**
      `origin` is what the servers answer. A failing download ends the process and leaves
      the file it created, with whatever had been written.
     */
    method CacheHttp(url: string, hasFlag: bool, origin: map<string, string>, leftover: string) returns (r: Reply)
      modifies this
      ensures url == "" ==> r == (if hasFlag then EmptyUrl else NilFlag) && files == old(files)
      ensures url != "" ==>
        var p := UrlToPath(dir, url);
        if FileExists(old(files), Components(p)) then r == Served(p, false) && files == old(files)
        else if url in origin then r == Served(p, true) && files == Fetch(old(files), Components(p), origin[url])
        else r == Fatal && files == old(files)[Components(p) := leftover]
    {
      if url == "" {
        return if hasFlag then EmptyUrl else NilFlag;
      }
      var path := UrlToPath(dir, url);
      if !FileExists(files, Components(path)) {
        if url !in origin {
          files := files[Components(path) := leftover];
          return Fatal;
        }
        files := files[Components(path) := origin[url]];
        return Served(path, true);
      }
      return Served(path, false);
    }

    /** The loop, for any list of directory names. */
    method RemoveEach(rootOf: string -> Path, names: seq<string>)
      modifies this
      ensures files == RemoveFirst(old(files), Roots(rootOf, names), |names|)
    {
      ghost var roots := Roots(rootOf, names);
      var i := 0;
      while i < |names|
        invariant 0 <= i <= |names|
        invariant files == RemoveFirst(old(files), roots, i)
      {
        RemoveStep(old(files), roots, i);
        files := Remove(files, rootOf(names[i]));
        i := i + 1;
      }
    }

    method ClearRulesets()
      modifies this
      ensures files == ClearAll(old(files), dir)
    {
      RemoveEach(RootOf(dir), CLEARED);
    }

    /** Any run of lookups and clears; every download succeeds. */
    method Serve(ops: seq<Op>, origin: Url -> string)
      modifies this
      ensures files == Run(old(files), dir, origin, ops)
    {
      var i := 0;
      assert ops[0..] == ops;
      while i < |ops|
        invariant 0 <= i <= |ops|
        invariant Run(files, dir, origin, ops[i..]) == Run(old(files), dir, origin, ops)
      {
        assert ops[i..][0] == ops[i] && ops[i..][1..] == ops[i + 1..];
        match ops[i] {
          case Lookup(u) =>
            UrlTextNotEmpty(u);
            var reply := CacheHttp(UrlText(u), true, map[UrlText(u) := origin(u)], "");
          case Clear => ClearRulesets();
        }
        i := i + 1;
      }
    }
  }

  // ---------------------------------------------------------------- runs

  datatype Op = Lookup(url: Url) | Clear

  function Apply(files: Files, dir: string, origin: Url -> string, op: Op): Files
  {
    match op
    case Lookup(u) => Fetch(files, Components(UrlToPath(dir, UrlText(u))), origin(u))
    case Clear => ClearAll(files, dir)
  }

  function Run(files: Files, dir: string, origin: Url -> string, ops: seq<Op>): Files
    decreases |ops|
  {
    if |ops| == 0 then files else Run(Apply(files, dir, origin, ops[0]), dir, origin, ops[1..])
  }

  lemma UrlTextNotEmpty(u: Url)
    ensures UrlText(u) != ""
  {
  }

  /** The path returned for `u` is a file with the body of `u`. */
  predicate Holds(files: Files, dir: string, origin: Url -> string, u: Url)
  {
    var p := Components(UrlToPath(dir, UrlText(u)));
    p in files && files[p] == origin(u)
  }

  ghost predicate Origin(dir: string, origin: Url -> string, p: Path, body: string)
  {
    exists u :: WellFormed(u) && p == CacheFile(dir, u) && body == origin(u)
  }

  /** Every file holds the body of the URL it is named after, and no file is below another. */
  ghost predicate Inv(files: Files, dir: string, origin: Url -> string)
  {
    && (forall p :: p in files ==> Origin(dir, origin, p, files[p]))
    && (forall p, q :: p in files && q in files && p <= q ==> p == q)
  }

  lemma StepKeepsInv(files: Files, dir: string, origin: Url -> string, op: Op)
    requires Inv(files, dir, origin) && (op.Lookup? ==> WellFormed(op.url))
    ensures Inv(Apply(files, dir, origin, op), dir, origin)
  {
    match op
    case Clear => ClearIs(files, dir);
    case Lookup(u) =>
      UrlToPathIs(dir, u);
      var p := CacheFile(dir, u);
      if !FileExists(files, p) {
        var n := files[p := origin(u)];
        forall f | f in n ensures Origin(dir, origin, f, n[f]) {
          if f != p { assert f in files; }
        }
        forall f, g | f in n && g in n && f <= g ensures f == g {
          if f != g {
            if f == p { assert Comparable(g, p) && g in files; }
            if g == p { assert Comparable(f, p) && f in files; }
          }
        }
      }
  }

  /** The URLs a run looks up. */
  predicate LooksUpWellFormed(ops: seq<Op>)
  {
    forall i :: 0 <= i < |ops| && ops[i].Lookup? ==> WellFormed(ops[i].url)
  }

  lemma {:induction false} RunKeepsInv(files: Files, dir: string, origin: Url -> string, ops: seq<Op>)
    requires Inv(files, dir, origin) && LooksUpWellFormed(ops)
    ensures Inv(Run(files, dir, origin, ops), dir, origin)
    decreases |ops|
  {
    if |ops| > 0 {
      StepKeepsInv(files, dir, origin, ops[0]);
      RunKeepsInv(Apply(files, dir, origin, ops[0]), dir, origin, ops[1..]);
    }
  }

  // ---------------------------------------------------------------- nested URLs

  function UrlParts(u: Url): seq<string>
  {
    [u.scheme] + u.segments
  }

  /** One URL names something below the other. */
  predicate Nested(u: Url, v: Url)
  {
    u != v && Comparable(UrlParts(u), UrlParts(v))
  }

  lemma PrefixOfCacheFile(dir: string, u: Url, v: Url)
    ensures CacheFile(dir, u) <= CacheFile(dir, v) <==> UrlParts(u) <= UrlParts(v)
  {
    var d, a, b := Components(dir), UrlParts(u), UrlParts(v);
    var p, q := CacheFile(dir, u), CacheFile(dir, v);
    if a <= b {
      forall i | 0 <= i < |p| ensures p[i] == q[i] {
        if i >= |d| { assert a[i - |d|] == b[i - |d|]; }
      }
    }
    if p <= q {
      forall i | 0 <= i < |a| ensures a[i] == b[i] {
        assert p[|d| + i] == q[|d| + i];
        EscapeInjective(a[i], b[i]);
      }
    }
  }

  lemma NestedFiles(dir: string, u: Url, v: Url)
    ensures Nested(u, v) <==> CacheFile(dir, u) != CacheFile(dir, v) && Comparable(CacheFile(dir, u), CacheFile(dir, v))
  {
    PrefixOfCacheFile(dir, u, v);
    PrefixOfCacheFile(dir, v, u);
    if CacheFile(dir, u) == CacheFile(dir, v) { CacheFileInjective(dir, u, v); }
  }

  /** `u` is nested with some URL that has a file in the store. */
  ghost predicate Conflicts(files: Files, dir: string, u: Url)
  {
    exists v :: WellFormed(v) && Nested(u, v) && CacheFile(dir, v) in files
  }

  /** After any run, a lookup serves the right body exactly when no cached URL is nested with it. */
  lemma ServedIff(dir: string, origin: Url -> string, ops: seq<Op>, u: Url)
    requires LooksUpWellFormed(ops) && WellFormed(u)
    ensures var files := Run(map[], dir, origin, ops);
            Holds(Apply(files, dir, origin, Lookup(u)), dir, origin, u) <==> !Conflicts(files, dir, u)
  {
    var files := Run(map[], dir, origin, ops);
    var p := CacheFile(dir, u);
    RunKeepsInv(map[], dir, origin, ops);
    UrlToPathIs(dir, u);
    if v :| WellFormed(v) && Nested(u, v) && CacheFile(dir, v) in files {
      NestedFiles(dir, u, v);
      assert FileExists(files, p);
      assert p !in files;
    }
    if p in files {
      var v :| WellFormed(v) && p == CacheFile(dir, v) && files[p] == origin(v);
      CacheFileInjective(dir, u, v);
    } else if FileExists(files, p) {
      var f :| f in files && Comparable(f, p);
      assert Origin(dir, origin, f, files[f]);
      var v :| WellFormed(v) && f == CacheFile(dir, v) && files[f] == origin(v);
      NestedFiles(dir, u, v);
    }
  }

  /** No URL of the run is nested with `u`. */
  ghost predicate Unnested(ops: seq<Op>, u: Url)
  {
    forall i :: 0 <= i < |ops| && ops[i].Lookup? ==> !Nested(u, ops[i].url)
  }

  lemma {:induction false} FilesComeFromLookups(files: Files, dir: string, origin: Url -> string, ops: seq<Op>, p: Path)
    requires LooksUpWellFormed(ops) && p in Run(files, dir, origin, ops)
    ensures p in files || exists i :: 0 <= i < |ops| && ops[i].Lookup? && p == CacheFile(dir, ops[i].url)
    decreases |ops|
  {
    if |ops| > 0 {
      var next := Apply(files, dir, origin, ops[0]);
      FilesComeFromLookups(next, dir, origin, ops[1..], p);
      if p in next {
        if ops[0].Lookup? { UrlToPathIs(dir, ops[0].url); } else { ClearIs(files, dir); }
      } else {
        var i :| 0 <= i < |ops[1..]| && ops[1..][i].Lookup? && p == CacheFile(dir, ops[1..][i].url);
        assert ops[i + 1] == ops[1..][i];
      }
    }
  }

  /** So on every run without nested URLs the returned path holds that URL's body. */
  lemma EveryLookupServesItsUrl(dir: string, origin: Url -> string, ops: seq<Op>, u: Url)
    requires LooksUpWellFormed(ops) && WellFormed(u) && Unnested(ops, u)
    ensures Holds(Apply(Run(map[], dir, origin, ops), dir, origin, Lookup(u)), dir, origin, u)
  {
    ServedIff(dir, origin, ops, u);
    var files := Run(map[], dir, origin, ops);
    forall v | WellFormed(v) && CacheFile(dir, v) in files ensures !Nested(u, v) {
      FilesComeFromLookups(map[], dir, origin, ops, CacheFile(dir, v));
      var i :| 0 <= i < |ops| && ops[i].Lookup? && CacheFile(dir, v) == CacheFile(dir, ops[i].url);
      CacheFileInjective(dir, v, ops[i].url);
    }
  }

  /** A URL looked up after one below it gets a path that is no file at all. */
  lemma NestedLookupFails(dir: string, origin: Url -> string, u: Url, v: Url)
    requires WellFormed(u) && WellFormed(v) && Nested(u, v)
    ensures var files := Run(map[], dir, origin, [Lookup(v)]);
            !Holds(Apply(files, dir, origin, Lookup(u)), dir, origin, u)
  {
    var ops := [Lookup(v)];
    UrlToPathIs(dir, v);
    var files := Apply(map[], dir, origin, Lookup(v));
    assert Run(map[], dir, origin, ops) == Run(files, dir, origin, ops[1..]) == files;
    assert CacheFile(dir, v) in files;
    ServedIff(dir, origin, ops, u);
  }

  /** What a failed download left is served from then on: correct exactly if it was complete. */
  lemma LeftoverIsServed(files: Files, dir: string, origin: Url -> string, u: Url, leftover: string)
    requires WellFormed(u)
    ensures var after := files[CacheFile(dir, u) := leftover];
            && FileExists(after, Components(UrlToPath(dir, UrlText(u))))
            && (Holds(Apply(after, dir, origin, Lookup(u)), dir, origin, u) <==> leftover == origin(u))
  {
    UrlToPathIs(dir, u);
    var after := files[CacheFile(dir, u) := leftover];
    assert CacheFile(dir, u) in after && Comparable(CacheFile(dir, u), CacheFile(dir, u));
  }

  // ---------------------------------------------------------------- clearing

  lemma {:induction false} EscapeUnchanged(s: string)
    requires forall i :: 0 <= i < |s| ==> 'a' <= s[i] <= 'z'
    ensures Escape(s) == s
  {
    if |s| > 0 { EscapeUnchanged(s[1..]); assert s == [s[0]] + s[1..]; }
  }

  lemma ClearedRoot(dir: string, name: string)
    requires Plain(name)
    ensures ClearedDir(dir, name) == Components(dir) + [name]
  {
    JoinName(dir, name);
  }

  /** A file is below one of the given directories. */
  predicate Below(roots: seq<Path>, p: Path)
  {
    exists i :: 0 <= i < |roots| && roots[i] <= p
  }

  predicate BelowCleared(dir: string, p: Path)
  {
    exists i :: 0 <= i < |CLEARED| && Components(dir) + [CLEARED[i]] <= p
  }

  lemma {:induction false} RemoveFirstIs(files: Files, roots: seq<Path>, n: nat)
    requires n <= |roots|
    ensures RemoveFirst(files, roots, n) == map p | p in files && !Below(roots[..n], p) :: files[p]
  {
    if n > 0 {
      RemoveFirstIs(files, roots, n - 1);
      forall p ensures Below(roots[..n], p) <==> Below(roots[..n - 1], p) || roots[n - 1] <= p {
        BelowLast(roots, n, p);
      }
    }
  }

  lemma BelowLast(roots: seq<Path>, n: nat, p: Path)
    requires 0 < n <= |roots|
    ensures Below(roots[..n], p) <==> Below(roots[..n - 1], p) || roots[n - 1] <= p
  {
    var a, b := roots[..n], roots[..n - 1];
    if i :| 0 <= i < |a| && a[i] <= p { assert i < n - 1 ==> b[i] <= p; }
    if i :| 0 <= i < |b| && b[i] <= p { assert a[i] <= p; }
    assert a[n - 1] == roots[n - 1];
  }

  /** Clearing keeps exactly the files outside the four directories, unchanged. */
  lemma ClearIs(files: Files, dir: string)
    ensures ClearAll(files, dir) == map p | p in files && !BelowCleared(dir, p) :: files[p]
  {
    var roots := Roots(RootOf(dir), CLEARED);
    RemoveFirstIs(files, roots, |CLEARED|);
    assert roots[..|CLEARED|] == roots;
    RootsAreCleared(dir);
  }

  lemma RootsAreCleared(dir: string)
    ensures forall p :: Below(Roots(RootOf(dir), CLEARED), p) <==> BelowCleared(dir, p)
  {
    var roots := Roots(RootOf(dir), CLEARED);
    forall i | 0 <= i < |CLEARED| ensures roots[i] == Components(dir) + [CLEARED[i]] {
      assert Plain(CLEARED[i]);
      ClearedRoot(dir, CLEARED[i]);
    }
    forall p ensures Below(roots, p) <==> BelowCleared(dir, p) {
      if i :| 0 <= i < |roots| && roots[i] <= p { assert Components(dir) + [CLEARED[i]] <= p; }
      if i :| 0 <= i < |CLEARED| && Components(dir) + [CLEARED[i]] <= p { assert roots[i] <= p; }
    }
  }

  /** The file of a URL with a cleared scheme is below a cleared directory. */
  lemma ClearedScheme(dir: string, u: Url)
    requires u.scheme in CLEARED
    ensures BelowCleared(dir, CacheFile(dir, u))
  {
    EscapeUnchanged(u.scheme);
    var i :| 0 <= i < |CLEARED| && CLEARED[i] == u.scheme;
    var d := Components(dir);
    assert CacheFile(dir, u)[..|d| + 1] == d + [u.scheme];
    assert d + [CLEARED[i]] <= CacheFile(dir, u);
  }

  lemma ComparableSameScheme(dir: string, u: Url, v: Url)
    requires Comparable(CacheFile(dir, u), CacheFile(dir, v))
    ensures u.scheme == v.scheme
  {
    PrefixOfCacheFile(dir, u, v);
    PrefixOfCacheFile(dir, v, u);
    assert UrlParts(u)[0] == UrlParts(v)[0];
  }

  lemma SchemesAreCleared()
    ensures "http" in CLEARED && "https" in CLEARED && "ftp" in CLEARED && "ftps" in CLEARED
  {
    assert CLEARED[0] == "ftps" && CLEARED[1] == "ftp" && CLEARED[2] == "http" && CLEARED[3] == "https";
  }

  /** After a clear every lookup with one of the four schemes downloads again. */
  lemma ClearedUrlMisses(dir: string, origin: Url -> string, ops: seq<Op>, u: Url)
    requires LooksUpWellFormed(ops) && WellFormed(u)
    requires u.scheme == "http" || u.scheme == "https" || u.scheme == "ftp" || u.scheme == "ftps"
    ensures !FileExists(Apply(Run(map[], dir, origin, ops), dir, origin, Clear), Components(UrlToPath(dir, UrlText(u))))
  {
    var files := Run(map[], dir, origin, ops);
    RunKeepsInv(map[], dir, origin, ops);
    ClearIs(files, dir);
    UrlToPathIs(dir, u);
    SchemesAreCleared();
    forall f | f in files && Comparable(f, CacheFile(dir, u)) ensures BelowCleared(dir, f) {
      assert Origin(dir, origin, f, files[f]);
      var v :| WellFormed(v) && f == CacheFile(dir, v) && files[f] == origin(v);
      ComparableSameScheme(dir, v, u);
      ClearedScheme(dir, v);
    }
  }
}
