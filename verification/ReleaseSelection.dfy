/**
  Choosing the release to offer: a loop over releases and assets, steered by flags, that
  collects the newest acceptable release and the newer ones before it in line.
 */
module ReleaseSelection {
  import opened Numerals
  import opened Options
  import opened Text
  import opened Versions

  datatype Asset = Asset(name: string, url: string)

  datatype Release = Release(prerelease: bool, tag: string, body: string, htmlUrl: string, assets: seq<Asset>)

  /** What the script knows when it starts: `bound` is empty unless the package manager limits updates. */
  datatype Config = Config(
    isSpace: char -> bool,
    allowBeta: bool,
    search: string,
    extension: string,
    bound: string,
    current: string)

  // ---------------------------------------------------------------- one asset

  predicate MarksStage(part: string)
  {
    Contains(part, "beta") || Contains(part, "alpha") || Contains(part, "rc")
  }

  /** The version named by an asset file; None if the name has no second part. */
  function AssetVersion(name: string): Option<string>
  {
    var parts := SplitOn(name, '-');
    if |parts| < 2 then None
    else if |parts| >= 3 && MarksStage(parts[2]) then
      Some(parts[1] + "." + parts[2])
    else Some(parts[1])
  }

  /** Truth value of isNewerAsset: a blank reference version counts as older than everything. */
  predicate IsNewerAsset(c: Config, name: string, curver: string)
  {
    var reference := Trim(c.isSpace, if curver == "" then c.current else curver);
    || reference == ""
    || (AssetVersion(name).Some? && IsNewer(c.isSpace, reference, AssetVersion(name).value))
  }

  predicate Acceptable(c: Config, a: Asset)
  {
    && Contains(a.name, c.search) && EndsWith(a.name, c.extension)
    && (c.bound == "" || !IsNewerAsset(c, a.name, c.bound))
  }

  /** The first acceptable asset of a release. */
  function FirstAcceptable(c: Config, assets: seq<Asset>): (r: Option<Asset>)
    ensures r.Some? ==> r.value in assets && Acceptable(c, r.value)
    ensures r.None? ==> forall a :: a in assets ==> !Acceptable(c, a)
  {
    if |assets| == 0 then None
    else if Acceptable(c, assets[0]) then Some(assets[0])
    else FirstAcceptable(c, assets[1..])
  }

  /** A blank reference is older than everything; otherwise an asset without a version is not newer. */
  lemma BlankReference(c: Config, name: string, curver: string)
    ensures var reference := Trim(c.isSpace, if curver == "" then c.current else curver);
            && (reference == "" ==> IsNewerAsset(c, name, curver))
            && (reference != "" && '-' !in name ==> !IsNewerAsset(c, name, curver))
  {
    if '-' !in name { NameWithoutDash(name); }
  }

  // ---------------------------------------------------------------- reading asset names

  lemma NameWithoutDash(name: string)
    requires '-' !in name
    ensures AssetVersion(name).None?
  {
    SplitPlain(name, '-');
  }

  lemma SplitTwo(p: string, v: string)
    requires '-' !in p && '-' !in v
    ensures SplitOn(p + "-" + v, '-') == [p, v]
  {
    SplitAppend(p, '-', v);
    SplitPlain(p, '-');
    SplitPlain(v, '-');
  }

  lemma SplitThree(p: string, v: string, q: string)
    requires '-' !in p && '-' !in v && '-' !in q
    ensures SplitOn(p + "-" + v + "-" + q, '-') == [p, v, q]
  {
    SplitTwo(p, v);
    SplitPlain(q, '-');
    SplitAppend(p + "-" + v, '-', q);
  }

  lemma SplitMore(p: string, v: string, q: string, more: string)
    requires '-' !in p && '-' !in v && '-' !in q
    ensures SplitOn(p + "-" + v + "-" + (q + "-" + more), '-') == [p, v, q] + SplitOn(more, '-')
  {
    SplitTwo(p, v);
    SplitPlain(q, '-');
    SplitAppend(p + "-" + v, '-', q + "-" + more);
    SplitAppend(q, '-', more);
  }

  lemma NameWithVersion(p: string, v: string)
    requires '-' !in p && '-' !in v
    ensures AssetVersion(p + "-" + v) == Some(v)
  {
    SplitTwo(p, v);
  }

  /** A third part belongs to the version exactly if it contains the name of a stage. */
  lemma NameWithThirdPart(p: string, v: string, q: string, more: string)
    requires '-' !in p && '-' !in v && '-' !in q
    ensures var version := if Contains(q, "beta") || Contains(q, "alpha") || Contains(q, "rc") then v + "." + q else v;
            && AssetVersion(p + "-" + v + "-" + q) == Some(version)
            && AssetVersion(p + "-" + v + "-" + (q + "-" + more)) == Some(version)
  {
    SplitThree(p, v, q);
    SplitMore(p, v, q, more);
  }

  lemma ContainsFirst(x: string, rest: string)
    ensures Contains(x + rest, x)
  {
    assert MatchesAt(x + rest, x, 0);
  }

  /** A version of the form X.Y.Z, X.Y.Z-stage.N or X.Y.Z.W. */
  datatype Written = Written(x: nat, y: nat, z: nat, tail: Tail)

  function TextOf(w: Written): string
    requires GoodTail(w.tail)
  {
    VersionText(w.x, w.y, w.z, w.tail)
  }

  function TupleOf(w: Written): Version
  {
    VersionTuple(w.x, w.y, w.z, w.tail)
  }

  /** The name of an asset: package, version, and parts that describe the platform. */
  datatype AssetName = AssetName(package: string, version: Written, platform: string, more: string)

  /** No dashes inside the parts, and no stage behind the version unless it already has one. */
  predicate Nameable(n: AssetName)
  {
    && '-' !in n.package && '-' !in n.platform && GoodTail(n.version.tail)
    && (!n.version.tail.Stage? ==> !MarksStage(n.platform))
  }

  function NameText(n: AssetName): string
    requires GoodTail(n.version.tail)
  {
    n.package + "-" + TextOf(n.version) + "-" + (n.platform + "-" + n.more)
  }

  /** The version of such an asset is read back. */
  lemma NameReadsBack(isSpace: char -> bool, n: AssetName) returns (v: string)
    requires Sane(isSpace) && Nameable(n)
    ensures AssetVersion(NameText(n)) == Some(v) && ParseVer(isSpace, v) == Some(TupleOf(n.version))
  {
    var w := n.version;
    if w.tail.Stage? {
      v := StagedNameReadsBack(isSpace, n);
    } else {
      v := TextOf(w);
      VersionHasNoDash(w.x, w.y, w.z, w.tail);
      NameWithThirdPart(n.package, v, n.platform, n.more);
      ParseReadsBack(isSpace, w.x, w.y, w.z, w.tail);
    }
  }

  lemma VersionHasNoDash(a: nat, b: nat, c: nat, t: Tail)
    requires GoodTail(t) && !t.Stage?
    ensures '-' !in VersionText(a, b, c, t)
  {
    BaseParts(a, b, c);
    if t.Revision? { DecimalIsPlain(t.number, '-'); }
  }

  lemma StagedNameReadsBack(isSpace: char -> bool, n: AssetName) returns (v: string)
    requires Sane(isSpace) && Nameable(n) && n.version.tail.Stage?
    ensures AssetVersion(NameText(n)) == Some(v) && ParseVer(isSpace, v) == Some(TupleOf(n.version))
  {
    var w := n.version;
    var base, name, number := BaseText(w.x, w.y, w.z), StageName(w.tail.rank), Decimal(w.tail.number);
    BaseParts(w.x, w.y, w.z);
    StageText(w.tail);
    v := base + "." + (name + "." + number);
    StagedName(n.package, base, name + "." + number, n.platform + "-" + n.more);
    ParseDotted(isSpace, w.x, w.y, w.z, w.tail);
  }

  lemma StageText(t: Tail)
    requires GoodTail(t) && t.Stage?
    ensures var q := StageName(t.rank) + "." + Decimal(t.number);
            TailText(t) == "-" + q && MarksStage(q) && '-' !in q
  {
    var name, number := StageName(t.rank), Decimal(t.number);
    DecimalIsPlain(t.number, '-');
    ContainsFirst(name, "." + number);
    assert name + ("." + number) == name + "." + number;
    assert "-" + name + "." + number == "-" + (name + "." + number);
  }

  lemma StagedName(p: string, base: string, q: string, rest: string)
    requires '-' !in p && '-' !in base && '-' !in q && MarksStage(q)
    ensures AssetVersion(p + "-" + (base + ("-" + q)) + "-" + rest) == Some(base + "." + q)
  {
    NameWithThirdPart(p, base, q, rest);
    Regroup(p, base, q, rest);
  }

  lemma Regroup(p: string, base: string, q: string, rest: string)
    ensures p + "-" + (base + ("-" + q)) + "-" + rest == p + "-" + base + "-" + (q + "-" + rest)
  {
  }

  /** With a dot in place of the dash a pre-release is read as the same version. */
  lemma ParseDotted(isSpace: char -> bool, a: nat, b: nat, c: nat, t: Tail)
    requires Sane(isSpace) && GoodTail(t) && t.Stage?
    ensures ParseVer(isSpace, BaseText(a, b, c) + "." + (StageName(t.rank) + "." + Decimal(t.number))) ==
            Some(VersionTuple(a, b, c, t))
  {
    var base, name, number := BaseText(a, b, c), StageName(t.rank), Decimal(t.number);
    var s := base + "." + (name + "." + number);
    BaseParts(a, b, c);
    StageNames(t.rank);
    DecimalIsPlain(t.number, '-');
    DecimalIsPlain(t.number, '.');
    DottedParts(base, name, number);
    DottedEnds(isSpace, s, Decimal(a), number);
    FieldsRead(isSpace, a, b, c, t);
  }

  lemma DottedParts(base: string, name: string, number: string)
    requires '-' !in base && '-' !in name && '-' !in number && '.' !in name && '.' !in number
    ensures var s := base + "." + (name + "." + number);
            SplitOn(ReplaceDash(s), '.') == SplitOn(base, '.') + [name, number]
  {
    NoDash(base + "." + (name + "." + number));
    SplitAppend(base, '.', name + "." + number);
    SplitAppend(name, '.', number);
    SplitPlain(name, '.');
    SplitPlain(number, '.');
  }

  lemma DottedEnds(isSpace: char -> bool, s: string, first: string, last: string)
    requires Sane(isSpace) && AllDigits(first) && AllDigits(last) && first != "" && last != ""
    requires first <= s && |last| <= |s| && s[|s| - |last|..] == last
    ensures Trim(isSpace, s) == s
  {
    assert s[0] == first[0] && s[|s| - 1] == last[|last| - 1];
    TextEnds(isSpace, s);
  }

  lemma NewerByTuples(c: Config, name: string, curver: string, reference: string, v: string, x: Version, y: Version)
    requires reference == (if curver == "" then c.current else curver)
    requires reference != "" && Trim(c.isSpace, reference) == reference && AssetVersion(name) == Some(v)
    requires ParseVer(c.isSpace, reference) == Some(x) && ParseVer(c.isSpace, v) == Some(y) && Numeric(x) && Numeric(y)
    ensures IsNewerAsset(c, name, curver) <==> LexGreater(y, x)
  {
    NewerOfTuples(c.isSpace, reference, v, x, y);
    NewerFromIsLex(x, y, 0);
  }

  lemma TextIsTrimmed(isSpace: char -> bool, w: Written)
    requires Sane(isSpace) && GoodTail(w.tail)
    ensures TextOf(w) != "" && Trim(isSpace, TextOf(w)) == TextOf(w)
  {
    TextStartsAndEnds(w.x, w.y, w.z, w.tail);
    TextEnds(isSpace, TextOf(w));
  }

  lemma TupleIsNumeric(w: Written)
    ensures Numeric(TupleOf(w))
  {
  }

  /** Against a reference in one of the three forms, such an asset is newer exactly if its tuple is greater. */
  lemma NamedAssetIsNewerIff(c: Config, curver: string, n: AssetName, w: Written)
    requires Sane(c.isSpace) && Nameable(n) && GoodTail(w.tail)
    requires (if curver == "" then c.current else curver) == TextOf(w)
    ensures IsNewerAsset(c, NameText(n), curver) <==> LexGreater(TupleOf(n.version), TupleOf(w))
  {
    var v := NameReadsBack(c.isSpace, n);
    TextIsTrimmed(c.isSpace, w);
    ParseReadsBack(c.isSpace, w.x, w.y, w.z, w.tail);
    TupleIsNumeric(w);
    TupleIsNumeric(n.version);
    NewerByTuples(c, NameText(n), curver, TextOf(w), v, TupleOf(w), TupleOf(n.version));
  }

  // ---------------------------------------------------------------- what the loop should compute

  datatype Candidate = Candidate(release: Release, asset: Asset)

  predicate Considered(c: Config, r: Release)
  {
    c.allowBeta || !r.prerelease
  }

  function CandidateOf(c: Config): Release -> seq<Candidate>
  {
    (r: Release) =>
      if !Considered(c, r) || FirstAcceptable(c, r.assets).None? then []
      else [Candidate(r, FirstAcceptable(c, r.assets).value)]
  }

  /** The candidates of the releases, in order. */
  function Candidates(candidateOf: Release -> seq<Candidate>, releases: seq<Release>): seq<Candidate>
  {
    if |releases| == 0 then [] else candidateOf(releases[0]) + Candidates(candidateOf, releases[1..])
  }

  /** Whether a candidate is newer than the installed version. */
  function NewerThanCurrent(c: Config): Candidate -> bool
  {
    (x: Candidate) => IsNewerAsset(c, x.asset.name, "")
  }

  /** The longest leading run of newer candidates. */
  function TakeNewer(newer: Candidate -> bool, cs: seq<Candidate>): seq<Candidate>
  {
    if |cs| > 0 && newer(cs[0]) then [cs[0]] + TakeNewer(newer, cs[1..]) else []
  }

  /** The first candidate, and if it is newer the run of newer ones behind it. */
  function Selected(newer: Candidate -> bool, cs: seq<Candidate>): seq<Candidate>
  {
    if |cs| == 0 then [] else [cs[0]] + (if newer(cs[0]) then TakeNewer(newer, cs[1..]) else [])
  }

  function Notes(cs: seq<Candidate>): (r: seq<(string, string)>)
    ensures |r| == |cs|
    ensures forall i :: 0 <= i < |r| ==> r[i] == (cs[i].release.tag, cs[i].release.body)
  {
    seq(|cs|, i requires 0 <= i < |cs| => (cs[i].release.tag, cs[i].release.body))
  }

  // ---------------------------------------------------------------- the loop

  /** The globals the loop writes. */
  datatype Outcome = Outcome(
    notes: seq<(string, string)>,     // release_array
    offered: Option<Candidate>,       // the release and asset recorded when exitFlag is set
    isNewer: bool)

  /** What the loop should leave, given the candidates. */
  ghost predicate IsSelection(newer: Candidate -> bool, cs: seq<Candidate>, o: Outcome)
  {
    && o.notes == Notes(Selected(newer, cs))
    && o.offered == (if cs == [] then None else Some(cs[0]))
    && o.isNewer == (cs != [] && newer(cs[0]))
  }

  /** Where the loop stands after the candidates `seen`, all of them newer. */
  ghost predicate Halfway(newer: Candidate -> bool, seen: seq<Candidate>, o: Outcome, exitFlag: bool, stopFlag: bool)
  {
    && AllNewer(newer, seen) && o.notes == Notes(seen)
    && o.offered == (if seen == [] then None else Some(seen[0]))
    && exitFlag == o.isNewer == (seen != []) && !stopFlag
  }

  function Note(x: Candidate): (string, string) { (x.release.tag, x.release.body) }

  method SelectReleases(c: Config, releases: seq<Release>) returns (o: Outcome)
    ensures IsSelection(NewerThanCurrent(c), Candidates(CandidateOf(c), releases), o)
  {
    var exitFlag, stopFlag := false, false;
    o := Outcome([], None, false);
    ghost var newer, candidateOf := NewerThanCurrent(c), CandidateOf(c);
    ghost var all := Candidates(candidateOf, releases);
    ghost var seen: seq<Candidate> := [];
    var i := 0;
    assert releases[0..] == releases && [] + all == all;
    while i < |releases|
      invariant 0 <= i <= |releases|
      invariant seen + Candidates(candidateOf, releases[i..]) == all
      invariant Halfway(newer, seen, o, exitFlag, stopFlag)
    {
      var release := releases[i];
      StepCandidates(candidateOf, releases, i, seen);
      ghost var rest := Candidates(candidateOf, releases[i + 1..]);
      i := i + 1;
      if !c.allowBeta {
        if release.prerelease {
          SkippedRelease(c, release);
          continue;
        }
      }
      var asset := FindCandidate(c, release);
      if asset.Some? {
        var found := Candidate(release, asset.value);
        var newerAsset := IsNewerThanCurrent(c, found);
        ghost var before := o;
        if exitFlag {
          if newerAsset {
            o := o.(notes := o.notes + [Note(found)]);
          } else {
            stopFlag := true;
          }
        } else {
          o := Outcome(o.notes + [Note(found)], Some(found), newerAsset);
          exitFlag := true;
          stopFlag := !o.isNewer;
        }
        if stopFlag {
          StopAt(newer, seen, found, rest, before, o);
        } else {
          GoOn(newer, seen, found, before, o);
          seen := seen + [found];
        }
      }
      if exitFlag {
        if stopFlag {
          return;
        }
      }
    }
    assert releases[i..] == [];
    assert seen + [] == seen;
    AllNewerSelected(newer, seen, []);
  }

  /** A newer candidate joins the ones before it. */
  lemma GoOn(newer: Candidate -> bool, seen: seq<Candidate>, next: Candidate, before: Outcome, o: Outcome)
    requires Halfway(newer, seen, before, seen != [], false) && newer(next)
    requires o.notes == before.notes + [Note(next)] && o.isNewer
    requires o.offered == if seen == [] then Some(next) else before.offered
    ensures Halfway(newer, seen + [next], o, true, false)
  {
    assert Notes(seen + [next]) == Notes(seen) + [Note(next)];
  }

  /** A candidate that is not newer ends the loop; it counts only if it is the first. */
  lemma StopAt(
    newer: Candidate -> bool, seen: seq<Candidate>, next: Candidate, rest: seq<Candidate>, before: Outcome, o: Outcome)
    requires Halfway(newer, seen, before, seen != [], false) && !newer(next)
    requires if seen == [] then o == Outcome(before.notes + [Note(next)], Some(next), false) else o == before
    ensures IsSelection(newer, (seen + [next]) + rest, o)
  {
    var all := (seen + [next]) + rest;
    if seen == [] {
      assert all[0] == next && Selected(newer, all) == [next];
      assert Notes([next]) == [] + [Note(next)];
    } else {
      assert all == seen + ([next] + rest);
      AllNewerSelected(newer, seen, [next] + rest);
      assert all[0] == seen[0];
    }
  }

  lemma SkippedRelease(c: Config, r: Release)
    requires !c.allowBeta && r.prerelease
    ensures CandidateOf(c)(r) == []
  {
  }

  /** The asset that makes a considered release a candidate. */
  method FindCandidate(c: Config, r: Release) returns (found: Option<Asset>)
    requires Considered(c, r)
    ensures CandidateOf(c)(r) == if found.None? then [] else [Candidate(r, found.value)]
  {
    found := FindAsset(c, r.assets);
  }

  method IsNewerThanCurrent(c: Config, x: Candidate) returns (newer: bool)
    ensures newer == NewerThanCurrent(c)(x)
  {
    newer := IsNewerAsset(c, x.asset.name, "");
  }

  /** The inner loop: it stops at the first acceptable asset. */
  method FindAsset(c: Config, assets: seq<Asset>) returns (found: Option<Asset>)
    ensures found == FirstAcceptable(c, assets)
    ensures found.None? <==> forall i :: 0 <= i < |assets| ==> !Acceptable(c, assets[i])
    ensures found.Some? ==> exists i :: 0 <= i < |assets| && assets[i] == found.value && Acceptable(c, assets[i])
                                        && forall j :: 0 <= j < i ==> !Acceptable(c, assets[j])
  {
    var j := 0;
    assert assets[0..] == assets;
    while j < |assets|
      invariant 0 <= j <= |assets|
      invariant FirstAcceptable(c, assets) == FirstAcceptable(c, assets[j..])
      invariant forall i :: 0 <= i < j ==> !Acceptable(c, assets[i])
    {
      assert assets[j..][1..] == assets[j + 1..];
      var name := assets[j].name;
      if Contains(name, c.search) && EndsWith(name, c.extension) {
        if c.bound == "" || !IsNewerAsset(c, name, c.bound) {
          return Some(assets[j]);
        }
      }
      j := j + 1;
    }
    return None;
  }

  predicate AllNewer(newer: Candidate -> bool, cs: seq<Candidate>)
  {
    forall i :: 0 <= i < |cs| ==> newer(cs[i])
  }

  lemma StepCandidates(
    candidateOf: Release -> seq<Candidate>, releases: seq<Release>, i: nat, seen: seq<Candidate>)
    requires i < |releases|
    ensures seen + Candidates(candidateOf, releases[i..]) ==
            (seen + candidateOf(releases[i])) + Candidates(candidateOf, releases[i + 1..])
    ensures seen + [] == seen
  {
    assert releases[i..][0] == releases[i] && releases[i..][1..] == releases[i + 1..];
    Associate(seen, candidateOf(releases[i]), Candidates(candidateOf, releases[i + 1..]));
  }

  lemma Associate(a: seq<Candidate>, b: seq<Candidate>, d: seq<Candidate>)
    ensures a + (b + d) == (a + b) + d
  {
  }

  lemma {:induction false} TakeNewerAll(newer: Candidate -> bool, cs: seq<Candidate>, rest: seq<Candidate>)
    requires AllNewer(newer, cs) && (rest != [] ==> !newer(rest[0]))
    ensures TakeNewer(newer, cs + rest) == cs
  {
    if |cs| == 0 {
      assert cs + rest == rest;
    } else {
      assert (cs + rest)[1..] == cs[1..] + rest;
      TakeNewerAll(newer, cs[1..], rest);
      assert cs == [cs[0]] + cs[1..];
    }
  }

  /** A run of newer candidates is selected as a whole. */
  lemma AllNewerSelected(newer: Candidate -> bool, cs: seq<Candidate>, rest: seq<Candidate>)
    requires AllNewer(newer, cs) && (rest != [] ==> cs != [] && !newer(rest[0]))
    ensures Selected(newer, cs + rest) == cs
  {
    if cs != [] {
      assert (cs + rest)[1..] == cs[1..] + rest && (cs + rest)[0] == cs[0];
      TakeNewerAll(newer, cs[1..], rest);
      assert cs == [cs[0]] + cs[1..];
    }
  }

  // ---------------------------------------------------------------- what is offered

  /** A release with an asset for this platform that the bound allows; pre-releases only if betas are allowed. */
  ghost predicate Qualifies(c: Config, r: Release)
  {
    && (r.prerelease ==> c.allowBeta)
    && exists j :: 0 <= j < |r.assets| && Suits(c, r, j)
  }

  /** The `j`-th asset of a release is for this platform and within the bound. */
  ghost predicate Suits(c: Config, r: Release, j: nat)
    requires j < |r.assets|
  {
    var name := r.assets[j].name;
    && Contains(name, c.search) && EndsWith(name, c.extension)
    && (c.bound != "" ==> !IsNewerAsset(c, name, c.bound))
  }

  ghost function QualifiesIn(c: Config): Release -> bool
  {
    (r: Release) => Qualifies(c, r)
  }

  ghost function SuitedIn(c: Config): (Release, Candidate) -> bool
  {
    (r: Release, x: Candidate) => IsFirstSuited(c, r, x)
  }

  /** The candidates are the qualifying releases in order, at the positions `at`, each with its first suitable asset. */
  ghost predicate CandidatesAt(
    qualifies: Release -> bool, suited: (Release, Candidate) -> bool,
    releases: seq<Release>, cs: seq<Candidate>, at: seq<nat>)
  {
    && Increasing(at) && SuitedAt(suited, releases, cs, at)
    && (forall i :: 0 <= i < |releases| && qualifies(releases[i]) ==> i in at)
  }

  predicate Increasing(at: seq<nat>)
  {
    forall k, l :: 0 <= k < l < |at| ==> at[k] < at[l]
  }

  ghost predicate SuitedAt(
    suited: (Release, Candidate) -> bool, releases: seq<Release>, cs: seq<Candidate>, at: seq<nat>)
  {
    |at| == |cs| && forall k :: 0 <= k < |at| ==> at[k] < |releases| && suited(releases[at[k]], cs[k])
  }

  ghost predicate IsFirstSuited(c: Config, r: Release, x: Candidate)
  {
    && x.release == r && (r.prerelease ==> c.allowBeta)
    && exists j :: 0 <= j < |r.assets| && x.asset == r.assets[j] && Suits(c, r, j)
                   && forall i :: 0 <= i < j ==> !Suits(c, r, i)
  }

  lemma {:induction false} FirstAcceptableAt(c: Config, assets: seq<Asset>) returns (j: nat)
    requires FirstAcceptable(c, assets).Some?
    ensures j < |assets| && assets[j] == FirstAcceptable(c, assets).value
    ensures Acceptable(c, assets[j]) && forall i :: 0 <= i < j ==> !Acceptable(c, assets[i])
  {
    if Acceptable(c, assets[0]) {
      j := 0;
    } else {
      j := FirstAcceptableAt(c, assets[1..]);
      assert forall i :: 1 <= i < |assets| ==> assets[i] == assets[1..][i - 1];
      j := j + 1;
    }
  }

  lemma CandidateOfIs(c: Config, r: Release)
    ensures Qualifies(c, r) <==> CandidateOf(c)(r) != []
    ensures CandidateOf(c)(r) != [] ==> |CandidateOf(c)(r)| == 1 && IsFirstSuited(c, r, CandidateOf(c)(r)[0])
  {
    forall j | 0 <= j < |r.assets| ensures (Suits(c, r, j) <==> Acceptable(c, r.assets[j])) && r.assets[j] in r.assets {
    }
    if CandidateOf(c)(r) != [] {
      var j := FirstAcceptableAt(c, r.assets);
      assert Suits(c, r, j);
    }
  }

  lemma {:induction false} CandidatesAre(c: Config, releases: seq<Release>) returns (at: seq<nat>)
    ensures CandidatesAt(QualifiesIn(c), SuitedIn(c), releases, Candidates(CandidateOf(c), releases), at)
  {
    if |releases| == 0 {
      at := [];
    } else {
      var rest := CandidatesAre(c, releases[1..]);
      CandidateOfIs(c, releases[0]);
      var tail, first := Candidates(CandidateOf(c), releases[1..]), CandidateOf(c)(releases[0]);
      at := Shifted(rest);
      if first == [] {
        assert first + tail == tail;
        ReleaseSkipped(QualifiesIn(c), SuitedIn(c), releases, tail, rest);
      } else {
        assert first == [first[0]];
        ReleaseTaken(QualifiesIn(c), SuitedIn(c), releases, tail, first[0], rest);
        at := [0] + at;
      }
    }
  }

  function Shifted(at: seq<nat>): (r: seq<nat>)
    ensures |r| == |at| && forall k :: 0 <= k < |r| ==> r[k] == at[k] + 1
  {
    seq(|at|, k requires 0 <= k < |at| => at[k] + 1)
  }

  lemma QualifyingShifted(
    qualifies: Release -> bool, suited: (Release, Candidate) -> bool,
    releases: seq<Release>, tail: seq<Candidate>, rest: seq<nat>, i: nat)
    requires |releases| > 0 && CandidatesAt(qualifies, suited, releases[1..], tail, rest)
    requires 0 < i < |releases| && qualifies(releases[i])
    ensures i in Shifted(rest)
  {
    assert releases[1..][i - 1] == releases[i];
    var k :| 0 <= k < |rest| && rest[k] == i - 1;
    assert Shifted(rest)[k] == i;
  }

  lemma ShiftedSuited(
    suited: (Release, Candidate) -> bool, releases: seq<Release>, tail: seq<Candidate>, rest: seq<nat>)
    requires |releases| > 0 && SuitedAt(suited, releases[1..], tail, rest)
    ensures SuitedAt(suited, releases, tail, Shifted(rest))
  {
    forall k | 0 <= k < |rest|
      ensures Shifted(rest)[k] < |releases| && suited(releases[Shifted(rest)[k]], tail[k])
    {
      assert releases[1..][rest[k]] == releases[rest[k] + 1];
    }
  }

  lemma ConsSuited(
    suited: (Release, Candidate) -> bool, releases: seq<Release>, x: Candidate, tail: seq<Candidate>, at: seq<nat>)
    requires |releases| > 0 && suited(releases[0], x) && SuitedAt(suited, releases, tail, at)
    ensures SuitedAt(suited, releases, [x] + tail, [0] + at)
  {
  }

  lemma ConsIncreasing(rest: seq<nat>)
    requires Increasing(rest)
    ensures Increasing(Shifted(rest)) && Increasing([0] + Shifted(rest))
  {
  }

  lemma ReleaseSkipped(
    qualifies: Release -> bool, suited: (Release, Candidate) -> bool,
    releases: seq<Release>, tail: seq<Candidate>, rest: seq<nat>)
    requires |releases| > 0 && CandidatesAt(qualifies, suited, releases[1..], tail, rest) && !qualifies(releases[0])
    ensures CandidatesAt(qualifies, suited, releases, tail, Shifted(rest))
  {
    ConsIncreasing(rest);
    ShiftedSuited(suited, releases, tail, rest);
    forall i | 0 <= i < |releases| && qualifies(releases[i]) ensures i in Shifted(rest) {
      QualifyingShifted(qualifies, suited, releases, tail, rest, i);
    }
  }

  lemma ReleaseTaken(
    qualifies: Release -> bool, suited: (Release, Candidate) -> bool,
    releases: seq<Release>, tail: seq<Candidate>, x: Candidate, rest: seq<nat>)
    requires |releases| > 0 && CandidatesAt(qualifies, suited, releases[1..], tail, rest) && suited(releases[0], x)
    ensures CandidatesAt(qualifies, suited, releases, [x] + tail, [0] + Shifted(rest))
  {
    ConsIncreasing(rest);
    ShiftedSuited(suited, releases, tail, rest);
    ConsSuited(suited, releases, x, tail, Shifted(rest));
    forall i | 0 < i < |releases| && qualifies(releases[i]) ensures i in Shifted(rest) {
      QualifyingShifted(qualifies, suited, releases, tail, rest, i);
    }
    assert forall i :: i == 0 || i in Shifted(rest) ==> i in [0] + Shifted(rest);
  }

  lemma {:induction false} CandidatesAreAcceptable(c: Config, releases: seq<Release>)
    ensures forall i :: 0 <= i < |Candidates(CandidateOf(c), releases)| ==>
              var x := Candidates(CandidateOf(c), releases)[i];
              x.release in releases && x.asset in x.release.assets && Acceptable(c, x.asset) && Considered(c, x.release)
  {
    if |releases| > 0 {
      CandidatesAreAcceptable(c, releases[1..]);
      assert releases == [releases[0]] + releases[1..];
    }
  }

  /** The selection is a prefix of the candidates, cut at the first one that is not newer. */
  lemma SelectedIsMaximalRun(newer: Candidate -> bool, cs: seq<Candidate>)
    ensures var s := Selected(newer, cs);
            && |s| <= |cs| && s == cs[..|s|]
            && (forall i :: 1 <= i < |s| ==> newer(s[i]))
            && (|s| > 1 ==> newer(s[0]))
            && (cs != [] && newer(cs[0]) && |s| < |cs| ==> !newer(cs[|s|]))
  {
    if |cs| > 0 && newer(cs[0]) {
      TakeNewerIsRun(newer, cs[1..]);
      var t := TakeNewer(newer, cs[1..]);
      assert [cs[0]] + cs[1..][..|t|] == cs[..|t| + 1];
      if |t| < |cs[1..]| { assert cs[1..][|t|] == cs[|t| + 1]; }
    }
  }

  lemma {:induction false} TakeNewerIsRun(newer: Candidate -> bool, cs: seq<Candidate>)
    ensures var t := TakeNewer(newer, cs);
            && |t| <= |cs| && t == cs[..|t|] && AllNewer(newer, t)
            && (|t| < |cs| ==> !newer(cs[|t|]))
  {
    if |cs| > 0 && newer(cs[0]) {
      TakeNewerIsRun(newer, cs[1..]);
      var t := TakeNewer(newer, cs[1..]);
      assert [cs[0]] + cs[1..][..|t|] == cs[..|t| + 1];
      if |t| < |cs[1..]| { assert cs[1..][|t|] == cs[|t| + 1]; }
    }
  }

  /**
    An offered asset fits the platform, is newer than the current version, within the bound, and
    stable unless betas are allowed.
   */
  lemma OfferedIsNewer(c: Config, releases: seq<Release>)
    requires Trim(c.isSpace, c.current) != ""
    ensures var cs := Candidates(CandidateOf(c), releases);
            cs != [] && NewerThanCurrent(c)(cs[0]) ==>
              var r, a := cs[0].release, cs[0].asset;
              && r in releases && a in r.assets && (r.prerelease ==> c.allowBeta)
              && Contains(a.name, c.search) && EndsWith(a.name, c.extension)
              && AssetVersion(a.name).Some?
              && IsNewer(c.isSpace, Trim(c.isSpace, c.current), AssetVersion(a.name).value)
              && (c.bound != "" ==>
                    && Trim(c.isSpace, c.bound) != ""
                    && !IsNewer(c.isSpace, Trim(c.isSpace, c.bound), AssetVersion(a.name).value))
  {
    CandidatesAreAcceptable(c, releases);
  }

  /** With versions in the written forms: the offered tuple is greater than the installed one. */
  lemma OfferedTupleIsGreater(c: Config, releases: seq<Release>, n: AssetName, current: Written)
    requires Sane(c.isSpace) && Nameable(n) && GoodTail(current.tail) && c.current == TextOf(current)
    requires var cs := Candidates(CandidateOf(c), releases); cs != [] && cs[0].asset.name == NameText(n)
    ensures var cs := Candidates(CandidateOf(c), releases);
            NewerThanCurrent(c)(cs[0]) <==> LexGreater(TupleOf(n.version), TupleOf(current))
  {
    NamedAssetIsNewerIff(c, "", n, current);
  }

  /** And no candidate is above the bound. */
  lemma CandidatesWithinBound(c: Config, releases: seq<Release>, i: nat, n: AssetName, bound: Written)
    requires Sane(c.isSpace) && Nameable(n) && GoodTail(bound.tail) && c.bound == TextOf(bound)
    requires var cs := Candidates(CandidateOf(c), releases); i < |cs| && cs[i].asset.name == NameText(n)
    ensures !LexGreater(TupleOf(n.version), TupleOf(bound))
  {
    CandidatesAreAcceptable(c, releases);
    TextIsTrimmed(c.isSpace, bound);
    NamedAssetIsNewerIff(c, c.bound, n, bound);
  }
}
