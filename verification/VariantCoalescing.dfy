/**
  From exported applications to catalog cards: applications with the same name are
  merged, then the variants of one family are coalesced into a single card.
 */
module VariantCoalescing {
  import opened Grouping
  import opened Lists
  import opened Numerals
  import opened Options
  import opened Text

  // ---------------------------------------------------------------- names

  predicate IsAlnum(c: char) { 'a' <= c <= 'z' || '0' <= c <= '9' }

  /** A nonempty run of [a-z0-9]. */
  predicate IsToken(s: string)
  {
    s != "" && forall i :: 0 <= i < |s| ==> IsAlnum(s[i])
  }

  predicate AllTokens(ts: seq<string>)
  {
    forall i :: 0 <= i < |ts| ==> IsToken(ts[i])
  }

  /** The maximal runs of [a-z0-9], with `open` the run still being read. */
  function FindAll(s: string, open: string): seq<string>
  {
    var closed := if open == "" then [] else [open];
    if |s| == 0 then closed
    else if IsAlnum(s[0]) then FindAll(s[1..], open + [s[0]])
    else closed + FindAll(s[1..], "")
  }

  /** `str.split()` on text whose only white space is the blank. */
  function Words(s: string): seq<string>
  {
    NonEmpty(SplitOn(s, ' '))
  }

  function Normalized(casefold: string -> string, name: string): string
  {
    Join(FindAll(casefold(name), ""), " ")
  }

  /** The tables behind names: Unicode case folding, variant suffixes and display names. */
  datatype Naming = Naming(casefold: string -> string, suffixes: set<string>, display: map<string, string>)

  /** Drops variant suffixes from the end, always leaving one token. */
  function Trim(tokens: seq<string>, suffixes: set<string>): seq<string>
  {
    if |tokens| > 1 && tokens[|tokens| - 1] in suffixes then Trim(tokens[..|tokens| - 1], suffixes) else tokens
  }

  function Family(n: Naming, name: string): string
  {
    Join(Trim(Words(Normalized(n.casefold, name)), n.suffixes), " ")
  }

  method ApplicationFamily(n: Naming, name: string) returns (family: string)
    ensures family == Family(n, name)
  {
    var tokens := Words(Normalized(n.casefold, name));
    ghost var all := tokens;
    while |tokens| > 1 && tokens[|tokens| - 1] in n.suffixes
      invariant Trim(tokens, n.suffixes) == Trim(all, n.suffixes)
    {
      tokens := tokens[..|tokens| - 1];
    }
    return Join(tokens, " ");
  }

  /** Exactly the trailing suffixes go, except that the first token stays. */
  lemma {:induction false} TrimDropsSuffixes(tokens: seq<string>, suffixes: set<string>)
    ensures var k := |Trim(tokens, suffixes)|;
            && k <= |tokens| && Trim(tokens, suffixes) == tokens[..k] && (|tokens| > 0 ==> k > 0)
            && (forall i :: k <= i < |tokens| ==> tokens[i] in suffixes)
            && (k > 1 ==> tokens[k - 1] !in suffixes)
  {
    if |tokens| > 1 && tokens[|tokens| - 1] in suffixes {
      var front := tokens[..|tokens| - 1];
      TrimDropsSuffixes(front, suffixes);
      var k := |Trim(front, suffixes)|;
      assert front[..k] == tokens[..k];
      forall i | k <= i < |tokens| ensures tokens[i] in suffixes {
        if i < |front| { assert front[i] == tokens[i]; }
      }
      if k > 1 { assert front[k - 1] == tokens[k - 1]; }
    } else {
      assert tokens[..|tokens|] == tokens;
    }
  }

  lemma {:induction false} FindAllTokens(s: string, open: string)
    requires open == "" || IsToken(open)
    ensures AllTokens(FindAll(s, open))
  {
    if |s| > 0 {
      if IsAlnum(s[0]) { FindAllTokens(s[1..], open + [s[0]]); }
      else { FindAllTokens(s[1..], ""); }
    }
  }

  lemma {:induction false} FindAllRun(t: string, rest: string, open: string)
    requires forall i :: 0 <= i < |t| ==> IsAlnum(t[i])
    ensures FindAll(t + rest, open) == FindAll(rest, open + t)
  {
    if |t| == 0 {
      assert t + rest == rest && open + t == open;
    } else {
      assert (t + rest)[1..] == t[1..] + rest;
      assert open + [t[0]] + t[1..] == open + t;
      FindAllRun(t[1..], rest, open + [t[0]]);
    }
  }

  /** Tokens joined by blanks are found again. */
  lemma {:induction false} FindAllJoin(tokens: seq<string>)
    requires AllTokens(tokens)
    ensures FindAll(Join(tokens, " "), "") == tokens
  {
    if |tokens| == 1 {
      var t := tokens[0];
      assert IsToken(t);
      FindAllRun(t, "", "");
      assert t + "" == t && "" + t == t;
    } else if |tokens| > 1 {
      var t, rest := tokens[0], Join(tokens[1..], " ");
      assert IsToken(t);
      FindAllRun(t, " " + rest, "");
      assert t + (" " + rest) == Join(tokens, " ") && "" + t == t;
      assert (" " + rest)[1..] == rest;
      FindAllJoin(tokens[1..]);
      assert [t] + tokens[1..] == tokens;
    }
  }

  lemma {:induction false} NonEmptyTokens(ts: seq<string>)
    requires AllTokens(ts)
    ensures NonEmpty(ts) == ts
  {
    if |ts| > 0 {
      assert IsToken(ts[0]);
      NonEmptyTokens(ts[1..]);
      assert ts == [ts[0]] + ts[1..];
    }
  }

  lemma WordsJoin(tokens: seq<string>)
    requires AllTokens(tokens)
    ensures Words(Join(tokens, " ")) == tokens
  {
    if |tokens| == 0 {
      assert NonEmpty([""]) == NonEmpty([""][1..]);
    } else {
      forall i | 0 <= i < |tokens| ensures ' ' !in tokens[i] { assert IsToken(tokens[i]); }
      SplitJoin(tokens, ' ');
      NonEmptyTokens(tokens);
    }
  }

  /** Tokens end exactly at the characters that are no letters or digits; with the last run this fixes them all. */
  lemma TokensAre(t: string, c: char, rest: string)
    requires forall i :: 0 <= i < |t| ==> IsAlnum(t[i])
    requires !IsAlnum(c)
    ensures FindAll(t, "") == if t == "" then [] else [t]
    ensures FindAll(t + [c] + rest, "") == (if t == "" then [] else [t]) + FindAll(rest, "")
  {
    FindAllRun(t, "", "");
    FindAllRun(t, [c] + rest, "");
    assert t + "" == t && "" + t == t && t + ([c] + rest) == t + [c] + rest && ([c] + rest)[1..] == rest;
  }

  /** The family of a name is made of its leading tokens; what is left out are suffixes. */
  lemma FamilyTokens(n: Naming, name: string) returns (k: nat)
    ensures var tokens := FindAll(n.casefold(name), "");
            && k <= |tokens| && Family(n, name) == Join(tokens[..k], " ")
            && (forall i :: k <= i < |tokens| ==> tokens[i] in n.suffixes)
            && (k > 1 ==> tokens[k - 1] !in n.suffixes) && (|tokens| > 0 ==> k > 0)
  {
    var tokens := FindAll(n.casefold(name), "");
    FindAllTokens(n.casefold(name), "");
    WordsJoin(tokens);
    TrimDropsSuffixes(tokens, n.suffixes);
    k := |Trim(tokens, n.suffixes)|;
  }

  /** Text that consists of tokens and blanks; case folding leaves it alone. */
  predicate Folded(s: string)
  {
    forall i :: 0 <= i < |s| ==> IsAlnum(s[i]) || s[i] == ' '
  }

  lemma {:induction false} JoinFolded(tokens: seq<string>)
    requires AllTokens(tokens)
    ensures Folded(Join(tokens, " "))
  {
    if |tokens| == 1 {
      assert IsToken(tokens[0]);
    } else if |tokens| > 1 {
      assert IsToken(tokens[0]);
      JoinFolded(tokens[1..]);
    }
  }

  /** The family of a family is the family itself. */
  lemma FamilyIdempotent(n: Naming, name: string)
    requires forall s :: Folded(s) ==> n.casefold(s) == s
    ensures Family(n, Family(n, name)) == Family(n, name)
  {
    var tokens := FindAll(n.casefold(name), "");
    FindAllTokens(n.casefold(name), "");
    WordsJoin(tokens);
    var kept := Trim(tokens, n.suffixes);
    TrimDropsSuffixes(tokens, n.suffixes);
    assert AllTokens(kept) by {
      forall i | 0 <= i < |kept| ensures IsToken(kept[i]) { assert kept[i] == tokens[i]; }
    }
    JoinFolded(kept);
    FindAllJoin(kept);
    WordsJoin(kept);
    TrimTwice(tokens, n.suffixes);
  }

  lemma TrimTwice(tokens: seq<string>, suffixes: set<string>)
    ensures Trim(Trim(tokens, suffixes), suffixes) == Trim(tokens, suffixes)
  {
    var kept := Trim(tokens, suffixes);
    TrimDropsSuffixes(tokens, suffixes);
    if |kept| > 1 { assert kept[|kept| - 1] == tokens[|kept| - 1]; }
  }

  // ---------------------------------------------------------------- merging by name

  /** An exported application; `name` is its display name, `technical` concerns its original name. */
  datatype Application = Application(id: string, name: string, hasIcon: bool, technical: bool, profiles: seq<int>)

  datatype Entry = Entry(
    id: string, name: string, technical: bool,
    profiles: seq<int>, ids: seq<string>, variantNames: seq<string>)

  function NewEntry(a: Application): Entry
  {
    Entry(a.id, a.name, a.technical, Unique(a.profiles), [a.id], [a.name])
  }

  /** A later application with the same name; it takes over from a technical one. */
  function Absorb(e: Entry, a: Application): Entry
  {
    var main := if e.technical && !a.technical then e.(id := a.id, name := a.name, technical := false) else e;
    main.(profiles := Unique(e.profiles + a.profiles),
          ids := Unique(e.ids + [a.id]),
          variantNames := Unique(e.variantNames + [a.name]))
  }

  function EntryOf(apps: seq<Application>): Entry
    requires |apps| > 0
  {
    if |apps| == 1 then NewEntry(apps[0]) else Absorb(EntryOf(apps[..|apps| - 1]), apps[|apps| - 1])
  }

  function WithIcons(apps: seq<Application>): seq<Application>
  {
    if |apps| == 0 then []
    else
      var front, last := WithIcons(apps[..|apps| - 1]), apps[|apps| - 1];
      if last.hasIcon then front + [last] else front
  }

  function NameKey(casefold: string -> string): Application -> string
  {
    (a: Application) => casefold(a.name)
  }

  /** The merged entries are the groups of equal keys, each absorbed in order. */
  ghost predicate MergedFrom(casefold: string -> string, apps: seq<Application>, merged: seq<Slot<Entry>>)
  {
    var groups := GroupBy(WithIcons(apps), NameKey(casefold));
    Matches(groups, merged)
  }

  ghost predicate Matches(groups: seq<Group<Application>>, merged: seq<Slot<Entry>>)
  {
    && |merged| == |groups|
    && (forall g :: 0 <= g < |groups| ==>
          merged[g].key == groups[g].key && |groups[g].value| > 0 && merged[g].value == EntryOf(groups[g].value))
  }

  method MergeNames(casefold: string -> string, apps: seq<Application>) returns (merged: seq<Slot<Entry>>)
    ensures MergedFrom(casefold, apps, merged)
  {
    merged := [];
    var i := 0;
    while i < |apps|
      invariant 0 <= i <= |apps|
      invariant MergedFrom(casefold, apps[..i], merged)
    {
      var a := apps[i];
      assert apps[..i + 1][..i] == apps[..i];
      if a.hasIcon {
        var key := casefold(a.name);
        MergeStep(casefold, apps, i, merged);
        var k := Find(merged, key);
        if k < |merged| {
          merged := merged[k := Slot(key, Absorb(merged[k].value, a))];
        } else {
          merged := merged + [Slot(key, NewEntry(a))];
        }
      }
      i := i + 1;
    }
    assert apps[..i] == apps;
  }

  lemma MergeStep(casefold: string -> string, apps: seq<Application>, i: nat, merged: seq<Slot<Entry>>)
    requires i < |apps| && apps[i].hasIcon && MergedFrom(casefold, apps[..i], merged)
    ensures MergedFrom(casefold, apps[..i + 1], Update(merged, casefold(apps[i].name), apps[i]))
  {
    var a, icons := apps[i], WithIcons(apps[..i]);
    assert apps[..i + 1][..i] == apps[..i];
    assert WithIcons(apps[..i + 1]) == icons + [a];
    assert (icons + [a])[..|icons|] == icons;
    InsertMatches(GroupBy(icons, NameKey(casefold)), merged, casefold(a.name), a);
  }

  /** Updating the dictionary follows inserting into the groups. */
  function Update(merged: seq<Slot<Entry>>, key: string, a: Application): seq<Slot<Entry>>
  {
    var k := Find(merged, key);
    if k < |merged| then merged[k := Slot(key, Absorb(merged[k].value, a))] else merged + [Slot(key, NewEntry(a))]
  }

  lemma InsertMatches(groups: seq<Group<Application>>, merged: seq<Slot<Entry>>, key: string, a: Application)
    requires Matches(groups, merged)
    ensures Matches(Insert(groups, key, a), Update(merged, key, a))
  {
    var g := Find(groups, key);
    SameFind(groups, merged, key);
    if g < |groups| {
      EntrySnoc(groups[g].value, a);
    } else {
      assert EntryOf([a]) == NewEntry(a);
    }
  }

  lemma {:induction false} SameFind(groups: seq<Group<Application>>, merged: seq<Slot<Entry>>, key: string)
    requires |groups| == |merged| && forall g :: 0 <= g < |groups| ==> merged[g].key == groups[g].key
    ensures Find(groups, key) == Find(merged, key)
  {
    if |groups| > 0 && groups[0].key != key { SameFind(groups[1..], merged[1..], key); }
  }

  lemma EntrySnoc(items: seq<Application>, a: Application)
    requires |items| > 0
    ensures EntryOf(items + [a]) == Absorb(EntryOf(items), a)
  {
    assert (items + [a])[..|items|] == items;
  }

  /** The application that an entry takes id and name from: the first that is not technical, else the very first. */
  ghost predicate Leads(apps: seq<Application>, q: nat)
  {
    && q < |apps|
    && (forall j :: 0 <= j < q ==> apps[j].technical)
    && (apps[q].technical ==> q == 0 && forall j :: 0 <= j < |apps| ==> apps[j].technical)
  }

  lemma LeadsSnoc(front: seq<Application>, a: Application, q: nat)
    requires Leads(front, q)
    ensures Leads(front + [a], if front[q].technical && !a.technical then |front| else q)
  {
  }

  lemma AbsorbLeader(e: Entry, a: Application)
    ensures var r := Absorb(e, a);
            if e.technical && !a.technical then r.id == a.id && r.name == a.name && r.technical == a.technical
            else r.id == e.id && r.name == e.name && r.technical == e.technical
  {
  }

  lemma {:induction false} EntryLeader(apps: seq<Application>) returns (q: nat)
    requires |apps| > 0
    ensures Leads(apps, q)
    ensures var e := EntryOf(apps); e.id == apps[q].id && e.name == apps[q].name && e.technical == apps[q].technical
  {
    if |apps| == 1 {
      q := 0;
    } else {
      var front, last := apps[..|apps| - 1], apps[|apps| - 1];
      var r := EntryLeader(front);
      LeadsSnoc(front, last, r);
      AbsorbLeader(EntryOf(front), last);
      assert front + [last] == apps;
      q := if front[r].technical && !last.technical then |front| else r;
    }
  }

  // ---------------------------------------------------------------- coalescing

  function FamilyKey(n: Naming): Entry -> string
  {
    (e: Entry) => Family(n, e.name)
  }

  datatype Card = Card(
    family: string, id: string, name: string,
    profiles: seq<int>, legacyIds: seq<string>, variantNames: seq<string>)

  /** The sort key of `min`: unsuffixed first, then shorter, then the older numeric id. */
  predicate Prefer(n: Naming, family: string, a: Entry, b: Entry)
  {
    var na, nb := Normalized(n.casefold, a.name), Normalized(n.casefold, b.name);
    if (na != family) != (nb != family) then na == family
    else if |na| != |nb| then |na| < |nb|
    else IdBefore(a.id, b.id)
  }

  predicate IsNumeric(id: string) { id != "" && AllDigits(id) }

  /** Ids that are not numbers count as infinite. */
  predicate IdBefore(a: string, b: string)
  {
    IsNumeric(a) && (!IsNumeric(b) || Number(a) < Number(b))
  }

  /** The position that `min` settles on, reading from the left. */
  function Primary(n: Naming, family: string, variants: seq<Entry>): (p: nat)
    requires |variants| > 0
    ensures p < |variants|
  {
    var last := |variants| - 1;
    if last == 0 then 0
    else
      var p := Primary(n, family, variants[..last]);
      if Prefer(n, family, variants[last], variants[p]) then last else p
  }

  lemma PreferWeak(n: Naming, family: string, a: Entry, b: Entry, c: Entry)
    requires Prefer(n, family, a, b) && !Prefer(n, family, c, b)
    ensures Prefer(n, family, a, c) && !Prefer(n, family, c, a)
  {
  }

  /** It is the first of the variants that no other is preferred to. */
  lemma {:induction false} PrimaryIsFirstBest(n: Naming, family: string, variants: seq<Entry>)
    requires |variants| > 0
    ensures var p := Primary(n, family, variants);
            && (forall v :: 0 <= v < |variants| ==> !Prefer(n, family, variants[v], variants[p]))
            && (forall v :: 0 <= v < p ==> Prefer(n, family, variants[p], variants[v]))
  {
    var last := |variants| - 1;
    if last > 0 {
      var front := variants[..last];
      PrimaryIsFirstBest(n, family, front);
      var p := Primary(n, family, front);
      if Prefer(n, family, variants[last], variants[p]) {
        forall v | 0 <= v < last
          ensures Prefer(n, family, variants[last], variants[v]) && !Prefer(n, family, variants[v], variants[last])
        {
          assert front[v] == variants[v];
          PreferWeak(n, family, variants[last], variants[p], variants[v]);
        }
      } else {
        assert forall v :: 0 <= v < last ==> front[v] == variants[v];
      }
    }
  }

  /** Equal as sort keys: the same number, or no numbers at all. */
  predicate SameNumber(a: string, b: string)
  {
    IsNumeric(a) == IsNumeric(b) && (IsNumeric(a) ==> Number(a) == Number(b))
  }

  /**
    The entry at `p` stands for its family: it bears the family's own name if some entry does; among
    those that qualify its normalized name is shortest; among those its id is the smallest number, ids
    that are no numbers counting last; and among equals it is the first.
   */
  ghost predicate StandsFor(n: Naming, family: string, entries: seq<Entry>, p: nat)
  {
    && p < |entries| && Family(n, entries[p].name) == family
    && forall v :: 0 <= v < |entries| && Family(n, entries[v].name) == family ==>
         NoBetter(Normalized(n.casefold, entries[v].name), entries[v].id, v,
                  Normalized(n.casefold, entries[p].name), entries[p].id, p, family)
  }

  /** Name `y` with id `b` at position `v` is no better than `x` with `a` at `p`. */
  ghost predicate NoBetter(y: string, b: string, v: nat, x: string, a: string, p: nat, family: string)
  {
    && (y == family ==> x == family)
    && ((x == family <==> y == family) ==> |x| <= |y|)
    && ((x == family <==> y == family) && |x| == |y| ==>
          && (IsNumeric(b) ==> IsNumeric(a) && Number(a) <= Number(b))
          && (SameNumber(a, b) ==> p <= v))
  }

  lemma PreferMeans(n: Naming, family: string, a: Entry, b: Entry, p: nat, v: nat)
    requires !Prefer(n, family, b, a) && (v < p ==> Prefer(n, family, a, b))
    ensures NoBetter(Normalized(n.casefold, b.name), b.id, v, Normalized(n.casefold, a.name), a.id, p, family)
  {
  }

  method ChoosePrimary(n: Naming, family: string, variants: seq<Entry>) returns (p: nat)
    requires |variants| > 0
    ensures p == Primary(n, family, variants)
  {
    p := 0;
    var i := 1;
    while i < |variants|
      invariant 1 <= i <= |variants|
      invariant p == Primary(n, family, variants[..i])
    {
      assert variants[..i + 1][..i] == variants[..i];
      if Prefer(n, family, variants[i], variants[p]) {
        p := i;
      }
      i := i + 1;
    }
    assert variants[..i] == variants;
  }

  function AllProfiles(variants: seq<Entry>): seq<int>
  {
    if |variants| == 0 then [] else AllProfiles(variants[..|variants| - 1]) + variants[|variants| - 1].profiles
  }

  function AllIds(variants: seq<Entry>): seq<string>
  {
    if |variants| == 0 then [] else AllIds(variants[..|variants| - 1]) + variants[|variants| - 1].ids
  }

  function AllNames(variants: seq<Entry>): seq<string>
  {
    if |variants| == 0 then [] else AllNames(variants[..|variants| - 1]) + variants[|variants| - 1].variantNames
  }

  function WithoutId(ids: seq<string>, id: string): (r: seq<string>)
    ensures forall x :: x in r <==> x in ids && x != id
    ensures NoDuplicates(ids) ==> NoDuplicates(r)
  {
    if |ids| == 0 then []
    else
      var front, last := WithoutId(ids[..|ids| - 1], id), ids[|ids| - 1];
      assert ids == ids[..|ids| - 1] + [last];
      assert NoDuplicates(ids) ==> last !in ids[..|ids| - 1];
      if last == id then front else front + [last]
  }

  /** An unsuffixed name is shown as the table says. */
  function ShownName(n: Naming, family: string, name: string): (r: string)
    ensures Normalized(n.casefold, name) == family && family in n.display ==> r == n.display[family]
    ensures Normalized(n.casefold, name) != family || family !in n.display ==> r == name
  {
    if Normalized(n.casefold, name) == family && family in n.display then n.display[family] else name
  }

  /** The card of a family, made from its variants around the primary one. */
  function CardOf(n: Naming, family: string, variants: seq<Entry>): Card
    requires |variants| > 0
  {
    var primary := variants[Primary(n, family, variants)];
    var name := ShownName(n, family, primary.name);
    Card(family, primary.id, name, Unique(AllProfiles(variants)),
         WithoutId(Unique(AllIds(variants)), primary.id),
         Unique(Unique(AllNames(variants)) + [family, name]))
  }

  function CardMaker(n: Naming): Group<Entry> -> Card
  {
    (g: Group<Entry>) =>
      if |g.value| == 0 then Card(g.key, "", "", [], [], []) else CardOf(n, g.key, g.value)
  }

  /** The cards made so far are those of the leading groups. */
  ghost predicate Made(make: Group<Entry> -> Card, groups: seq<Group<Entry>>, cards: seq<Card>)
  {
    |cards| <= |groups| && forall g :: 0 <= g < |cards| ==> cards[g] == make(groups[g])
  }

  lemma MadeSnoc(make: Group<Entry> -> Card, groups: seq<Group<Entry>>, cards: seq<Card>)
    requires Made(make, groups, cards) && |cards| < |groups|
    ensures Made(make, groups, cards + [make(groups[|cards|])])
  {
  }

  /** One card per family, in order of first occurrence. */
  ghost predicate Coalesced(n: Naming, entries: seq<Entry>, cards: seq<Card>)
  {
    var groups := GroupBy(entries, FamilyKey(n));
    |cards| == |groups| && Made(CardMaker(n), groups, cards)
  }

  /** The dictionary of variants by family. */
  method GroupVariants(n: Naming, entries: seq<Entry>) returns (groups: seq<Group<Entry>>)
    ensures groups == GroupBy(entries, FamilyKey(n))
  {
    groups := [];
    var i := 0;
    while i < |entries|
      invariant 0 <= i <= |entries|
      invariant groups == GroupBy(entries[..i], FamilyKey(n))
    {
      var family := ApplicationFamily(n, entries[i].name);
      assert entries[..i + 1][..i] == entries[..i];
      assert family == FamilyKey(n)(entries[i]);
      groups := Insert(groups, family, entries[i]);
      i := i + 1;
    }
    assert entries[..i] == entries;
  }

  method CombineAll(n: Naming, groups: seq<Group<Entry>>) returns (cards: seq<Card>)
    requires forall g :: 0 <= g < |groups| ==> |groups[g].value| > 0
    ensures |cards| == |groups| && Made(CardMaker(n), groups, cards)
  {
    cards := [];
    ghost var make := CardMaker(n);
    var g := 0;
    while g < |groups|
      invariant 0 <= g <= |groups| && |cards| == g
      invariant Made(make, groups, cards)
    {
      MadeSnoc(make, groups, cards);
      var card := Combine(n, groups[g].key, groups[g].value);
      cards := cards + [card];
      g := g + 1;
    }
  }

  method CoalesceApplicationVariants(n: Naming, entries: seq<Entry>) returns (cards: seq<Card>)
    ensures Coalesced(n, entries, cards)
  {
    var groups := GroupVariants(n, entries);
    GroupByPartitions(entries, FamilyKey(n));
    cards := CombineAll(n, groups);
  }

  method Combine(n: Naming, family: string, variants: seq<Entry>)
    returns (card: Card)
    requires |variants| > 0
    ensures card == CardOf(n, family, variants)
  {
    var p := ChoosePrimary(n, family, variants);
    var primary := variants[p];
    var name := primary.name;
    if Normalized(n.casefold, primary.name) == family && family in n.display {
      name := n.display[family];
    }
    var allIds := Unique(AllIds(variants));
    card := Card(family, primary.id, name, Unique(AllProfiles(variants)), WithoutId(allIds, primary.id),
                 Unique(Unique(AllNames(variants)) + [family, name]));
  }

  // ---------------------------------------------------------------- identity is conserved

  /** Every id on a card: its own and the legacy ones. */
  function CardIds(card: Card): seq<string>
  {
    [card.id] + card.legacyIds
  }

  ghost predicate SomeId(variants: seq<Entry>, x: string)
  {
    exists e :: e in variants && x in e.ids
  }

  ghost predicate SomeProfile(variants: seq<Entry>, x: int)
  {
    exists e :: e in variants && x in e.profiles
  }

  lemma {:induction false} AllIdsIs(variants: seq<Entry>, x: string)
    ensures x in AllIds(variants) <==> SomeId(variants, x)
  {
    if |variants| > 0 {
      var front, last := variants[..|variants| - 1], variants[|variants| - 1];
      AllIdsIs(front, x);
      assert variants == front + [last];
    }
  }

  lemma {:induction false} AllProfilesIs(variants: seq<Entry>, x: int)
    ensures x in AllProfiles(variants) <==> SomeProfile(variants, x)
  {
    if |variants| > 0 {
      var front, last := variants[..|variants| - 1], variants[|variants| - 1];
      AllProfilesIs(front, x);
      assert variants == front + [last];
    }
  }

  lemma LegacyIds(ids: seq<string>, id: string)
    requires NoDuplicates(ids) && id in ids
    ensures NoDuplicates([id] + WithoutId(ids, id))
    ensures forall x :: x in [id] + WithoutId(ids, id) <==> x in ids
  {
    var r := [id] + WithoutId(ids, id);
    forall i, j | 0 <= i < j < |r| ensures r[i] != r[j] {
      assert r[j] in WithoutId(ids, id);
    }
  }

  /** A card carries each id of its variants once, and its profiles are their union. */
  lemma CardCarries(n: Naming, family: string, variants: seq<Entry>, card: Card)
    requires |variants| > 0 && card == CardOf(n, family, variants)
    requires forall e :: e in variants ==> e.id in e.ids
    ensures NoDuplicates(CardIds(card)) && NoDuplicates(card.profiles)
    ensures forall x :: x in CardIds(card) <==> SomeId(variants, x)
    ensures forall x :: x in card.profiles <==> SomeProfile(variants, x)
  {
    assert variants[Primary(n, family, variants)] in variants;
    AllIdsIs(variants, card.id);
    LegacyIds(Unique(AllIds(variants)), card.id);
    forall x ensures x in CardIds(card) <==> SomeId(variants, x) {
      AllIdsIs(variants, x);
    }
    forall x ensures x in card.profiles <==> SomeProfile(variants, x) {
      AllProfilesIs(variants, x);
    }
  }

  /** What the name merge guarantees about ids. */
  ghost predicate IdsApart(entries: seq<Entry>)
  {
    && (forall e :: 0 <= e < |entries| ==> entries[e].id in entries[e].ids)
    && (forall e, f, x ::
          0 <= e < |entries| && 0 <= f < |entries| && x in entries[e].ids && x in entries[f].ids ==> e == f)
  }

  /** Families of cards are pairwise distinct, and every id is on exactly one card. */
  lemma IdOnExactlyOneCard(n: Naming, entries: seq<Entry>, cards: seq<Card>, e: nat, x: string)
    requires Coalesced(n, entries, cards) && IdsApart(entries)
    requires e < |entries| && x in entries[e].ids
    ensures exists c :: 0 <= c < |cards| && x in CardIds(cards[c]) && NoDuplicates(CardIds(cards[c]))
                        && cards[c].family == Family(n, entries[e].name)
    ensures forall c, d :: 0 <= c < |cards| && 0 <= d < |cards| && x in CardIds(cards[c]) && x in CardIds(cards[d]) ==>
              c == d
    ensures forall c, d :: 0 <= c < d < |cards| ==> cards[c].family != cards[d].family
  {
    var c := FamilyHasCard(n, entries, cards, e);
    FamiliesApart(n, entries, cards);
    forall d | 0 <= d < |cards|
      ensures x in CardIds(cards[d]) <==> Family(n, entries[e].name) == cards[d].family
      ensures NoDuplicates(CardIds(cards[d]))
    {
      IdOnCard(n, entries, cards, d, e, x);
    }
  }

  lemma FamilyHasCard(n: Naming, entries: seq<Entry>, cards: seq<Card>, e: nat) returns (c: nat)
    requires Coalesced(n, entries, cards) && e < |entries|
    ensures c < |cards| && cards[c].family == Family(n, entries[e].name)
  {
    var keyOf := FamilyKey(n);
    var keys := Keys(GroupBy(entries, keyOf));
    GroupByPartitions(entries, keyOf);
    assert keyOf(entries[e]) in keys;
    c :| 0 <= c < |keys| && keys[c] == keyOf(entries[e]);
  }

  lemma IdOnCard(n: Naming, entries: seq<Entry>, cards: seq<Card>, d: nat, e: nat, x: string)
    requires Coalesced(n, entries, cards) && IdsApart(entries) && d < |cards|
    requires e < |entries| && x in entries[e].ids
    ensures x in CardIds(cards[d]) <==> Family(n, entries[e].name) == cards[d].family
    ensures NoDuplicates(CardIds(cards[d]))
  {
    CardsFollowEntries(n, entries, cards, d);
    if f :| f in entries && Family(n, f.name) == cards[d].family && x in f.ids {
      var i :| 0 <= i < |entries| && entries[i] == f;
      assert i == e;
    }
    assert entries[e] in entries;
  }

  /** Seen from the entries: a card carries the ids and profiles of exactly the entries of its family. */
  lemma CardsFollowEntries(n: Naming, entries: seq<Entry>, cards: seq<Card>, c: nat)
    requires Coalesced(n, entries, cards) && c < |cards|
    requires forall e :: e in entries ==> e.id in e.ids
    ensures NoDuplicates(CardIds(cards[c]))
    ensures forall x :: x in CardIds(cards[c]) <==>
              exists e :: e in entries && Family(n, e.name) == cards[c].family && x in e.ids
    ensures forall x :: x in cards[c].profiles <==>
              exists e :: e in entries && Family(n, e.name) == cards[c].family && x in e.profiles
    ensures exists e :: e in entries && Family(n, e.name) == cards[c].family && e.id == cards[c].id
  {
    var keyOf := FamilyKey(n);
    var group := GroupBy(entries, keyOf)[c];
    GroupByPartitions(entries, keyOf);
    WithKeyItems(entries, keyOf, group.key);
    assert cards[c] == CardOf(n, group.key, group.value);
    CardCarries(n, group.key, group.value, cards[c]);
    FamilyMembers(n, entries, group.key, group.value);
    assert group.value[Primary(n, group.key, group.value)] in group.value;
  }

  /** The best of the entries with a key, by position among all entries. */
  lemma BestStandsFor(n: Naming, entries: seq<Entry>, family: string, items: seq<Entry>, at: seq<nat>, best: nat)
    requires items == WithKey(entries, FamilyKey(n), family) && PositionsOf(entries, FamilyKey(n), family, at)
    requires best < |items| && best == Primary(n, family, items)
    ensures StandsFor(n, family, entries, at[best])
  {
    WithKeyItems(entries, FamilyKey(n), family);
    assert items[best] in items;
    forall v | 0 <= v < |entries| && Family(n, entries[v].name) == family
      ensures NoBetter(Normalized(n.casefold, entries[v].name), entries[v].id, v,
                       Normalized(n.casefold, entries[at[best]].name), entries[at[best]].id, at[best], family)
    {
      assert FamilyKey(n)(entries[v]) == family;
      var k := PositionOf(at, v);
      BestOf(n, family, items, at, best, k);
    }
  }

  lemma PositionOf(at: seq<nat>, v: nat) returns (k: nat)
    requires v in at
    ensures k < |at| && at[k] == v
  {
    k :| 0 <= k < |at| && at[k] == v;
  }

  lemma BestOf(n: Naming, family: string, items: seq<Entry>, at: seq<nat>, best: nat, k: nat)
    requires |at| == |items| && (forall i, j :: 0 <= i < j < |at| ==> at[i] < at[j])
    requires best < |items| && best == Primary(n, family, items) && k < |items|
    ensures NoBetter(Normalized(n.casefold, items[k].name), items[k].id, at[k],
                     Normalized(n.casefold, items[best].name), items[best].id, at[best], family)
  {
    PrimaryIsFirstBest(n, family, items);
    PreferMeans(n, family, items[best], items[k], at[best], at[k]);
  }

  /** The card takes its id and name from the entry that stands for the family. */
  lemma CardStandsFor(n: Naming, entries: seq<Entry>, cards: seq<Card>, c: nat) returns (p: nat)
    requires Coalesced(n, entries, cards) && c < |cards|
    ensures StandsFor(n, cards[c].family, entries, p)
    ensures cards[c].id == entries[p].id && cards[c].name == ShownName(n, cards[c].family, entries[p].name)
  {
    var keyOf := FamilyKey(n);
    var family, items := GroupBy(entries, keyOf)[c].key, GroupBy(entries, keyOf)[c].value;
    GroupByPartitions(entries, keyOf);
    var at := WithKeyPositions(entries, keyOf, family);
    var best := Primary(n, family, items);
    p := at[best];
    BestStandsFor(n, entries, family, items, at, best);
    assert cards[c] == CardOf(n, family, items);
  }

  /** The names a card can be found by: those of its entries, the family, and the name it shows. */
  lemma CardNames(n: Naming, entries: seq<Entry>, cards: seq<Card>, c: nat, x: string)
    requires Coalesced(n, entries, cards) && c < |cards|
    ensures x in cards[c].variantNames <==>
            || x == cards[c].family || x == cards[c].name
            || exists e :: e in entries && Family(n, e.name) == cards[c].family && x in e.variantNames
  {
    var keyOf := FamilyKey(n);
    var group := GroupBy(entries, keyOf)[c];
    GroupByPartitions(entries, keyOf);
    WithKeyItems(entries, keyOf, group.key);
    assert cards[c] == CardOf(n, group.key, group.value);
    AllNamesIs(group.value, x);
    FamilyMembers(n, entries, group.key, group.value);
    var names := Unique(AllNames(group.value));
    assert x in names + [group.key, cards[c].name] <==> x in names || x == group.key || x == cards[c].name;
  }

  lemma {:induction false} AllNamesIs(variants: seq<Entry>, x: string)
    ensures x in AllNames(variants) <==> exists e :: e in variants && x in e.variantNames
  {
    if |variants| > 0 {
      var front, last := variants[..|variants| - 1], variants[|variants| - 1];
      AllNamesIs(front, x);
      assert variants == front + [last];
    }
  }

  lemma FamilyMembers(n: Naming, entries: seq<Entry>, family: string, items: seq<Entry>)
    requires forall e :: e in items <==> e in entries && FamilyKey(n)(e) == family
    ensures forall e :: e in items <==> e in entries && Family(n, e.name) == family
    ensures forall x :: SomeId(items, x) <==> exists e :: e in entries && Family(n, e.name) == family && x in e.ids
    ensures forall x :: SomeProfile(items, x) <==>
        exists e :: e in entries && Family(n, e.name) == family && x in e.profiles
  {
    assert forall e: Entry :: FamilyKey(n)(e) == Family(n, e.name);
  }

  /** Distinct exported ids among the applications that have an icon. */
  predicate DistinctIds(apps: seq<Application>)
  {
    forall i, j :: 0 <= i < j < |apps| ==> apps[i].id != apps[j].id
  }

  ghost predicate SomeAppId(apps: seq<Application>, x: string)
  {
    exists a :: a in apps && a.id == x
  }

  lemma {:induction false} EntryIds(apps: seq<Application>)
    requires |apps| > 0
    ensures EntryOf(apps).id in EntryOf(apps).ids
    ensures forall x :: x in EntryOf(apps).ids <==> SomeAppId(apps, x)
  {
    if |apps| > 1 {
      var front, last := apps[..|apps| - 1], apps[|apps| - 1];
      EntryIds(front);
      assert apps == front + [last];
      forall x ensures SomeAppId(apps, x) <==> SomeAppId(front, x) || x == last.id {
        if x == last.id { assert last in apps; }
      }
    } else {
      assert apps == [apps[0]];
    }
  }

  lemma {:induction false} WithIconsItems(apps: seq<Application>)
    ensures forall a :: a in WithIcons(apps) <==> a in apps && a.hasIcon
  {
    if |apps| > 0 {
      WithIconsItems(apps[..|apps| - 1]);
      assert apps == apps[..|apps| - 1] + [apps[|apps| - 1]];
    }
  }

  function Entries(merged: seq<Slot<Entry>>): (r: seq<Entry>)
    ensures |r| == |merged| && forall i :: 0 <= i < |r| ==> r[i] == merged[i].value
  {
    seq(|merged|, i requires 0 <= i < |merged| => merged[i].value)
  }

  /** The ids of an entry come from applications with its key. */
  lemma MergedEntryIds(casefold: string -> string, apps: seq<Application>, merged: seq<Slot<Entry>>, g: nat, x: string)
    requires MergedFrom(casefold, apps, merged) && g < |merged|
    ensures merged[g].value.id in merged[g].value.ids
    ensures x in merged[g].value.ids <==>
        exists a :: a in apps && a.hasIcon && a.id == x && casefold(a.name) == merged[g].key
  {
    var keyOf := NameKey(casefold);
    var groups := GroupBy(WithIcons(apps), keyOf);
    GroupByPartitions(WithIcons(apps), keyOf);
    var items := groups[g].value;
    EntryIds(items);
    WithKeyItems(WithIcons(apps), keyOf, merged[g].key);
    WithIconsItems(apps);
    forall a ensures a in items <==> a in apps && a.hasIcon && casefold(a.name) == merged[g].key {
      assert keyOf(a) == casefold(a.name);
    }
  }

  /** Distinct ids stay in distinct entries. */
  lemma MergeKeepsIdsApart(casefold: string -> string, apps: seq<Application>, merged: seq<Slot<Entry>>)
    requires MergedFrom(casefold, apps, merged) && DistinctIds(WithIcons(apps))
    ensures IdsApart(Entries(merged))
  {
    var entries := Entries(merged);
    GroupByPartitions(WithIcons(apps), NameKey(casefold));
    forall e | 0 <= e < |entries| ensures entries[e].id in entries[e].ids {
      MergedEntryIds(casefold, apps, merged, e, "");
    }
    forall e, f, x | 0 <= e < |entries| && 0 <= f < |entries| && x in entries[e].ids && x in entries[f].ids
      ensures e == f
    {
      MergedEntryIds(casefold, apps, merged, e, x);
      MergedEntryIds(casefold, apps, merged, f, x);
      var a :| a in apps && a.hasIcon && a.id == x && casefold(a.name) == merged[e].key;
      var b :| b in apps && b.hasIcon && b.id == x && casefold(b.name) == merged[f].key;
      WithIconsItems(apps);
      SameId(WithIcons(apps), a, b);
      var keys := Keys(GroupBy(WithIcons(apps), NameKey(casefold)));
      assert keys[e] == keys[f];
    }
  }

  lemma SameId(apps: seq<Application>, a: Application, b: Application)
    requires DistinctIds(apps) && a in apps && b in apps && a.id == b.id
    ensures a == b
  {
  }

  /** Between the two passes only profile indexes are added. */
  ghost predicate SameIdentity(before: seq<Entry>, after: seq<Entry>)
  {
    |before| == |after| &&
    forall i :: 0 <= i < |after| ==>
      after[i].id == before[i].id && after[i].name == before[i].name && after[i].ids == before[i].ids
  }

  /** Every application with an icon ends on exactly one card, whatever profiles were restored in between. */
  lemma IdentityConserved(
    n: Naming,
    apps: seq<Application>, merged: seq<Slot<Entry>>, entries: seq<Entry>, cards: seq<Card>, a: Application)
    requires DistinctIds(WithIcons(apps)) && a in apps && a.hasIcon
    requires MergedFrom(n.casefold, apps, merged) && SameIdentity(Entries(merged), entries)
    requires Coalesced(n, entries, cards)
    ensures exists c :: 0 <= c < |cards| && a.id in CardIds(cards[c]) && NoDuplicates(CardIds(cards[c]))
    ensures forall c, d ::
      0 <= c < |cards| && 0 <= d < |cards| && a.id in CardIds(cards[c]) && a.id in CardIds(cards[d]) ==> c == d
  {
    MergeKeepsIdsApart(n.casefold, apps, merged);
    assert IdsApart(entries) by {
      assert forall i :: 0 <= i < |entries| ==>
          entries[i].ids == Entries(merged)[i].ids && entries[i].id == Entries(merged)[i].id;
    }
    var e := EntryOfApplication(n.casefold, apps, merged, a);
    IdOnExactlyOneCard(n, entries, cards, e, a.id);
  }

  lemma EntryOfApplication(casefold: string -> string, apps: seq<Application>, merged: seq<Slot<Entry>>, a: Application)
    returns (e: nat)
    requires MergedFrom(casefold, apps, merged) && a in apps && a.hasIcon
    ensures e < |merged| && merged[e].key == casefold(a.name) && a.id in merged[e].value.ids
  {
    var keyOf := NameKey(casefold);
    var icons := WithIcons(apps);
    WithIconsItems(apps);
    GroupByPartitions(icons, keyOf);
    var i :| 0 <= i < |icons| && icons[i] == a;
    var keys := Keys(GroupBy(icons, keyOf));
    assert keyOf(icons[i]) in keys;
    e :| 0 <= e < |keys| && keys[e] == casefold(a.name);
    MergedEntryIds(casefold, apps, merged, e, a.id);
  }

  lemma FamiliesApart(n: Naming, entries: seq<Entry>, cards: seq<Card>)
    requires Coalesced(n, entries, cards)
    ensures forall c, d :: 0 <= c < d < |cards| ==> cards[c].family != cards[d].family
  {
    var keys := Keys(GroupBy(entries, FamilyKey(n)));
    GroupByPartitions(entries, FamilyKey(n));
    assert forall c :: 0 <= c < |cards| ==> cards[c].family == keys[c];
  }

  // ---------------------------------------------------------------- seen from the applications

  /** An application with an icon that belongs to a family. */
  ghost predicate Member(n: Naming, apps: seq<Application>, family: string, a: Application)
  {
    a in apps && a.hasIcon && Family(n, a.name) == family
  }

  ghost predicate SomeAppProfile(apps: seq<Application>, x: int)
  {
    exists a :: a in apps && x in a.profiles
  }

  lemma {:induction false} EntryProfiles(apps: seq<Application>, x: int)
    requires |apps| > 0
    ensures x in EntryOf(apps).profiles <==> SomeAppProfile(apps, x)
  {
    if |apps| > 1 {
      var front, last := apps[..|apps| - 1], apps[|apps| - 1];
      EntryProfiles(front, x);
      assert apps == front + [last];
    } else {
      assert apps == [apps[0]];
    }
  }

  lemma {:induction false} EntryName(apps: seq<Application>)
    requires |apps| > 0
    ensures exists a :: a in apps && a.name == EntryOf(apps).name
  {
    if |apps| > 1 {
      var front, last := apps[..|apps| - 1], apps[|apps| - 1];
      EntryName(front);
      assert apps == front + [last];
    } else {
      assert apps[0] in apps;
    }
  }

  /** The applications behind a merged entry. */
  lemma MergedGroup(casefold: string -> string, apps: seq<Application>, merged: seq<Slot<Entry>>, g: nat)
    returns (items: seq<Application>)
    requires MergedFrom(casefold, apps, merged) && g < |merged|
    ensures |items| > 0 && merged[g].value == EntryOf(items)
    ensures forall a :: a in items <==> a in apps && a.hasIcon && casefold(a.name) == merged[g].key
  {
    var keyOf := NameKey(casefold);
    GroupByPartitions(WithIcons(apps), keyOf);
    items := GroupBy(WithIcons(apps), keyOf)[g].value;
    WithKeyItems(WithIcons(apps), keyOf, merged[g].key);
    WithIconsItems(apps);
    assert forall a: Application :: keyOf(a) == casefold(a.name);
  }

  lemma {:induction false} EntryNames(apps: seq<Application>, x: string)
    requires |apps| > 0
    ensures x in EntryOf(apps).variantNames <==> exists a :: a in apps && a.name == x
  {
    if |apps| > 1 {
      var front, last := apps[..|apps| - 1], apps[|apps| - 1];
      EntryNames(front, x);
      assert apps == front + [last];
      assert last in apps;
    } else {
      assert apps == [apps[0]];
    }
  }

  lemma MergedEntryNames(
    casefold: string -> string, apps: seq<Application>, merged: seq<Slot<Entry>>, g: nat, x: string)
    requires MergedFrom(casefold, apps, merged) && g < |merged|
    ensures x in merged[g].value.variantNames <==>
            exists a :: a in apps && a.hasIcon && casefold(a.name) == merged[g].key && a.name == x
  {
    var items := MergedGroup(casefold, apps, merged, g);
    EntryNames(items, x);
  }

  /** A family depends on the folded name only, so an entry is in the family of its applications. */
  lemma EntryFamily(n: Naming, apps: seq<Application>, merged: seq<Slot<Entry>>, g: nat, a: Application)
    requires MergedFrom(n.casefold, apps, merged) && g < |merged| && n.casefold(a.name) == merged[g].key
    ensures Family(n, merged[g].value.name) == Family(n, a.name)
  {
    var items := MergedGroup(n.casefold, apps, merged, g);
    EntryName(items);
  }

  lemma MergedEntryProfiles(
    casefold: string -> string, apps: seq<Application>, merged: seq<Slot<Entry>>, g: nat, x: int)
    requires MergedFrom(casefold, apps, merged) && g < |merged|
    ensures x in merged[g].value.profiles <==>
            exists a :: a in apps && a.hasIcon && casefold(a.name) == merged[g].key && x in a.profiles
  {
    var items := MergedGroup(casefold, apps, merged, g);
    EntryProfiles(items, x);
  }

  /** Profile indexes restored by executable name, one list per merged entry. */
  function Restore(entries: seq<Entry>, restored: seq<seq<int>>): (r: seq<Entry>)
    requires |entries| == |restored|
    ensures SameIdentity(entries, r)
    ensures forall i, x :: 0 <= i < |r| ==> (x in r[i].profiles <==> x in entries[i].profiles || x in restored[i])
  {
    seq(|entries|, i requires 0 <= i < |entries| =>
      entries[i].(profiles := Unique(entries[i].profiles + restored[i])))
  }

  /** Some merged entry of the family had the profile restored. */
  ghost predicate Restored(n: Naming, entries: seq<Entry>, restored: seq<seq<int>>, family: string, x: int)
    requires |entries| == |restored|
  {
    exists e :: 0 <= e < |entries| && Family(n, entries[e].name) == family && x in restored[e]
  }

  /** A card carries the ids of exactly the applications of its family. */
  lemma CardIdsAre(
    n: Naming, apps: seq<Application>, merged: seq<Slot<Entry>>, entries: seq<Entry>, cards: seq<Card>, c: nat,
    x: string)
    requires MergedFrom(n.casefold, apps, merged) && SameIdentity(Entries(merged), entries)
    requires Coalesced(n, entries, cards) && c < |cards|
    ensures x in CardIds(cards[c]) <==> exists a :: Member(n, apps, cards[c].family, a) && a.id == x
  {
    EntriesOwnIds(n.casefold, apps, merged, entries);
    CardsFollowEntries(n, entries, cards, c);
    if x in CardIds(cards[c]) {
      var e :| e in entries && Family(n, e.name) == cards[c].family && x in e.ids;
      var i :| 0 <= i < |entries| && entries[i] == e;
      MergedEntryIds(n.casefold, apps, merged, i, x);
      var a :| a in apps && a.hasIcon && a.id == x && n.casefold(a.name) == merged[i].key;
      EntryFamily(n, apps, merged, i, a);
      assert Member(n, apps, cards[c].family, a);
    }
    if a :| Member(n, apps, cards[c].family, a) && a.id == x {
      var i := EntryOfApplication(n.casefold, apps, merged, a);
      EntryFamily(n, apps, merged, i, a);
      assert entries[i] in entries;
    }
  }

  lemma EntriesOwnIds(casefold: string -> string, apps: seq<Application>, merged: seq<Slot<Entry>>, entries: seq<Entry>)
    requires MergedFrom(casefold, apps, merged) && SameIdentity(Entries(merged), entries)
    ensures forall e :: e in entries ==> e.id in e.ids
    ensures forall i :: 0 <= i < |entries| ==>
        entries[i].ids == merged[i].value.ids && entries[i].name == merged[i].value.name
  {
    forall i | 0 <= i < |entries|
      ensures entries[i].id in entries[i].ids && entries[i].ids == merged[i].value.ids
      ensures entries[i].name == merged[i].value.name
    {
      MergedEntryIds(casefold, apps, merged, i, "");
      assert Entries(merged)[i] == merged[i].value;
    }
  }

  /** A card carries the profiles of exactly the applications of its family, and the restored ones. */
  lemma CardProfilesAre(
    n: Naming, apps: seq<Application>, merged: seq<Slot<Entry>>, restored: seq<seq<int>>, cards: seq<Card>, c: nat,
    x: int)
    requires MergedFrom(n.casefold, apps, merged) && |restored| == |merged|
    requires Coalesced(n, Restore(Entries(merged), restored), cards) && c < |cards|
    ensures x in cards[c].profiles <==>
            || (exists a :: Member(n, apps, cards[c].family, a) && x in a.profiles)
            || Restored(n, Entries(merged), restored, cards[c].family, x)
  {
    var entries, family := Restore(Entries(merged), restored), cards[c].family;
    EntriesOwnIds(n.casefold, apps, merged, entries);
    CardProfileIff(n, entries, cards, c, x);
    if ProfileIn(n, entries, family, x) { ProfileOrigin(n, apps, merged, restored, family, x); }
    if a :| Member(n, apps, family, a) && x in a.profiles {
      MemberProfile(n, apps, merged, restored, a, x);
    }
    if Restored(n, Entries(merged), restored, family, x) {
      RestoredProfile(n, merged, restored, family, x);
    }
  }

  ghost predicate ProfileIn(n: Naming, entries: seq<Entry>, family: string, x: int)
  {
    exists e :: e in entries && Family(n, e.name) == family && x in e.profiles
  }

  lemma MemberProfile(
    n: Naming, apps: seq<Application>, merged: seq<Slot<Entry>>, restored: seq<seq<int>>, a: Application, x: int)
    requires MergedFrom(n.casefold, apps, merged) && |restored| == |merged|
    requires a in apps && a.hasIcon && x in a.profiles
    ensures ProfileIn(n, Restore(Entries(merged), restored), Family(n, a.name), x)
  {
    var entries := Restore(Entries(merged), restored);
    var i := EntryOfApplication(n.casefold, apps, merged, a);
    EntryFamily(n, apps, merged, i, a);
    MergedEntryProfiles(n.casefold, apps, merged, i, x);
    assert entries[i] in entries;
  }

  lemma RestoredProfile(n: Naming, merged: seq<Slot<Entry>>, restored: seq<seq<int>>, family: string, x: int)
    requires |restored| == |merged| && Restored(n, Entries(merged), restored, family, x)
    ensures ProfileIn(n, Restore(Entries(merged), restored), family, x)
  {
    var before, entries := Entries(merged), Restore(Entries(merged), restored);
    var i :| 0 <= i < |before| && Family(n, before[i].name) == family && x in restored[i];
    assert entries[i] in entries;
  }

  lemma CardProfileIff(n: Naming, entries: seq<Entry>, cards: seq<Card>, c: nat, x: int)
    requires Coalesced(n, entries, cards) && c < |cards| && forall e :: e in entries ==> e.id in e.ids
    ensures x in cards[c].profiles <==> ProfileIn(n, entries, cards[c].family, x)
  {
    CardsFollowEntries(n, entries, cards, c);
  }

  /** Where a profile of a restored entry comes from. */
  lemma ProfileOrigin(
    n: Naming, apps: seq<Application>, merged: seq<Slot<Entry>>, restored: seq<seq<int>>, family: string, x: int)
    requires MergedFrom(n.casefold, apps, merged) && |restored| == |merged|
    requires ProfileIn(n, Restore(Entries(merged), restored), family, x)
    ensures || (exists a :: Member(n, apps, family, a) && x in a.profiles)
            || Restored(n, Entries(merged), restored, family, x)
  {
    var entries := Restore(Entries(merged), restored);
    var e :| e in entries && Family(n, e.name) == family && x in e.profiles;
    var i :| 0 <= i < |entries| && entries[i] == e;
    assert entries[i].name == Entries(merged)[i].name == merged[i].value.name;
    if x !in restored[i] {
      MergedEntryProfiles(n.casefold, apps, merged, i, x);
      var a :| a in apps && a.hasIcon && n.casefold(a.name) == merged[i].key && x in a.profiles;
      EntryFamily(n, apps, merged, i, a);
      assert Member(n, apps, family, a);
    }
  }

  lemma SameStandsFor(n: Naming, family: string, before: seq<Entry>, after: seq<Entry>, p: nat)
    requires SameIdentity(before, after) && StandsFor(n, family, after, p)
    ensures StandsFor(n, family, before, p)
  {
    forall v | 0 <= v < |before| && Family(n, before[v].name) == family
      ensures NoBetter(Normalized(n.casefold, before[v].name), before[v].id, v,
                       Normalized(n.casefold, before[p].name), before[p].id, p, family)
    {
      assert after[v].name == before[v].name && after[v].id == before[v].id;
    }
  }

  /** A merged entry takes id and name from the first of its applications whose original name is not technical. */
  lemma MergedEntryLeader(casefold: string -> string, apps: seq<Application>, merged: seq<Slot<Entry>>, g: nat)
    returns (items: seq<Application>, q: nat)
    requires MergedFrom(casefold, apps, merged) && g < |merged|
    ensures items == WithKey(WithIcons(apps), NameKey(casefold), merged[g].key)
    ensures Leads(items, q) && merged[g].value.id == items[q].id && merged[g].value.name == items[q].name
  {
    GroupByPartitions(WithIcons(apps), NameKey(casefold));
    items := GroupBy(WithIcons(apps), NameKey(casefold))[g].value;
    q := EntryLeader(items);
  }

  // ---------------------------------------------------------------- the pass over an export

  const APPLICATION_VARIANT_SUFFIXES: set<string> := {
    "beta", "br", "brazil", "china", "client", "cn", "eu", "europe", "experimental", "global",
    "international", "japan", "jp", "kr", "korea", "latam", "launcher", "mobile", "na", "pc",
    "ru", "russia", "russian", "sea", "taiwan", "test", "testing", "tw", "ua", "vn" }

  /** The id is on one card, once. */
  ghost predicate OnOneCard(cards: seq<Card>, id: string)
  {
    && (exists c :: 0 <= c < |cards| && id in CardIds(cards[c]) && NoDuplicates(CardIds(cards[c])))
    && (forall c, d :: 0 <= c < |cards| && 0 <= d < |cards| && id in CardIds(cards[c]) && id in CardIds(cards[d]) ==>
          c == d)
  }

  /** The card bears the id and the shown name of the entry that stands for its family. */
  ghost predicate Headed(n: Naming, entries: seq<Entry>, card: Card)
  {
    exists p: nat ::
      && StandsFor(n, card.family, entries, p)
      && card.id == entries[p].id && card.name == ShownName(n, card.family, entries[p].name)
  }

  /** What the whole pass promises, given the merged entries and the profiles restored to them. */
  ghost predicate CardsOf(
    n: Naming, apps: seq<Application>, entries: seq<Entry>, restored: seq<seq<int>>, cards: seq<Card>)
    requires |entries| == |restored|
  {
    && (forall c, x :: 0 <= c < |cards| ==>
          (x in CardIds(cards[c]) <==> exists a :: Member(n, apps, cards[c].family, a) && a.id == x))
    && (forall c, x :: 0 <= c < |cards| ==>
          (x in cards[c].profiles <==>
             || (exists a :: Member(n, apps, cards[c].family, a) && x in a.profiles)
             || Restored(n, entries, restored, cards[c].family, x)))
    && (forall c, d :: 0 <= c < d < |cards| ==> cards[c].family != cards[d].family)
    && (forall c :: 0 <= c < |cards| ==> Headed(n, entries, cards[c]))
  }

  lemma CoalescedCards(
    n: Naming, apps: seq<Application>, merged: seq<Slot<Entry>>, restored: seq<seq<int>>, cards: seq<Card>)
    requires MergedFrom(n.casefold, apps, merged) && |restored| == |merged|
    requires Coalesced(n, Restore(Entries(merged), restored), cards)
    ensures CardsOf(n, apps, Entries(merged), restored, cards)
  {
    var entries := Restore(Entries(merged), restored);
    FamiliesApart(n, entries, cards);
    forall c, x | 0 <= c < |cards|
      ensures x in CardIds(cards[c]) <==> exists a :: Member(n, apps, cards[c].family, a) && a.id == x
    {
      CardIdsAre(n, apps, merged, entries, cards, c, x);
    }
    forall c, x | 0 <= c < |cards|
      ensures x in cards[c].profiles <==>
              || (exists a :: Member(n, apps, cards[c].family, a) && x in a.profiles)
              || Restored(n, Entries(merged), restored, cards[c].family, x)
    {
      CardProfilesAre(n, apps, merged, restored, cards, c, x);
    }
    forall c | 0 <= c < |cards| ensures Headed(n, Entries(merged), cards[c]) {
      CardHeaded(n, merged, entries, cards, c);
    }
  }

  lemma CardHeaded(n: Naming, merged: seq<Slot<Entry>>, entries: seq<Entry>, cards: seq<Card>, c: nat)
    requires SameIdentity(Entries(merged), entries) && Coalesced(n, entries, cards) && c < |cards|
    ensures Headed(n, Entries(merged), cards[c])
  {
    var p := CardStandsFor(n, entries, cards, c);
    SameStandsFor(n, cards[c].family, Entries(merged), entries, p);
  }

  /** Merge, restore, coalesce: no application with an icon is lost or duplicated. */
  method BuildCards(n: Naming, apps: seq<Application>, restore: seq<Entry> -> seq<seq<int>>)
    returns (cards: seq<Card>, ghost merged: seq<Slot<Entry>>)
    requires forall entries :: |restore(entries)| == |entries|
    ensures MergedFrom(n.casefold, apps, merged)
    ensures DistinctIds(WithIcons(apps)) ==> forall a :: a in apps && a.hasIcon ==> OnOneCard(cards, a.id)
    ensures CardsOf(n, apps, Entries(merged), restore(Entries(merged)), cards)
  {
    var m := MergeNames(n.casefold, apps);
    merged := m;
    var entries := Restore(Entries(m), restore(Entries(m)));
    cards := CoalesceApplicationVariants(n, entries);
    CoalescedCards(n, apps, m, restore(Entries(m)), cards);
    if DistinctIds(WithIcons(apps)) {
      forall a | a in apps && a.hasIcon ensures OnOneCard(cards, a.id) {
        IdentityConserved(n, apps, m, entries, cards, a);
      }
    }
  }

  /** The pass with the suffix table of the catalog. */
  method BuildCatalog(
    casefold: string -> string, display: map<string, string>, apps: seq<Application>,
    restore: seq<Entry> -> seq<seq<int>>)
    returns (cards: seq<Card>, ghost merged: seq<Slot<Entry>>, ghost n: Naming)
    requires forall entries :: |restore(entries)| == |entries|
    ensures n == Naming(casefold, APPLICATION_VARIANT_SUFFIXES, display) && MergedFrom(casefold, apps, merged)
    ensures DistinctIds(WithIcons(apps)) ==> forall a :: a in apps && a.hasIcon ==> OnOneCard(cards, a.id)
    ensures CardsOf(n, apps, Entries(merged), restore(Entries(merged)), cards)
  {
    var naming := Naming(casefold, APPLICATION_VARIANT_SUFFIXES, display);
    n := naming;
    cards, merged := BuildCards(naming, apps, restore);
  }
}
