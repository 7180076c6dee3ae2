/**
  First-claim ownership of domains while portal snapshots are merged into the catalog:
  services own the domains of their exported rules, every further domain goes to the
  first portal that names it.
 */
module DomainOwnership {
  import opened DomainCover
  import opened Lists
  import opened Text

  /** The parts of a rule that name domains. */
  datatype Rule = Rule(exact: seq<string>, suffixes: seq<string>)

  /** `domains` is the `_domains` list collected from portals. */
  datatype Service = Service(rules: seq<Rule>, domains: seq<string>)

  /** A portal with its brand, the keys it may match a service by, and its raw domain list. */
  datatype Portal = Portal(brand: string, candidates: seq<string>, raw: seq<Value>)

  ghost predicate Names(u: Unicode, names: seq<string>, d: string)
  {
    exists i :: 0 <= i < |names| && u.casefold(names[i]) == d
  }

  /** Some rule of the service names a domain that folds to `d`. */
  ghost predicate InRules(u: Unicode, rules: seq<Rule>, d: string)
  {
    exists r :: 0 <= r < |rules| && (Names(u, rules[r].exact, d) || Names(u, rules[r].suffixes, d))
  }

  predicate Submap(a: map<string, nat>, b: map<string, nat>)
  {
    forall d :: d in a ==> d in b && b[d] == a[d]
  }

  /** The service holds the domain in its `_domains` or in one of its rules. */
  ghost predicate Holds(u: Unicode, services: seq<Service>, s: nat, d: string)
  {
    s < |services| && (d in services[s].domains || InRules(u, services[s].rules, d))
  }

  /** Collected domains belong to their collector, and every owner holds what it owns. */
  ghost predicate Consistent(u: Unicode, services: seq<Service>, owner: map<string, nat>)
  {
    && (forall s, d :: 0 <= s < |services| && d in services[s].domains ==> d in owner && owner[d] == s)
    && (forall s :: 0 <= s < |services| ==> NoDuplicates(services[s].domains))
    && (forall d :: d in owner ==> Holds(u, services, owner[d], d))
  }

  function Collect(services: seq<Service>, target: nat, domain: string): seq<Service>
    requires target < |services|
  {
    services[target := services[target].(domains := services[target].domains + [domain])]
  }

  /** A domain nobody else owns joins the target's list. */
  lemma CollectKeepsConsistent(u: Unicode, services: seq<Service>, owner: map<string, nat>, target: nat, domain: string)
    requires Consistent(u, services, owner) && target < |services|
    requires domain in owner ==> owner[domain] == target
    requires domain !in services[target].domains
    ensures Consistent(u, Collect(services, target, domain), owner[domain := target])
  {
    var after, table := Collect(services, target, domain), owner[domain := target];
    forall s, d | 0 <= s < |after| && d in after[s].domains ensures d in table && table[d] == s {
      assert d in services[s].domains || (s == target && d == domain);
    }
    forall d | d in table ensures Holds(u, after, table[d], d) {
      if d != domain { assert Holds(u, services, owner[d], d); }
    }
  }

  lemma NewServiceKeepsConsistent(u: Unicode, services: seq<Service>, owner: map<string, nat>)
    requires Consistent(u, services, owner)
    ensures Consistent(u, services + [Service([], [])], owner)
  {
    var after := services + [Service([], [])];
    forall d | d in owner ensures Holds(u, after, owner[d], d) {
      assert Holds(u, services, owner[d], d) && after[owner[d]] == services[owner[d]];
    }
  }

  function SetDefault(owner: map<string, nat>, d: string, s: nat): map<string, nat>
  {
    if d in owner then owner else owner[d := s]
  }

  /** `domain_owner.setdefault` for the names of one rule, in order. */
  function SetDefaults(u: Unicode, owner: map<string, nat>, names: seq<string>, s: nat): map<string, nat>
  {
    if |names| == 0 then owner
    else SetDefault(SetDefaults(u, owner, names[..|names| - 1], s), u.casefold(names[|names| - 1]), s)
  }

  /** Names without an owner are claimed, the others keep theirs. */
  lemma SetDefaultsKeepsConsistent(
    u: Unicode, services: seq<Service>, owner: map<string, nat>, names: seq<string>, s: nat)
    requires Consistent(u, services, owner) && s < |services|
    requires forall i :: 0 <= i < |names| ==> InRules(u, services[s].rules, u.casefold(names[i]))
    ensures var table := SetDefaults(u, owner, names, s);
            && Consistent(u, services, table) && Submap(owner, table)
            && (forall d :: Names(u, names, d) ==> d in table)
            && (forall d :: d in table && d !in owner ==> table[d] == s && Names(u, names, d))
  {
    ClaimsKeepConsistent(u, services, owner, names, s);
    ClaimsAre(u, owner, names, s);
  }

  lemma {:induction false} ClaimsKeepConsistent(
    u: Unicode, services: seq<Service>, owner: map<string, nat>, names: seq<string>, s: nat)
    requires Consistent(u, services, owner) && s < |services|
    requires forall i :: 0 <= i < |names| ==> InRules(u, services[s].rules, u.casefold(names[i]))
    ensures Consistent(u, services, SetDefaults(u, owner, names, s))
  {
    if |names| > 0 {
      var front := names[..|names| - 1];
      ClaimsKeepConsistent(u, services, owner, front, s);
      ClaimKeepsConsistent(u, services, SetDefaults(u, owner, front, s), s, u.casefold(names[|names| - 1]));
    }
  }

  lemma {:induction false} ClaimsAre(u: Unicode, owner: map<string, nat>, names: seq<string>, s: nat)
    ensures var table := SetDefaults(u, owner, names, s);
            && Submap(owner, table)
            && (forall d :: Names(u, names, d) ==> d in table)
            && (forall d :: d in table && d !in owner ==> table[d] == s && Names(u, names, d))
  {
    if |names| > 0 {
      var front, last := names[..|names| - 1], u.casefold(names[|names| - 1]);
      ClaimsAre(u, owner, front, s);
      forall d | Names(u, names, d) ensures d == last || Names(u, front, d) {
        var i :| 0 <= i < |names| && u.casefold(names[i]) == d;
        if i < |front| { assert front[i] == names[i]; }
      }
      assert Names(u, names, last) by { assert u.casefold(names[|names| - 1]) == last; }
      forall d | Names(u, front, d) ensures Names(u, names, d) {
        var i :| 0 <= i < |front| && u.casefold(front[i]) == d;
        assert u.casefold(names[i]) == d;
      }
    }
  }

  /** A rule of a service claims a name, if it has no owner yet. */
  lemma ClaimKeepsConsistent(u: Unicode, services: seq<Service>, owner: map<string, nat>, s: nat, d: string)
    requires Consistent(u, services, owner) && s < |services|
    requires InRules(u, services[s].rules, d)
    ensures Consistent(u, services, SetDefault(owner, d, s)) && Submap(owner, SetDefault(owner, d, s))
  {
  }

  /** Services never share a collected domain. */
  lemma Disjoint(u: Unicode, services: seq<Service>, owner: map<string, nat>, s: nat, t: nat)
    requires Consistent(u, services, owner) && s < |services| && t < |services| && s != t
    ensures Elements(services[s].domains) !! Elements(services[t].domains)
  {
    forall d | d in services[s].domains ensures d !in services[t].domains {
      assert owner[d] == s;
    }
  }

  /**
    Where the claiming loop stands after the domains in `done`: every one has an owner,
    only unclaimed ones changed hands, they went to the target, and the target's list
    gained exactly those that nobody else owned.
   */
  ghost predicate Progress(
    before: seq<Service>, table0: map<string, nat>,
    after: seq<Service>, table: map<string, nat>, target: nat, done: seq<string>)
  {
    && target < |before| == |after|
    && Submap(table0, table)
    && (forall s :: 0 <= s < |after| && s != target ==> after[s] == before[s])
    && after[target].rules == before[target].rules
    && before[target].domains <= after[target].domains
    && (forall d :: d in done ==> d in table)
    && (forall d :: d in table && d !in table0 ==> d in done && table[d] == target)
    && (forall d :: d in after[target].domains <==>
          d in before[target].domains || (d in done && (d !in table0 || table0[d] == target)))
  }

  /** The domain is skipped: another service owns it, or the target has it already. */
  lemma SkipProgress(
    u: Unicode, before: seq<Service>, table0: map<string, nat>,
    after: seq<Service>, table: map<string, nat>, target: nat, done: seq<string>, domain: string)
    requires Progress(before, table0, after, table, target, done) && Consistent(u, after, table)
    requires (domain in table && table[domain] != target) || domain in after[target].domains
    requires Consistent(u, before, table0)
    ensures Progress(before, table0, after, table, target, done + [domain])
  {
    assert domain in table;
    if domain in after[target].domains { assert table[domain] == target; }
  }

  lemma CollectProgress(
    before: seq<Service>, table0: map<string, nat>,
    after: seq<Service>, table: map<string, nat>, target: nat, done: seq<string>, domain: string)
    requires Progress(before, table0, after, table, target, done)
    requires domain in table ==> table[domain] == target
    requires domain !in after[target].domains
    ensures Progress(before, table0, Collect(after, target, domain), table[domain := target], target, done + [domain])
  {
  }

  /** Some portal of the file names a domain that cleans to `d`. */
  ghost predicate Named(u: Unicode, portals: seq<Portal>, d: string)
  {
    exists k :: 0 <= k < |portals| && d in Cleaned(u, portals[k].raw)
  }

  ghost predicate NamedBy(u: Unicode, files: seq<seq<Portal>>, d: string)
  {
    exists f :: 0 <= f < |files| && Named(u, files[f], d)
  }

  class Catalog {
    const u: Unicode
    var services: seq<Service>
    var serviceMatch: map<string, nat>
    var opencckServices: map<string, nat>
    var domainOwner: map<string, nat>

    ghost predicate Valid()
      reads this
    {
      && (forall k :: k in serviceMatch ==> serviceMatch[k] < |services|)
      && (forall b :: b in opencckServices ==> opencckServices[b] < |services|)
      && Consistent(u, services, domainOwner)
    }

    /** Everything that only grows while portals are added. */
    twostate predicate Extends()
      reads this
    {
      && Submap(old(domainOwner), domainOwner)
      && |old(services)| <= |services|
      && (forall s :: 0 <= s < |old(services)| ==>
            services[s].rules == old(services)[s].rules && old(services)[s].domains <= services[s].domains)
    }

    constructor (u: Unicode, services: seq<Service>, serviceMatch: map<string, nat>)
      requires forall s :: 0 <= s < |services| ==> services[s].domains == []
      requires forall k :: k in serviceMatch ==> serviceMatch[k] < |services|
      ensures Valid() && this.u == u && this.services == services
      ensures this.serviceMatch == serviceMatch && opencckServices == map[] && domainOwner == map[]
    {
      this.u := u;
      this.services, this.serviceMatch := services, serviceMatch;
      opencckServices, domainOwner := map[], map[];
    }

    /** `domain_owner.setdefault` for a list of names of one rule. */
    method ClaimNames(s: nat, names: seq<string>)
      modifies this`domainOwner
      ensures domainOwner == SetDefaults(u, old(domainOwner), names, s)
    {
      var i := 0;
      while i < |names|
        invariant 0 <= i <= |names|
        invariant domainOwner == SetDefaults(u, old(domainOwner), names[..i], s)
      {
        assert names[..i + 1][..i] == names[..i];
        var d := u.casefold(names[i]);
        if d !in domainOwner {
          domainOwner := domainOwner[d := s];
        }
        i := i + 1;
      }
      assert names[..i] == names;
    }

    /** Service `s` names the domain in its rules, and no earlier one does. */
    ghost predicate FirstToName(services: seq<Service>, s: nat, d: string)
    {
      && s < |services| && InRules(u, services[s].rules, d)
      && forall t :: 0 <= t < s ==> !InRules(u, services[t].rules, d)
    }

    /** The rules of one service claim the domains that nobody owns. */
    method ClaimService(s: nat)
      requires Valid() && s < |services|
      modifies this`domainOwner
      ensures Valid() && Submap(old(domainOwner), domainOwner)
      ensures forall d :: InRules(u, services[s].rules, d) ==> d in domainOwner
      ensures forall d :: d in domainOwner && d !in old(domainOwner) ==>
                domainOwner[d] == s && InRules(u, services[s].rules, d)
    {
      var r := 0;
      var rules := services[s].rules;
      while r < |rules|
        invariant 0 <= r <= |rules|
        invariant Valid() && Submap(old(domainOwner), domainOwner)
        invariant forall d :: InRules(u, rules[..r], d) ==> d in domainOwner
        invariant forall d :: d in domainOwner && d !in old(domainOwner) ==> domainOwner[d] == s && InRules(u, rules, d)
      {
        RuleNames(u, rules, r);
        SetDefaultsKeepsConsistent(u, services, domainOwner, rules[r].exact, s);
        ClaimNames(s, rules[r].exact);
        SetDefaultsKeepsConsistent(u, services, domainOwner, rules[r].suffixes, s);
        ClaimNames(s, rules[r].suffixes);
        r := r + 1;
      }
      assert rules[..r] == rules;
    }

    /** The rules of the exported services claim their domains, in order: the first service to name one owns it. */
    method ClaimRules()
      requires Valid()
      modifies this`domainOwner
      ensures Valid() && Submap(old(domainOwner), domainOwner)
      ensures forall s, d :: 0 <= s < |services| && InRules(u, services[s].rules, d) ==> d in domainOwner
      ensures forall d :: d in domainOwner && d !in old(domainOwner) ==> FirstToName(services, domainOwner[d], d)
    {
      var s := 0;
      while s < |services|
        invariant 0 <= s <= |services|
        invariant Valid() && Submap(old(domainOwner), domainOwner)
        invariant forall t, d :: 0 <= t < s && InRules(u, services[t].rules, d) ==> d in domainOwner
        invariant forall d :: d in domainOwner && d !in old(domainOwner) ==> FirstToName(services, domainOwner[d], d)
      {
        ClaimService(s);
        s := s + 1;
      }
    }

    /** The service a portal is merged into, created when nothing matches. */
    method FindTarget(p: Portal) returns (target: nat)
      requires Valid()
      modifies this
      ensures Valid() && target < |services|
      // the first candidate that names a service decides, then the brand, else the service is new
      ensures forall i ::
        (&& 0 <= i < |p.candidates| && p.candidates[i] in old(serviceMatch)
         && (forall j :: 0 <= j < i ==> p.candidates[j] !in old(serviceMatch))) ==>
        target == old(serviceMatch)[p.candidates[i]]
      ensures (forall i :: 0 <= i < |p.candidates| ==> p.candidates[i] !in old(serviceMatch)) ==>
                target == if p.brand in old(opencckServices) then old(opencckServices)[p.brand] else |old(services)|
      ensures domainOwner == old(domainOwner)
      ensures services == if target < |old(services)| then old(services) else old(services) + [Service([], [])]
      ensures target < |old(services)| ==> serviceMatch == old(serviceMatch) && opencckServices == old(opencckServices)
      ensures target == |old(services)| ==>
        && opencckServices == old(opencckServices)[p.brand := target]
        && (forall k :: k in serviceMatch <==> k in old(serviceMatch) || k in p.candidates)
        && (forall k :: k in serviceMatch ==>
            serviceMatch[k] == if k in p.candidates then target else old(serviceMatch)[k])
    {
      var i := 0;
      while i < |p.candidates|
        invariant 0 <= i <= |p.candidates|
        invariant forall k :: 0 <= k < i ==> p.candidates[k] !in serviceMatch
      {
        if p.candidates[i] in serviceMatch {
          return serviceMatch[p.candidates[i]];
        }
        i := i + 1;
      }
      if p.brand in opencckServices {
        return opencckServices[p.brand];
      }
      target := |services|;
      services := services + [Service([], [])];
      opencckServices := opencckServices[p.brand := target];
      RegisterCandidates(p.candidates, target);
      NewServiceKeepsConsistent(u, old(services), domainOwner);
    }

    method RegisterCandidates(candidates: seq<string>, target: nat)
      modifies this`serviceMatch
      ensures forall k :: k in serviceMatch <==> k in old(serviceMatch) || k in candidates
      ensures forall k :: k in serviceMatch ==>
          serviceMatch[k] == if k in candidates then target else old(serviceMatch)[k]
    {
      var i := 0;
      while i < |candidates|
        invariant 0 <= i <= |candidates|
        invariant forall c :: c in serviceMatch <==> c in old(serviceMatch) || c in candidates[..i]
        invariant forall c :: c in serviceMatch ==>
            serviceMatch[c] == if c in candidates[..i] then target else old(serviceMatch)[c]
      {
        assert candidates[..i + 1] == candidates[..i] + [candidates[i]];
        serviceMatch := serviceMatch[candidates[i] := target];
        i := i + 1;
      }
      assert candidates[..i] == candidates;
    }

    /** The claiming loop of one portal. */
    method ClaimDomains(target: nat, collapsed: seq<string>)
      requires Valid() && target < |services|
      modifies this`services, this`domainOwner
      ensures Valid() && Extends()
      ensures Progress(old(services), old(domainOwner), services, domainOwner, target, collapsed)
    {
      var i := 0;
      while i < |collapsed|
        invariant 0 <= i <= |collapsed|
        invariant Valid()
        invariant Progress(old(services), old(domainOwner), services, domainOwner, target, collapsed[..i])
      {
        var domain := collapsed[i];
        assert collapsed[..i + 1] == collapsed[..i] + [domain];
        if domain in domainOwner && domainOwner[domain] != target {
          SkipProgress(u, old(services), old(domainOwner), services, domainOwner, target, collapsed[..i], domain);
          i := i + 1;
          continue;
        }
        if domain !in services[target].domains {
          CollectKeepsConsistent(u, services, domainOwner, target, domain);
          CollectProgress(old(services), old(domainOwner), services, domainOwner, target, collapsed[..i], domain);
          services := Collect(services, target, domain);
          domainOwner := domainOwner[domain := target];
        } else {
          SkipProgress(u, old(services), old(domainOwner), services, domainOwner, target, collapsed[..i], domain);
        }
        i := i + 1;
      }
      assert collapsed[..i] == collapsed;
    }

    /** One portal of one snapshot file. */
    method AddPortal(p: Portal)
      requires Valid()
      modifies this
      ensures Valid() && Extends()
      ensures forall s, d :: 0 <= s < |services| && d in services[s].domains ==>
                (s < |old(services)| && d in old(services)[s].domains) || d in Cleaned(u, p.raw)
      ensures p.raw != [] ==> forall d :: d in Roots(Cleaned(u, p.raw)) ==> d in domainOwner
      // new owners: the service of the first known candidate, else of the brand, else a new one
      ensures forall d :: d in domainOwner && d !in old(domainOwner) ==> d in Roots(Cleaned(u, p.raw))
      ensures forall d, i ::
        (&& d in domainOwner && d !in old(domainOwner)
         && 0 <= i < |p.candidates| && p.candidates[i] in old(serviceMatch)
         && (forall j :: 0 <= j < i ==> p.candidates[j] !in old(serviceMatch))) ==>
        domainOwner[d] == old(serviceMatch)[p.candidates[i]]
      ensures forall d ::
        (&& d in domainOwner && d !in old(domainOwner)
         && (forall i :: 0 <= i < |p.candidates| ==> p.candidates[i] !in old(serviceMatch))) ==>
        domainOwner[d] == if p.brand in old(opencckServices) then old(opencckServices)[p.brand] else |old(services)|
    {
      if p.raw == [] {
        return;
      }
      var target := FindTarget(p);
      var collapsed := CollapseDomains(u, p.raw);
      assert forall d :: d in collapsed <==> d in Elements(collapsed);
      ClaimDomains(target, collapsed);
    }

    method AddFile(portals: seq<Portal>)
      requires Valid()
      modifies this
      ensures Valid() && Extends()
      ensures forall s, d :: 0 <= s < |services| && d in services[s].domains ==>
                (s < |old(services)| && d in old(services)[s].domains) || Named(u, portals, d)
      ensures forall k, d ::
        0 <= k < |portals| && portals[k].raw != [] && d in Roots(Cleaned(u, portals[k].raw)) ==> d in domainOwner
    {
      var k := 0;
      while k < |portals|
        invariant 0 <= k <= |portals|
        invariant Valid() && Extends()
        invariant forall s, d :: 0 <= s < |services| && d in services[s].domains ==>
                    (s < |old(services)| && d in old(services)[s].domains) || Named(u, portals, d)
        invariant forall j, d ::
          0 <= j < k && portals[j].raw != [] && d in Roots(Cleaned(u, portals[j].raw)) ==> d in domainOwner
      {
        AddPortal(portals[k]);
        k := k + 1;
      }
    }

    /**
      All snapshot files in order. `trace[f]` is the owner table before file `f`: it only
      grows, so a domain keeps the owner that the earliest file naming it gave it.
     */
    method AddFiles(files: seq<seq<Portal>>) returns (ghost trace: seq<map<string, nat>>)
      requires Valid()
      modifies this
      ensures Valid() && Extends()
      ensures forall s, d :: 0 <= s < |services| && d in services[s].domains ==>
                (s < |old(services)| && d in old(services)[s].domains) || NamedBy(u, files, d)
      ensures |trace| == |files| + 1 && trace[0] == old(domainOwner) && trace[|files|] == domainOwner
      ensures forall f, g :: 0 <= f <= g < |trace| ==> Submap(trace[f], trace[g])
      ensures forall f, k, d ::
        (0 <= f < |files| && 0 <= k < |files[f]| && files[f][k].raw != [] &&
            d in Roots(Cleaned(u, files[f][k].raw))) ==>
        d in trace[f + 1] && d in domainOwner && domainOwner[d] == trace[f + 1][d] &&
            Holds(u, services, domainOwner[d], d)
    {
      trace := [domainOwner];
      var f := 0;
      while f < |files|
        invariant 0 <= f <= |files|
        invariant Valid() && Extends()
        invariant forall s, d :: 0 <= s < |services| && d in services[s].domains ==>
                    (s < |old(services)| && d in old(services)[s].domains) || NamedBy(u, files, d)
        invariant |trace| == f + 1 && trace[0] == old(domainOwner) && trace[f] == domainOwner
        invariant forall g, h :: 0 <= g <= h < |trace| ==> Submap(trace[g], trace[h])
        invariant forall g, k, d ::
          (0 <= g < f && 0 <= k < |files[g]| && files[g][k].raw != [] && d in Roots(Cleaned(u, files[g][k].raw))) ==>
          d in trace[g + 1]
      {
        AddFile(files[f]);
        trace := trace + [domainOwner];
        f := f + 1;
      }
      assert forall g :: 0 <= g < |trace| ==> Submap(trace[g], trace[|files|]);
    }

    /** The final pass turns `_domains` into one suffix rule per service. */
    method Finish()
      requires Valid()
      modifies this`services
      ensures |services| == |old(services)|
      ensures forall s :: 0 <= s < |services| ==>
          services[s].domains == [] && Finished(u, old(services)[s], services[s])
    {
      var s := 0;
      while s < |services|
        invariant 0 <= s <= |services| == |old(services)|
        invariant forall t :: 0 <= t < s ==> services[t].domains == [] && Finished(u, old(services)[t], services[t])
        invariant forall t :: s <= t < |services| ==> services[t] == old(services)[t]
      {
        var service := services[s];
        var domains := CollapseDomains(u, AsValues(service.domains));
        var rules := service.rules;
        if domains != [] {
          rules := rules + [Rule([], domains)];
        }
        assert domains == [] <==> Elements(domains) == {} by { assert domains != [] ==>
            domains[0] in Elements(domains); }
        services := services[s := Service(rules, [])];
        s := s + 1;
      }
    }

    /** The whole merge. On tidy files no host of a collapsed portal domain with a dot goes unmatched. */
    method Build(files: seq<seq<Portal>>)
      requires Valid() && forall s :: 0 <= s < |services| ==> services[s].domains == []
      modifies this
      ensures Tidy(u, files) ==> forall f, k, d, host ::
        && 0 <= f < |files| && 0 <= k < |files[f]| && files[f][k].raw != []
        && d in Roots(Cleaned(u, files[f][k].raw)) && '.' in d && Covers(d, host) ==>
        exists s :: 0 <= s < |services| && (InRules(u, services[s].rules, d) || SuffixMatched(services[s].rules, host))
    {
      ClaimRules();
      ghost var trace := AddFiles(files);
      ghost var before, owner := services, domainOwner;
      Finish();
      if Tidy(u, files) {
        forall f, k, d, host |
          && 0 <= f < |files| && 0 <= k < |files[f]| && files[f][k].raw != []
          && d in Roots(Cleaned(u, files[f][k].raw)) && '.' in d && Covers(d, host)
          ensures exists s ::
            0 <= s < |services| && (InRules(u, services[s].rules, d) || SuffixMatched(services[s].rules, host))
        {
          assert Holds(u, before, owner[d], d);
          assert Named(u, files[f], d);
          NamedIsClean(u, files, d);
          OwnerMatches(u, before[owner[d]], services[owner[d]], d, host);
        }
      }
    }
  }

  /** The owner of a clean name ends with a rule for it. */
  lemma OwnerMatches(u: Unicode, before: Service, after: Service, d: string, host: string)
    requires Finished(u, before, after) && '.' in d && CleanDomain(u, d) == d && Covers(d, host)
    requires d in before.domains || InRules(u, before.rules, d)
    ensures InRules(u, after.rules, d) || SuffixMatched(after.rules, host)
  {
    if d in before.domains {
      CollectedDomainsMatch(u, before, after, d, host);
    } else {
      var r :| 0 <= r < |before.rules| && (Names(u, before.rules[r].exact, d) || Names(u, before.rules[r].suffixes, d));
      assert after.rules[r] == before.rules[r];
    }
  }

  lemma RuleNames(u: Unicode, rules: seq<Rule>, r: nat)
    requires r < |rules|
    ensures forall i :: 0 <= i < |rules[r].exact| ==> InRules(u, rules, u.casefold(rules[r].exact[i]))
    ensures forall i :: 0 <= i < |rules[r].suffixes| ==> InRules(u, rules, u.casefold(rules[r].suffixes[i]))
    ensures forall d :: InRules(u, rules[..r + 1], d) ==>
              InRules(u, rules[..r], d) || Names(u, rules[r].exact, d) || Names(u, rules[r].suffixes, d)
  {
    forall d | InRules(u, rules[..r + 1], d)
      ensures InRules(u, rules[..r], d) || Names(u, rules[r].exact, d) || Names(u, rules[r].suffixes, d)
    {
      var k :| 0 <= k < r + 1 && (Names(u, rules[..r + 1][k].exact, d) || Names(u, rules[..r + 1][k].suffixes, d));
      if k < r { assert rules[..r][k] == rules[..r + 1][k]; }
    }
    forall i | 0 <= i < |rules[r].exact| ensures InRules(u, rules, u.casefold(rules[r].exact[i])) {
      assert Names(u, rules[r].exact, u.casefold(rules[r].exact[i]));
    }
    forall i | 0 <= i < |rules[r].suffixes| ensures InRules(u, rules, u.casefold(rules[r].suffixes[i])) {
      assert Names(u, rules[r].suffixes, u.casefold(rules[r].suffixes[i]));
    }
  }

  function AsValues(domains: seq<string>): (r: seq<Value>)
    ensures |r| == |domains|
    ensures forall i :: 0 <= i < |r| ==> r[i] == Str(domains[i])
  {
    seq(|domains|, i requires 0 <= i < |domains| => Str(domains[i]))
  }

  /** What the final pass does to one service. */
  ghost predicate Finished(u: Unicode, before: Service, after: Service)
  {
    var roots := Roots(Cleaned(u, AsValues(before.domains)));
    if roots == {} then after.rules == before.rules
    else
      && |after.rules| == |before.rules| + 1
      && after.rules[..|before.rules|] == before.rules
      && var last := after.rules[|before.rules|];
      last.exact == [] && Sorted(last.suffixes) && Elements(last.suffixes) == roots
  }

  /** The suffix rules of a service match a host. */
  predicate SuffixMatched(rules: seq<Rule>, host: string)
  {
    exists r, i :: 0 <= r < |rules| && 0 <= i < |rules[r].suffixes| && Covers(rules[r].suffixes[i], host)
  }

  // ---------------------------------------------------------------- what the final pass preserves

  /** The suffixes that the final pass adds to a service. */
  function Added(before: Service, after: Service): set<string>
  {
    if |after.rules| == |before.rules| + 1 then Elements(after.rules[|before.rules|].suffixes) else {}
  }

  lemma AddedIsRoots(u: Unicode, before: Service, after: Service)
    requires Finished(u, before, after)
    ensures Added(before, after) == Roots(Cleaned(u, AsValues(before.domains)))
  {
  }

  lemma CleanedAgain(u: Unicode, domains: seq<string>, e: string)
    ensures e in Cleaned(u, AsValues(domains)) <==> exists x :: x in domains && '.' in x && CleanDomain(u, x) == e
  {
    var values := AsValues(domains);
    if x :| x in domains && '.' in x && CleanDomain(u, x) == e {
      var i :| 0 <= i < |domains| && domains[i] == x;
      assert Considered(values[i]) && CleanDomain(u, values[i].text) == e;
    }
    if e in Cleaned(u, values) {
      var i :| 0 <= i < |values| && Considered(values[i]) && CleanDomain(u, values[i].text) == e;
      assert domains[i] in domains && values[i].text == domains[i];
    }
  }

  /** Everything below `d` stays matched exactly if some collected name with a dot still covers `d` once cleaned. */
  lemma CollectedDomainMatchesIff(u: Unicode, before: Service, after: Service, d: string)
    requires Finished(u, before, after)
    ensures (forall host :: Covers(d, host) ==> Matched(host, Added(before, after)))
            <==> exists x :: x in before.domains && '.' in x && Covers(CleanDomain(u, x), d)
  {
    var entries := Cleaned(u, AsValues(before.domains));
    AddedIsRoots(u, before, after);
    if forall host :: Covers(d, host) ==> Matched(host, Roots(entries)) {
      assert Covers(d, d);
      var e :| e in Roots(entries) && Covers(e, d);
      CleanedAgain(u, before.domains, e);
    }
    if x :| x in before.domains && '.' in x && Covers(CleanDomain(u, x), d) {
      CleanedAgain(u, before.domains, CleanDomain(u, x));
      forall host | Covers(d, host) ensures Matched(host, Roots(entries)) {
        CoversTransitive(CleanDomain(u, x), d, host);
        RootsMatchTheSame(entries, host);
      }
    }
  }

  /** The added rule matches what the collected names match exactly if cleaning them again keeps their roots. */
  lemma FinishPreservesIff(u: Unicode, before: Service, after: Service)
    requires Finished(u, before, after)
    ensures (forall host :: Matched(host, Elements(before.domains)) <==> Matched(host, Added(before, after)))
            <==> Roots(Elements(before.domains)) == Roots(Cleaned(u, AsValues(before.domains)))
  {
    var names, entries := Elements(before.domains), Cleaned(u, AsValues(before.domains));
    AddedIsRoots(u, before, after);
    forall host ensures Matched(host, Roots(entries)) <==> Matched(host, entries) { RootsMatchTheSame(entries, host); }
    SameHostsIffSameRoots(names, entries);
  }

  lemma {:induction false} NoDots(s: string)
    requires '.' !in s
    ensures Dots(s) == 0
  {
    if |s| > 0 { NoDots(s[1..]); }
  }

  /** A name without a dot is matched by no suffix that has one. */
  lemma DotlessIsUncovered(r: string, name: string)
    requires '.' in r && '.' !in name
    ensures !Covers(r, name)
  {
    if Covers(r, name) {
      NoDots(name);
      ParentHasFewerDots(r, name);
    }
  }

  /** For names that cleaning leaves alone, that means: exactly if all of them contain a dot. */
  lemma CleanNamesPreservedIff(u: Unicode, before: Service, after: Service)
    requires Finished(u, before, after) && forall x :: x in before.domains ==> CleanDomain(u, x) == x
    ensures (forall host :: Matched(host, Elements(before.domains)) <==> Matched(host, Added(before, after)))
            <==> (forall x :: x in before.domains ==> '.' in x)
  {
    var names, entries := Elements(before.domains), Cleaned(u, AsValues(before.domains));
    AddedIsRoots(u, before, after);
    forall e ensures e in entries <==> e in names && '.' in e { CleanedAgain(u, before.domains, e); }
    if forall x :: x in before.domains ==> '.' in x {
      assert entries == names;
      forall host ensures Matched(host, names) <==> Matched(host, Roots(entries)) { RootsMatchTheSame(entries, host); }
    } else {
      var x :| x in before.domains && '.' !in x;
      assert x in names && Covers(x, x) && Matched(x, names);
      forall r | r in Roots(entries) ensures !Covers(r, x) { DotlessIsUncovered(r, x); }
      assert !Matched(x, Roots(entries));
    }
  }

  /** All texts that are looked at are free of white space once folded. */
  ghost predicate Tidy(u: Unicode, files: seq<seq<Portal>>)
  {
    FoldsOnce(u) &&
    forall f, k, i :: 0 <= f < |files| && 0 <= k < |files[f]| && 0 <= i < |files[f][k].raw| ==>
      Considered(files[f][k].raw[i]) ==> Spaceless(u, files[f][k].raw[i].text)
  }

  lemma NamedIsClean(u: Unicode, files: seq<seq<Portal>>, d: string)
    requires Tidy(u, files) && NamedBy(u, files, d)
    ensures CleanDomain(u, d) == d
  {
    var f :| 0 <= f < |files| && Named(u, files[f], d);
    var k :| 0 <= k < |files[f]| && d in Cleaned(u, files[f][k].raw);
    var raw := files[f][k].raw;
    var i :| 0 <= i < |raw| && Considered(raw[i]) && CleanDomain(u, raw[i].text) == d;
    assert Spaceless(u, files[f][k].raw[i].text);
    SpacelessStays(u, raw[i].text);
  }

  /** On tidy files the dot alone decides, for every service collected from them. */
  lemma TidyFilesPreservedIff(u: Unicode, files: seq<seq<Portal>>, before: Service, after: Service)
    requires Tidy(u, files) && forall x :: x in before.domains ==> NamedBy(u, files, x)
    requires Finished(u, before, after)
    ensures (forall host :: Matched(host, Elements(before.domains)) <==> Matched(host, Added(before, after)))
            <==> (forall x :: x in before.domains ==> '.' in x)
  {
    forall x | x in before.domains ensures CleanDomain(u, x) == x { NamedIsClean(u, files, x); }
    CleanNamesPreservedIff(u, before, after);
  }

  /** A host below a collected name is matched by the finished rules, if cleaning leaves the name alone. */
  lemma CollectedDomainsMatch(u: Unicode, before: Service, after: Service, d: string, host: string)
    requires Finished(u, before, after) && d in before.domains && Covers(d, host)
    requires '.' in d && CleanDomain(u, d) == d
    ensures SuffixMatched(after.rules, host)
  {
    CollectedDomainMatchesIff(u, before, after, d);
    assert Covers(d, d);
    var r :| r in Added(before, after) && Covers(r, host);
    var last := |before.rules|;
    var i :| 0 <= i < |after.rules[last].suffixes| && after.rules[last].suffixes[i] == r;
  }

  /** A collected name without a dot is dropped again: the service gets no rule for it. */
  lemma DotlessDomainIsLost(u: Unicode, before: Service, after: Service, name: string)
    requires Finished(u, before, after) && before.domains == [name] && '.' !in name
    ensures after.rules == before.rules
  {
    assert Cleaned(u, AsValues(before.domains)) == {};
  }

  const ASCII := Unicode((s: string) => s, c => c == ' ')

  /** Cleaning "a.b. ." uncovers a blank; cleaning the result removes it, and the name is lost. */
  lemma SpacedDomainIsLost(before: Service, after: Service)
    requires before.domains == ["a.b. "] && Finished(ASCII, before, after)
    ensures Cleaned(ASCII, [Str("a.b. .")]) == {"a.b. "}
    ensures Added(before, after) == {"a.b"} && !Matched("a.b. ", Added(before, after))
  {
    CleansTo();
    var values := [Str("a.b. .")];
    assert Considered(values[0]) by { assert "a.b. ."[1] == '.'; }
    assert Cleaned(ASCII, values) == {"a.b. "}
        by { assert CleanDomain(ASCII, values[0].text) in Cleaned(ASCII, values); }
    var again := AsValues(before.domains);
    assert Considered(again[0]) by { assert "a.b. "[1] == '.'; }
    var entries := Cleaned(ASCII, again);
    assert entries == {"a.b"} by { assert CleanDomain(ASCII, again[0].text) in entries; }
    AddedIsRoots(ASCII, before, after);
    assert Roots(entries) == {"a.b"};
    assert !EndsWith("a.b. ", ".a.b") by { assert "a.b. "[4] == ' ' && ".a.b"[3] == 'b'; }
  }

  lemma CleansTo()
    ensures CleanDomain(ASCII, "a.b. .") == "a.b. " && CleanDomain(ASCII, "a.b. ") == "a.b"
  {
    assert "a.b. ."[..5] == "a.b. " && "a.b. "[..4] == "a.b." && "a.b."[..3] == "a.b";
    var blank, dot := ASCII.isSpace, (c: char) => c == '.';
    assert RStrip("a.b. .", blank) == "a.b. ." && RStrip("a.b. .", dot) == RStrip("a.b. ", dot) == "a.b. ";
    assert RStrip("a.b. ", blank) == RStrip("a.b.", blank) == "a.b.";
    assert RStrip("a.b.", dot) == RStrip("a.b", dot) == "a.b";
  }
}
