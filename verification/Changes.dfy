// The changes a transaction collects, and how they are split into jobs.
module Changes {
  import opened Prelude
  import opened Rules
  import opened Ffi
  import opened PfKernel
  import opened CommitSpec

  /** AnchorChange: what to set in one anchor; None leaves a ruleset alone. */
  datatype Change = Change(
    filterRules: Option<seq<FilterRule>>, natRules: Option<seq<NatRule>>,
    redirectRules: Option<seq<RedirectRule>>, scrubRules: Option<seq<ScrubRule>>)

  type ChangeMap = map<Text, Change>

  /** One pair of a partition vector: an anchor and the rules to set. */
  datatype Entry<R> = Entry(anchor: Text, rules: seq<R>)

  /** The four partition vectors, each in whatever order the hash map was walked. */
  datatype Partition = Partition(
    filters: seq<Entry<FilterRule>>, nats: seq<Entry<NatRule>>,
    redirects: seq<Entry<RedirectRule>>, scrubs: seq<Entry<ScrubRule>>)

  function FilterChanges(c: ChangeMap): map<Text, seq<FilterRule>> {
    map a | a in c && c[a].filterRules.Some? :: c[a].filterRules.value
  }

  function NatChanges(c: ChangeMap): map<Text, seq<NatRule>> {
    map a | a in c && c[a].natRules.Some? :: c[a].natRules.value
  }

  function RedirectChanges(c: ChangeMap): map<Text, seq<RedirectRule>> {
    map a | a in c && c[a].redirectRules.Some? :: c[a].redirectRules.value
  }

  function ScrubChanges(c: ChangeMap): map<Text, seq<ScrubRule>> {
    map a | a in c && c[a].scrubRules.Some? :: c[a].scrubRules.value
  }

  // What is left of a change map once the rules of one kind have been taken out.

  function WithoutFilters(c: ChangeMap): ChangeMap {
    map a | a in c :: c[a].(filterRules := None)
  }

  function WithoutNats(c: ChangeMap): ChangeMap {
    map a | a in c :: c[a].(natRules := None)
  }

  function WithoutRedirects(c: ChangeMap): ChangeMap {
    map a | a in c :: c[a].(redirectRules := None)
  }

  function WithoutScrubs(c: ChangeMap): ChangeMap {
    map a | a in c :: c[a].(scrubRules := None)
  }

  lemma TakingKeepsTheRest(c: ChangeMap)
    ensures NatChanges(WithoutFilters(c)) == NatChanges(c)
    ensures RedirectChanges(WithoutNats(WithoutFilters(c))) == RedirectChanges(c)
    ensures ScrubChanges(WithoutRedirects(WithoutNats(WithoutFilters(c)))) == ScrubChanges(c)
  {
  }

  lemma TakingEmpties(c: ChangeMap)
    ensures var left := WithoutScrubs(WithoutRedirects(WithoutNats(WithoutFilters(c))));
            left.Keys == c.Keys && forall a :: a in left ==> left[a] == Change(None, None, None, None)
  {
  }

  /** A walk over a map: every pair once, in any order. */
  ghost predicate Lists<R>(entries: seq<Entry<R>>, m: map<Text, seq<R>>) {
    && (forall i, j :: 0 <= i < j < |entries| ==> entries[i].anchor != entries[j].anchor)
    && (forall i :: 0 <= i < |entries| ==> entries[i].anchor in m && m[entries[i].anchor] == entries[i].rules)
    && (forall a :: a in m ==> exists i :: 0 <= i < |entries| && entries[i].anchor == a)
  }

  lemma ListsFront<R>(entries: seq<Entry<R>>, m: map<Text, seq<R>>)
    requires Lists(entries, m) && entries != []
    ensures var last := entries[|entries| - 1].anchor;
            Lists(entries[..|entries| - 1], m - {last})
  {
  }

  lemma OneKeyLess<V>(m: map<Text, V>, key: Text)
    requires key in m
    ensures |m| == |m - {key}| + 1
  {
  }

  /** A walk has as many pairs as the map. */
  lemma {:induction false} ListsCount<R>(entries: seq<Entry<R>>, m: map<Text, seq<R>>)
    requires Lists(entries, m)
    ensures |entries| == |m|
  {
    if entries == [] {
      assert m.Keys == {};
    } else {
      OneKeyLess(m, entries[|entries| - 1].anchor);
      ListsFront(entries, m);
      ListsCount(entries[..|entries| - 1], m - {entries[|entries| - 1].anchor});
    }
  }

  ghost predicate Partitions(p: Partition, c: ChangeMap) {
    && Lists(p.filters, FilterChanges(c))
    && Lists(p.nats, NatChanges(c))
    && Lists(p.redirects, RedirectChanges(c))
    && Lists(p.scrubs, ScrubChanges(c))
  }

  // ---- Jobs ----

  function AsFilter(r: FilterRule): Rule { FilterOf(r) }
  function AsNat(r: NatRule): Rule { NatOf(r) }
  function AsRedirect(r: RedirectRule): Rule { RedirectOf(r) }
  function AsScrub(r: ScrubRule): Rule { ScrubOf(r) }

  function RulesFrom<R>(wrap: R -> Rule, rules: seq<R>): seq<Rule> {
    seq(|rules|, k requires 0 <= k < |rules| => wrap(rules[k]))
  }

  function JobsFrom<R>(kind: RulesetKind, wrap: R -> Rule, entries: seq<Entry<R>>): seq<Job> {
    seq(|entries|, i requires 0 <= i < |entries| => Job(entries[i].anchor, kind, RulesFrom(wrap, entries[i].rules)))
  }

  /** One job per pair, filter rules first, then NAT, redirect and scrub rules. */
  function JobsOf(p: Partition): seq<Job> {
    JobsFrom(RulesetKind.Filter, AsFilter, p.filters) + JobsFrom(RulesetKind.Nat, AsNat, p.nats)
    + JobsFrom(RulesetKind.Redirect, AsRedirect, p.redirects) + JobsFrom(RulesetKind.Scrub, AsScrub, p.scrubs)
  }

  // ---- What a change map asks of a ruleset ----

  /** The rules a change sets in a ruleset of its anchor, if it sets any: all of them, in order. */
  function Asks(change: Change, ruleset: int): Option<seq<Rule>> {
    if ruleset == PF_RULESET_FILTER then
      match change.filterRules
      case Some(rs) => Some(seq(|rs|, k requires 0 <= k < |rs| => FilterOf(rs[k])))
      case None => None
    else if ruleset == PF_RULESET_NAT then
      match change.natRules
      case Some(rs) => Some(seq(|rs|, k requires 0 <= k < |rs| => NatOf(rs[k])))
      case None => None
    else if ruleset == PF_RULESET_RDR then
      match change.redirectRules
      case Some(rs) => Some(seq(|rs|, k requires 0 <= k < |rs| => RedirectOf(rs[k])))
      case None => None
    else if ruleset == PF_RULESET_SCRUB then
      match change.scrubRules
      case Some(rs) => Some(seq(|rs|, k requires 0 <= k < |rs| => ScrubOf(rs[k])))
      case None => None
    else None
  }

  /** The rules a change map sets in a ruleset, if it sets any. */
  function Wanted(c: ChangeMap, key: Key): Option<seq<Rule>> {
    if key.anchor in c then Asks(c[key.anchor], key.ruleset) else None
  }

  function WantedFrom<R>(wrap: R -> Rule, m: map<Text, seq<R>>, anchor: Text): Option<seq<Rule>> {
    if anchor in m then Some(RulesFrom(wrap, m[anchor])) else None
  }

  /** The same, from the four partitions. */
  function WantedFromParts(c: ChangeMap, key: Key): Option<seq<Rule>> {
    if key.ruleset == PF_RULESET_FILTER then WantedFrom(AsFilter, FilterChanges(c), key.anchor)
    else if key.ruleset == PF_RULESET_NAT then WantedFrom(AsNat, NatChanges(c), key.anchor)
    else if key.ruleset == PF_RULESET_RDR then WantedFrom(AsRedirect, RedirectChanges(c), key.anchor)
    else if key.ruleset == PF_RULESET_SCRUB then WantedFrom(AsScrub, ScrubChanges(c), key.anchor)
    else None
  }

  lemma SameRules<R>(wrap: R -> Rule, rules: seq<R>, asked: seq<Rule>)
    requires |asked| == |rules| && forall k :: 0 <= k < |rules| ==> asked[k] == wrap(rules[k])
    ensures RulesFrom(wrap, rules) == asked
  {
  }

  lemma PartsAgree(c: ChangeMap, key: Key)
    ensures WantedFromParts(c, key) == Wanted(c, key)
  {
    if key.anchor in c {
      var change := c[key.anchor];
      if change.filterRules.Some? {
        SameRules(AsFilter, change.filterRules.value, Asks(change, PF_RULESET_FILTER).value);
      }
      if change.natRules.Some? {
        SameRules(AsNat, change.natRules.value, Asks(change, PF_RULESET_NAT).value);
      }
      if change.redirectRules.Some? {
        SameRules(AsRedirect, change.redirectRules.value, Asks(change, PF_RULESET_RDR).value);
      }
      if change.scrubRules.Some? {
        SameRules(AsScrub, change.scrubRules.value, Asks(change, PF_RULESET_SCRUB).value);
      }
    }
  }

  /** Jobs that set exactly what is wanted, each ruleset once. */
  ghost predicate Covers(jobs: seq<Job>, c: ChangeMap) {
    && Proper(jobs)
    && (forall m :: 0 <= m < |jobs| ==> Wanted(c, jobs[m].Key()) == Some(jobs[m].rules))
    && (forall key :: Wanted(c, key).Some? ==> exists m :: 0 <= m < |jobs| && jobs[m].Key() == key)
  }

  lemma PartCovers<R>(kind: RulesetKind, wrap: R -> Rule, entries: seq<Entry<R>>, m: map<Text, seq<R>>)
    requires Lists(entries, m) && forall r :: wrap(r).Kind() == kind
    ensures var jobs := JobsFrom(kind, wrap, entries);
            && Proper(jobs)
            && (forall i :: 0 <= i < |jobs| ==>
                  jobs[i].kind == kind && WantedFrom(wrap, m, jobs[i].anchor) == Some(jobs[i].rules))
            && (forall a :: a in m ==> exists i :: 0 <= i < |jobs| && jobs[i].anchor == a)
  {
    var jobs := JobsFrom(kind, wrap, entries);
    forall a | a in m
      ensures exists i :: 0 <= i < |jobs| && jobs[i].anchor == a
    {
      var i :| 0 <= i < |entries| && entries[i].anchor == a;
      assert jobs[i].anchor == a;
    }
  }

  lemma ProperConcat(a: seq<Job>, b: seq<Job>)
    requires Proper(a) && Proper(b)
    requires forall i, j :: 0 <= i < |a| && 0 <= j < |b| ==> a[i].kind != b[j].kind
    ensures Proper(a + b)
  {
  }

  lemma PartsOfKinds(c: ChangeMap, anchor: Text)
    ensures WantedFrom(AsFilter, FilterChanges(c), anchor) == Wanted(c, Key(anchor, RulesetOf(RulesetKind.Filter)))
    ensures WantedFrom(AsNat, NatChanges(c), anchor) == Wanted(c, Key(anchor, RulesetOf(RulesetKind.Nat)))
    ensures WantedFrom(AsRedirect, RedirectChanges(c), anchor)
            == Wanted(c, Key(anchor, RulesetOf(RulesetKind.Redirect)))
    ensures WantedFrom(AsScrub, ScrubChanges(c), anchor) == Wanted(c, Key(anchor, RulesetOf(RulesetKind.Scrub)))
  {
    hide WantedFrom, Wanted, FilterChanges, NatChanges, RedirectChanges, ScrubChanges;
    PartsAgree(c, Key(anchor, RulesetOf(RulesetKind.Filter)));
    PartsAgree(c, Key(anchor, RulesetOf(RulesetKind.Nat)));
    PartsAgree(c, Key(anchor, RulesetOf(RulesetKind.Redirect)));
    PartsAgree(c, Key(anchor, RulesetOf(RulesetKind.Scrub)));
  }

  lemma PartWanted<R>(kind: RulesetKind, wrap: R -> Rule, entries: seq<Entry<R>>, m: map<Text, seq<R>>, c: ChangeMap)
    requires Lists(entries, m) && forall r :: wrap(r).Kind() == kind
    requires forall a :: WantedFrom(wrap, m, a) == Wanted(c, Key(a, RulesetOf(kind)))
    ensures var jobs := JobsFrom(kind, wrap, entries);
            && Proper(jobs)
            && forall i :: 0 <= i < |jobs| ==> jobs[i].kind == kind && Wanted(c, jobs[i].Key()) == Some(jobs[i].rules)
  {
    hide JobsFrom, Lists, Wanted, WantedFrom, RulesetOf;
    PartCovers(kind, wrap, entries, m);
  }

  /** One element per set field, grouped by kind, no ruleset twice: a partition covers its map. */
  lemma PartitionCovers(p: Partition, c: ChangeMap)
    requires Partitions(p, c)
    ensures Covers(JobsOf(p), c)
  {
    hide JobsFrom, Lists, Wanted, WantedFrom, RulesetOf, Proper;
    forall a
      ensures WantedFrom(AsFilter, FilterChanges(c), a) == Wanted(c, Key(a, RulesetOf(RulesetKind.Filter)))
      ensures WantedFrom(AsNat, NatChanges(c), a) == Wanted(c, Key(a, RulesetOf(RulesetKind.Nat)))
      ensures WantedFrom(AsRedirect, RedirectChanges(c), a) == Wanted(c, Key(a, RulesetOf(RulesetKind.Redirect)))
      ensures WantedFrom(AsScrub, ScrubChanges(c), a) == Wanted(c, Key(a, RulesetOf(RulesetKind.Scrub)))
    {
      PartsOfKinds(c, a);
    }
    var f := JobsFrom(RulesetKind.Filter, AsFilter, p.filters);
    var n := JobsFrom(RulesetKind.Nat, AsNat, p.nats);
    var r := JobsFrom(RulesetKind.Redirect, AsRedirect, p.redirects);
    var s := JobsFrom(RulesetKind.Scrub, AsScrub, p.scrubs);
    PartWanted(RulesetKind.Filter, AsFilter, p.filters, FilterChanges(c), c);
    PartWanted(RulesetKind.Nat, AsNat, p.nats, NatChanges(c), c);
    PartWanted(RulesetKind.Redirect, AsRedirect, p.redirects, RedirectChanges(c), c);
    PartWanted(RulesetKind.Scrub, AsScrub, p.scrubs, ScrubChanges(c), c);
    ProperConcat(f, n);
    ProperConcat(f + n, r);
    ProperConcat(f + n + r, s);
    forall key | Wanted(c, key).Some?
      ensures exists m :: 0 <= m < |JobsOf(p)| && JobsOf(p)[m].Key() == key
    {
      WantedListed(p, c, key);
    }
  }

  lemma WantedListed(p: Partition, c: ChangeMap, key: Key)
    requires Partitions(p, c) && Wanted(c, key).Some?
    ensures exists m :: 0 <= m < |JobsOf(p)| && JobsOf(p)[m].Key() == key
  {
    hide JobsFrom, Lists, Wanted;
    forall key
      ensures WantedFromParts(c, key) == Wanted(c, key)
    {
      PartsAgree(c, key);
    }
    var f := JobsFrom(RulesetKind.Filter, AsFilter, p.filters);
    var n := JobsFrom(RulesetKind.Nat, AsNat, p.nats);
    var r := JobsFrom(RulesetKind.Redirect, AsRedirect, p.redirects);
    var s := JobsFrom(RulesetKind.Scrub, AsScrub, p.scrubs);
    if key.ruleset == PF_RULESET_FILTER {
      PartCovers(RulesetKind.Filter, AsFilter, p.filters, FilterChanges(c));
      KeyListed([], f, n + r + s, key, RulesetKind.Filter);
      assert JobsOf(p) == [] + f + (n + r + s);
    } else if key.ruleset == PF_RULESET_NAT {
      PartCovers(RulesetKind.Nat, AsNat, p.nats, NatChanges(c));
      KeyListed(f, n, r + s, key, RulesetKind.Nat);
      assert JobsOf(p) == f + n + (r + s);
    } else if key.ruleset == PF_RULESET_RDR {
      PartCovers(RulesetKind.Redirect, AsRedirect, p.redirects, RedirectChanges(c));
      KeyListed(f + n, r, s, key, RulesetKind.Redirect);
      assert JobsOf(p) == f + n + r + s;
    } else {
      PartCovers(RulesetKind.Scrub, AsScrub, p.scrubs, ScrubChanges(c));
      KeyListed(f + n + r, s, [], key, RulesetKind.Scrub);
      assert JobsOf(p) == f + n + r + s + [];
    }
  }

  lemma KeyListed(before: seq<Job>, part: seq<Job>, after: seq<Job>, key: Key, kind: RulesetKind)
    requires key.ruleset == RulesetOf(kind) && forall i :: 0 <= i < |part| ==> part[i].kind == kind
    requires exists i :: 0 <= i < |part| && part[i].anchor == key.anchor
    ensures exists m :: 0 <= m < |before + part + after| && (before + part + after)[m].Key() == key
  {
    var i :| 0 <= i < |part| && part[i].anchor == key.anchor;
    assert (before + part + after)[|before| + i] == part[i];
  }
}
