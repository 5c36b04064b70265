/** The merge, the digest and the dispatch check, said of the fields of the facts. */
module FactsContents {
  import opened Wrappers
  import opened Ordering
  import opened SortedDict
  import opened Facts
  import opened MergeAlgebra
  import opened FactsDigest

  // ---- Merging ----

  /** Two limitations of one code and reason, one with a scope and one without, that a list of both sides would hold. */
  ghost predicate Clash(left: seq<Limitation>, right: seq<Limitation>) {
    exists x, y :: (x in left || x in right) && (y in left || y in right) && x.code == y.code && x.reason == y.reason
                && x.scope.None? && y.scope.Some?
  }

  ghost predicate LimitationLess(x: Limitation, y: Limitation) {
    || StrLess(x.code, y.code)
    || (x.code == y.code && StrLess(x.reason, y.reason))
    || (x.code == y.code && x.reason == y.reason && x.scope.Some? && y.scope.Some? &&
        StrLess(x.scope.value, y.scope.value))
  }

  /** The limitations of both sides, each once, by code, reason and scope. */
  ghost predicate MergedLimitations(left: seq<Limitation>, right: seq<Limitation>, merged: seq<Limitation>) {
    && (forall x :: x in merged <==> x in left || x in right)
    && forall i, j :: 0 <= i < j < |merged| ==> LimitationLess(merged[i], merged[j])
  }

  ghost predicate GroupMergedInto(left: FactGroup, right: FactGroup, merged: FactGroup) {
    && (merged.available <==> left.available || right.available)
    && MergedNamed(left.observations, right.observations, merged.observations, (o: Observation) => o.key)
    && MergedLimitations(left.limitations, right.limitations, merged.limitations)
    && merged.scanState == if right.scanState.Some? then right.scanState else left.scanState
  }

  ghost predicate Ascending(names: seq<string>) {
    forall i, j :: 0 <= i < j < |names| ==> StrLess(names[i], names[j])
  }

  ghost predicate ReportsOn(f: RepositoryFacts, id: string) {
    exists i :: 0 <= i < |f.statuses| && f.statuses[i].sourceId == id
  }

  lemma ClashIsMixed(left: seq<Limitation>, right: seq<Limitation>)
    ensures Mixed(left + right) <==> Clash(left, right)
  {
    var all := left + right;
    if Mixed(all) {
      var i, j :| 0 <= i < |all| && 0 <= j < |all| && all[i].code == all[j].code
        && all[i].reason == all[j].reason && all[i].scope.None? && all[j].scope.Some?;
      assert all[i] in all && all[j] in all;
    }
    if Clash(left, right) {
      var x, y :| (x in left || x in right) && (y in left || y in right) && x.code == y.code && x.reason == y.reason
        && x.scope.None? && y.scope.Some?;
      assert x in all && y in all;
    }
  }

  lemma LimitationOrder(x: Limitation, y: Limitation)
    requires KeyLess(LimitationKey()(x), LimitationKey()(y))
    requires x.code == y.code && x.reason == y.reason ==> (x.scope.Some? <==> y.scope.Some?)
    ensures LimitationLess(x, y)
  {
    hide StrLess;
    var a, b := LimitationKey()(x), LimitationKey()(y);
    StrTrichotomy(x.code, y.code);
    StrTrichotomy(x.reason, y.reason);
    assert a[0] == x.code && b[0] == y.code && a[1] == x.reason && b[1] == y.reason;
    assert a[1..][0] == a[1] && b[1..][0] == b[1] && a[1..][1..] == a[2..] && b[1..][1..] == b[2..];
    if x.scope.Some? && y.scope.Some? {
      TupleLess(a, b);
    } else if x.code == y.code && x.reason == y.reason {
      assert a == b;
      KeyTrichotomy(a, b);
    }
  }

  lemma LimitationsMerged(left: seq<Limitation>, right: seq<Limitation>)
    requires !Clash(left, right)
    ensures MergedLimitations(left, right, Canon(left + right, LimitationKey()))
  {
    hide KeyLess, StrLess, Canon, LimitationLess;
    var merged := Canon(left + right, LimitationKey());
    LimitationKeyInjective();
    CanonElements(left + right, LimitationKey());
    CanonFixed(left + right, LimitationKey());
    assert forall x :: x in left + right <==> x in left || x in right;
    forall i, j | 0 <= i < j < |merged| ensures LimitationLess(merged[i], merged[j]) {
      assert merged[i] in merged && merged[j] in merged;
      LimitationOrder(merged[i], merged[j]);
    }
  }

  lemma GroupMerged(left: FactGroup, right: FactGroup)
    requires !Clash(left.limitations, right.limitations)
    ensures GroupMergedInto(left, right, MergeGroup(left, right))
  {
    hide Clash, MergeBy, Canon, MergedNamed, MergedLimitations;
    MergedByName(left.observations, right.observations, ObservationKey(), (o: Observation) => o.key);
    LimitationsMerged(left.limitations, right.limitations);
  }

  lemma IdsAscending(ids: seq<string>)
    ensures Ascending(Canon(ids, IdKey()))
  {
    hide KeyLess, StrLess, Canon;
    var s := Canon(ids, IdKey());
    CanonFixed(ids, IdKey());
    forall i, j | 0 <= i < j < |s| ensures StrLess(s[i], s[j]) {
      assert KeyLess(IdKey()(s[i]), IdKey()(s[j]));
      TupleLess(IdKey()(s[i]), IdKey()(s[j]));
    }
  }

  lemma StatusIdsReported(f: RepositoryFacts, id: string)
    ensures id in StatusIds(f.statuses) <==> ReportsOn(f, id)
  {
    if ReportsOn(f, id) {
      var i :| 0 <= i < |f.statuses| && f.statuses[i].sourceId == id;
      assert StatusIds(f.statuses)[i] == id;
    }
  }

  /** The merge raises exactly when some list would hold clashing limitations. */
  lemma MergeRaises(a: RepositoryFacts, b: RepositoryFacts)
    ensures Merge(a, b).None? <==>
              || Clash(a.limitations, b.limitations)
              || Clash(a.groups.git.limitations, b.groups.git.limitations)
              || Clash(a.groups.documentation.limitations, b.groups.documentation.limitations)
              || Clash(a.groups.issues.limitations, b.groups.issues.limitations)
              || Clash(a.groups.cicd.limitations, b.groups.cicd.limitations)
              || Clash(a.groups.security.limitations, b.groups.security.limitations)
              || Clash(a.groups.codeHealth.limitations, b.groups.codeHealth.limitations)
  {
    hide Clash, Mixed, MergeUnchecked;
    ClashIsMixed(a.limitations, b.limitations);
    var g, h := a.groups, b.groups;
    ClashIsMixed(g.git.limitations, h.git.limitations);
    ClashIsMixed(g.documentation.limitations, h.documentation.limitations);
    ClashIsMixed(g.issues.limitations, h.issues.limitations);
    ClashIsMixed(g.cicd.limitations, h.cicd.limitations);
    ClashIsMixed(g.security.limitations, h.security.limitations);
    ClashIsMixed(g.codeHealth.limitations, h.codeHealth.limitations);
    assert Mixed(g.Get(Git).limitations + h.Get(Git).limitations) == Clash(g.git.limitations, h.git.limitations);
    assert Mixed(g.Get(Documentation).limitations + h.Get(Documentation).limitations) ==
      Clash(g.documentation.limitations, h.documentation.limitations);
    assert Mixed(g.Get(Issues).limitations + h.Get(Issues).limitations) ==
      Clash(g.issues.limitations, h.issues.limitations);
    assert Mixed(g.Get(Cicd).limitations + h.Get(Cicd).limitations) == Clash(g.cicd.limitations, h.cicd.limitations);
    assert Mixed(g.Get(Security).limitations + h.Get(Security).limitations) ==
      Clash(g.security.limitations, h.security.limitations);
    assert Mixed(g.Get(CodeHealth).limitations + h.Get(CodeHealth).limitations) ==
      Clash(g.codeHealth.limitations, h.codeHealth.limitations);
  }

  /** What a merge holds, field by field: single values of the right side where it has them, observations, statuses and
      capability states by name with the right side winning, limitations and capabilities of both sides, and the
      sources either side used or reports on. */
  lemma MergeContents(a: RepositoryFacts, b: RepositoryFacts)
    requires Merge(a, b).Some?
    ensures var m := Merge(a, b).value;
            && m.repository == (if b.repository.Some? then b.repository else a.repository)
            && m.snapshotDigest == (if b.snapshotDigest.Some? then b.snapshotDigest else a.snapshotDigest)
            && m.collectedAt == (if b.collectedAt.Some? then b.collectedAt else a.collectedAt)
            && m.profile == (if a.profile == b.profile then a.profile else OWNER_EXTENDED)
            && m.sourceVersions == a.sourceVersions + b.sourceVersions
            && MergedNamed(a.statuses, b.statuses, m.statuses, (s: SourceStatus) => s.sourceId)
            && MergedNamed(a.capabilityStates, b.capabilityStates, m.capabilityStates,
                           (c: CapabilityStatus) => c.capabilityId)
            && MergedLimitations(a.limitations, b.limitations, m.limitations)
            && Ascending(m.capabilities) && Ascending(m.usedSources)
            && (forall id :: id in m.capabilities <==> id in a.capabilities || id in b.capabilities)
            && (forall id :: id in m.usedSources <==>
                  id in a.usedSources || id in b.usedSources || ReportsOn(a, id) || ReportsOn(b, id))
            && GroupMergedInto(a.groups.git, b.groups.git, m.groups.git)
            && GroupMergedInto(a.groups.documentation, b.groups.documentation, m.groups.documentation)
            && GroupMergedInto(a.groups.issues, b.groups.issues, m.groups.issues)
            && GroupMergedInto(a.groups.cicd, b.groups.cicd, m.groups.cicd)
            && GroupMergedInto(a.groups.security, b.groups.security, m.groups.security)
            && GroupMergedInto(a.groups.codeHealth, b.groups.codeHealth, m.groups.codeHealth)
  {
    hide Clash, Mixed, MergeBy, Canon, MergeGroup, MergedNamed, MergedLimitations, GroupMergedInto, Ascending,
         StatusIds, ReportsOn, Conflict, Index;
    MergeRaises(a, b);
    MergeIsRightBiasedUnion(a, b);
    MergedByName(a.statuses, b.statuses, StatusKey(), (s: SourceStatus) => s.sourceId);
    MergedByName(a.capabilityStates, b.capabilityStates, CapabilityKey(), (c: CapabilityStatus) => c.capabilityId);
    LimitationsMerged(a.limitations, b.limitations);
    IdsAscending(a.capabilities + b.capabilities);
    IdsAscending(a.usedSources + b.usedSources + StatusIds(MergeBy(a.statuses, b.statuses, StatusKey())));
    forall id: string ensures (id in StatusIds(a.statuses) <==> ReportsOn(a, id))
      ensures id in StatusIds(b.statuses) <==> ReportsOn(b, id)
    {
      StatusIdsReported(a, id);
      StatusIdsReported(b, id);
    }
    GroupMerged(a.groups.git, b.groups.git);
    GroupMerged(a.groups.documentation, b.groups.documentation);
    GroupMerged(a.groups.issues, b.groups.issues);
    GroupMerged(a.groups.cicd, b.groups.cicd);
    GroupMerged(a.groups.security, b.groups.security);
    GroupMerged(a.groups.codeHealth, b.groups.codeHealth);
  }

  // ---- The digest ----

  /** Two facts have one digest exactly when they agree on everything but collection times and snapshot digests. */
  lemma DigestContents(a: RepositoryFacts, b: RepositoryFacts)
    requires ScanStateInSecurity(a.groups) && ScanStateInSecurity(b.groups)
    ensures DigestPayload(a) == DigestPayload(b) <==>
              && a.repository == b.repository && a.profile == b.profile && a.sourceVersions == b.sourceVersions
              && a.groups == b.groups && a.capabilities == b.capabilities && a.usedSources == b.usedSources
              && a.capabilityStates == b.capabilityStates && a.limitations == b.limitations
              && |a.statuses| == |b.statuses|
              && forall i :: 0 <= i < |a.statuses| ==>
                   var s, t := a.statuses[i], b.statuses[i];
                   s.sourceId == t.sourceId && s.state == t.state && s.sourceVersion == t.sourceVersion &&
                   s.limitations == t.limitations
  {
    hide DigestPayload, MapSeq, ScanStateInSecurity;
    DigestIsIdentity(a, b);
    var s, t := MapSeq(a.statuses, WithoutProvenance), MapSeq(b.statuses, WithoutProvenance);
    if s == t {
      forall i | 0 <= i < |a.statuses| ensures WithoutProvenance(a.statuses[i]) == WithoutProvenance(b.statuses[i]) {
        assert s[i] == t[i];
      }
    }
    if |s| == |t| && forall i :: 0 <= i < |s| ==> s[i] == t[i] { assert s == t; }
  }

  /** Facts in the default context, public and without used sources or capability states, keep the payload they had
      before these fields existed: it carries none of them, and the security scan state only when one is set. Any other
      facts carry all of them. */
  lemma PayloadKeys(f: RepositoryFacts)
    ensures var p := DigestPayload(f);
            && (p.context.None? <==> f.profile == PUBLIC && f.usedSources == [] && f.capabilityStates == [])
            && (p.context.Some? ==> p.context.value == (f.profile, f.usedSources, f.capabilityStates))
            && (p.scanState.None? <==> p.context.None? && f.groups.security.scanState.None?)
            && (p.scanState.Some? ==> p.scanState.value == f.groups.security.scanState)
  {
    hide MapSeq;
  }

  // ---- Dispatch ----

  /** No item is named before one that precedes it. */
  ghost predicate NamesInOrder<T>(s: seq<T>, name: T -> string) {
    forall i, j :: 0 <= i < j < |s| ==> !StrLess(name(s[j]), name(s[i]))
  }

  lemma NamesSorted<T>(s: seq<T>, key: T -> Key, name: T -> string)
    requires forall i :: 0 <= i < |s| ==> key(s[i]) == [name(s[i])]
    ensures Sorted(s, key) <==> NamesInOrder(s, name)
  {
    hide KeyLess, StrLess;
    forall i, j | 0 <= i < j < |s| ensures KeyLess(key(s[j]), key(s[i])) <==> StrLess(name(s[j]), name(s[i])) {
      TupleLess(key(s[j]), key(s[i]));
    }
  }

  lemma IdsSorted(s: seq<string>)
    ensures StrictlySorted(s, IdKey()) <==> Ascending(s)
  {
    hide KeyLess, StrLess;
    forall i, j | 0 <= i < j < |s| ensures KeyLess(IdKey()(s[i]), IdKey()(s[j])) <==> StrLess(s[i], s[j]) {
      TupleLess(IdKey()(s[i]), IdKey()(s[j]));
    }
  }

  ghost predicate CodesSorted(s: seq<Limitation>) {
    NamesInOrder(s, (l: Limitation) => l.code)
  }

  ghost predicate GroupSorted(g: FactGroup) {
    && NamesInOrder(g.observations, (o: Observation) => o.key) && CodesSorted(g.limitations)
    && forall i :: 0 <= i < |g.observations| ==> Ascending(g.observations[i].evidenceIds)
  }

  lemma GroupOrder(g: FactGroup)
    ensures GroupInOrder(g) <==> GroupSorted(g)
  {
    hide Sorted, StrictlySorted, NamesInOrder, Ascending;
    NamesSorted(g.observations, ObservationKey(), (o: Observation) => o.key);
    NamesSorted(g.limitations, CodeKey(), (l: Limitation) => l.code);
    forall o: Observation ensures StrictlySorted(o.evidenceIds, IdKey()) <==> Ascending(o.evidenceIds) {
      IdsSorted(o.evidenceIds);
    }
  }

  /** Facts are accepted by the analyzer input exactly when their lists are in the order its contracts sort them into:
      statuses by source, observations by key, capability states by id, limitations by code, and ids strictly. */
  lemma AcceptedContents(f: RepositoryFacts)
    requires ScanStateInSecurity(f.groups)
    ensures AnalyzerInputAccepts(f) <==>
              && NamesInOrder(f.statuses, (s: SourceStatus) => s.sourceId)
              && (forall i :: 0 <= i < |f.statuses| ==> CodesSorted(f.statuses[i].limitations))
              && NamesInOrder(f.capabilityStates, (c: CapabilityStatus) => c.capabilityId)
              && CodesSorted(f.limitations) && Ascending(f.capabilities) && Ascending(f.usedSources)
              && GroupSorted(f.groups.git) && GroupSorted(f.groups.documentation) && GroupSorted(f.groups.issues)
              && GroupSorted(f.groups.cicd) && GroupSorted(f.groups.security) && GroupSorted(f.groups.codeHealth)
  {
    hide Sorted, StrictlySorted, NamesInOrder, Ascending, GroupInOrder, GroupSorted, AnalyzerInputAccepts;
    AcceptedIffInOrder(f);
    NamesSorted(f.statuses, StatusKey(), (s: SourceStatus) => s.sourceId);
    NamesSorted(f.capabilityStates, CapabilityKey(), (c: CapabilityStatus) => c.capabilityId);
    NamesSorted(f.limitations, CodeKey(), (l: Limitation) => l.code);
    IdsSorted(f.capabilities);
    IdsSorted(f.usedSources);
    forall s: SourceStatus ensures Sorted(s.limitations, CodeKey()) <==> CodesSorted(s.limitations) {
      NamesSorted(s.limitations, CodeKey(), (l: Limitation) => l.code);
    }
    GroupsOrder(f.groups);
  }

  lemma GroupsOrder(g: Groups)
    ensures (forall name: GroupName :: GroupInOrder(g.Get(name))) <==>
              && GroupSorted(g.git) && GroupSorted(g.documentation) && GroupSorted(g.issues)
              && GroupSorted(g.cicd) && GroupSorted(g.security) && GroupSorted(g.codeHealth)
  {
    hide GroupInOrder, GroupSorted;
    forall name: GroupName ensures GroupInOrder(g.Get(name)) <==> GroupSorted(g.Get(name)) { GroupOrder(g.Get(name)); }
    assert g.Get(Git) == g.git && g.Get(Documentation) == g.documentation && g.Get(Issues) == g.issues;
    assert g.Get(Cicd) == g.cicd && g.Get(Security) == g.security && g.Get(CodeHealth) == g.codeHealth;
  }

  // ---- Rebuilding ----

  /** The contracts' validators put every list in order, whatever the facts were. */
  lemma RebuildOrders(f: RepositoryFacts)
    ensures Rebuild(Rebuild(f)) == Rebuild(f) && InOrder(Rebuild(f))
  {
    hide Sorted, StrictlySorted, SortBy, Canon, RebuildGroup, GroupInOrder;
    RebuiltStatuses(f.statuses);
    CanonFixed(f.capabilities, IdKey());
    CanonFixed(f.usedSources, IdKey());
    SortBySorts(f.capabilityStates, CapabilityKey());
    SortBySorts(f.limitations, CodeKey());
    forall name: GroupName ensures GroupInOrder(Rebuild(f).groups.Get(name)) {
      RebuiltGroup(f, name);
      RebuiltGroupOrdered(f.groups.Get(name));
    }
    RebuildFixed(Rebuild(f));
  }

  lemma RebuiltGroupOrdered(g: FactGroup)
    ensures GroupInOrder(RebuildGroup(g))
  {
    hide Sorted, StrictlySorted, SortBy, Canon;
    var t := MapSeq(g.observations, RebuildObservation);
    var r := SortBy(t, ObservationKey());
    SortBySorts(t, ObservationKey());
    SortBySorts(g.limitations, CodeKey());
    forall o | o in r ensures StrictlySorted(o.evidenceIds, IdKey()) {
      assert o in multiset(r) && o in multiset(t);
      var i :| 0 <= i < |t| && t[i] == o;
      CanonFixed(g.observations[i].evidenceIds, IdKey());
    }
  }

  /** s and t hold the same items up to what `same` ignores. */
  ghost predicate SameUpTo<T(!new)>(s: seq<T>, t: seq<T>, same: (T, T) -> bool) {
    && |s| == |t|
    && (forall x :: x in s ==> exists y :: y in t && same(x, y))
    && forall y :: y in t ==> exists x :: x in s && same(x, y)
  }

  ghost function SameStatus(): (SourceStatus, SourceStatus) -> bool {
    (s: SourceStatus, t: SourceStatus) =>
      s == t.(limitations := s.limitations) && multiset(s.limitations) == multiset(t.limitations)
  }

  ghost function SameObservation(): (Observation, Observation) -> bool {
    (o: Observation, p: Observation) =>
      o == p.(evidenceIds := o.evidenceIds) && forall id :: id in o.evidenceIds <==> id in p.evidenceIds
  }

  lemma SortedImage<T(!new)>(s: seq<T>, f: T -> T, key: T -> Key, same: (T, T) -> bool)
    requires forall i :: 0 <= i < |s| ==> same(s[i], f(s[i]))
    ensures SameUpTo(s, SortBy(MapSeq(s, f), key), same)
  {
    hide SortBy;
    var t := MapSeq(s, f);
    var r := SortBy(t, key);
    SortBySorts(t, key);
    forall x | x in s ensures exists y :: y in r && same(x, y) {
      var i :| 0 <= i < |s| && s[i] == x;
      assert t[i] in multiset(t) && t[i] in multiset(r);
      assert t[i] in r && same(x, t[i]);
    }
    forall y | y in r ensures exists x :: x in s && same(x, y) {
      assert y in multiset(r) && y in multiset(t);
      var i :| 0 <= i < |t| && t[i] == y;
      assert s[i] in s && same(s[i], y);
    }
  }

  ghost predicate SameGroup(g: FactGroup, h: FactGroup) {
    && g.available == h.available && g.scanState == h.scanState && multiset(g.limitations) == multiset(h.limitations)
    && SameUpTo(g.observations, h.observations, SameObservation())
  }

  lemma RebuiltGroupSame(g: FactGroup)
    ensures SameGroup(g, RebuildGroup(g))
  {
    hide SortBy, Canon, SameUpTo;
    IdKeyInjective();
    SortBySorts(g.limitations, CodeKey());
    forall o: Observation ensures SameObservation()(o, RebuildObservation(o)) { CanonElements(o.evidenceIds, IdKey()); }
    SortedImage(g.observations, RebuildObservation, ObservationKey(), SameObservation());
  }

  /** They change the order of lists and drop repeated ids; nothing is lost or added. */
  lemma RebuildKeeps(f: RepositoryFacts)
    ensures var r := Rebuild(f);
            && r == f.(statuses := r.statuses, groups := r.groups, capabilities := r.capabilities,
                       usedSources := r.usedSources, capabilityStates := r.capabilityStates,
                       limitations := r.limitations)
            && multiset(r.limitations) == multiset(f.limitations)
            && multiset(r.capabilityStates) == multiset(f.capabilityStates)
            && (forall id :: id in r.capabilities <==> id in f.capabilities)
            && (forall id :: id in r.usedSources <==> id in f.usedSources)
            && SameUpTo(f.statuses, r.statuses, SameStatus())
            && SameGroup(f.groups.git, r.groups.git) && SameGroup(f.groups.documentation, r.groups.documentation)
            && SameGroup(f.groups.issues, r.groups.issues) && SameGroup(f.groups.cicd, r.groups.cicd)
            && SameGroup(f.groups.security, r.groups.security) && SameGroup(f.groups.codeHealth, r.groups.codeHealth)
  {
    hide SortBy, Canon, SameUpTo, SameGroup, RebuildGroup;
    IdKeyInjective();
    CanonElements(f.capabilities, IdKey());
    CanonElements(f.usedSources, IdKey());
    SortBySorts(f.capabilityStates, CapabilityKey());
    SortBySorts(f.limitations, CodeKey());
    forall s: SourceStatus ensures SameStatus()(s, RebuildStatus(s)) { SortBySorts(s.limitations, CodeKey()); }
    SortedImage(f.statuses, RebuildStatus, StatusKey(), SameStatus());
    var g := f.groups;
    RebuiltGroupSame(g.git);
    RebuiltGroupSame(g.documentation);
    RebuiltGroupSame(g.issues);
    RebuiltGroupSame(g.cicd);
    RebuiltGroupSame(g.security);
    RebuiltGroupSame(g.codeHealth);
  }
}
