/** The digest of facts, and its survival when the facts are serialised into an analyzer input and
    rebuilt there by the contract's own sorting validators (contracts/results.py). */
module FactsDigest {
  import opened Wrappers
  import opened Ordering
  import opened SortedDict
  import opened ResultStore
  import opened Facts
  import opened MergeAlgebra

  // ---- Rebuilding from JSON ----

  function RebuildObservation(o: Observation): Observation {
    o.(evidenceIds := Canon(o.evidenceIds, IdKey()))
  }

  function RebuildStatus(s: SourceStatus): SourceStatus {
    s.(limitations := SortBy(s.limitations, CodeKey()))
  }

  function MapSeq<A, B>(s: seq<A>, f: A -> B): (t: seq<B>)
    ensures |t| == |s| && forall i :: 0 <= i < |s| ==> t[i] == f(s[i])
  {
    seq(|s|, i requires 0 <= i < |s| => f(s[i]))
  }

  /** `FactGroup` construction. */
  function RebuildGroup(g: FactGroup): FactGroup {
    g.(observations := SortBy(MapSeq(g.observations, RebuildObservation), ObservationKey()),
       limitations := SortBy(g.limitations, CodeKey()))
  }

  /** `RepositoryFacts` construction from serialised facts. */
  function Rebuild(f: RepositoryFacts): RepositoryFacts {
    f.(statuses := SortBy(MapSeq(f.statuses, RebuildStatus), StatusKey()),
       groups := Groups(RebuildGroup(f.groups.git), RebuildGroup(f.groups.documentation), RebuildGroup(f.groups.issues),
                        RebuildGroup(f.groups.cicd), RebuildGroup(f.groups.security),
                        RebuildGroup(f.groups.codeHealth)),
       capabilities := Canon(f.capabilities, IdKey()),
       usedSources := Canon(f.usedSources, IdKey()),
       capabilityStates := SortBy(f.capabilityStates, CapabilityKey()),
       limitations := SortBy(f.limitations, CodeKey()))
  }

  // ---- The digest ----

  datatype StatusPayload = StatusPayload(
    sourceId: string, state: CollectionState, sourceVersion: Option<string>, limitations: seq<Limitation>)

  datatype GroupPayload = GroupPayload(available: bool, observations: seq<Observation>, limitations: seq<Limitation>)

  /** Keys that `digest_payload` may drop are optional; `scanState` is None when dropped, Some(null or value) when
      kept. */
  datatype Payload = Payload(
    repository: Option<Repository>,
    sourceVersions: map<string, string>,
    statuses: seq<StatusPayload>,
    groups: seq<GroupPayload>,
    scanState: Option<Option<ScanState>>,
    capabilities: seq<string>,
    limitations: seq<Limitation>,
    context: Option<(Profile, seq<string>, seq<CapabilityStatus>)>)

  function StatusPayloadOf(s: SourceStatus): StatusPayload {
    StatusPayload(s.sourceId, s.state, s.sourceVersion, s.limitations)
  }

  function GroupPayloadOf(g: FactGroup): GroupPayload {
    GroupPayload(g.available, g.observations, g.limitations)
  }

  predicate DefaultContext(f: RepositoryFacts) {
    f.profile == Facts.PUBLIC && f.usedSources == [] && f.capabilityStates == []
  }

  /** `digest_payload`; the digest is taken to be injective on it. */
  function DigestPayload(f: RepositoryFacts): Payload {
    var g := f.groups;
    Payload(
      f.repository,
      f.sourceVersions,
      MapSeq(f.statuses, StatusPayloadOf),
      [GroupPayloadOf(g.git), GroupPayloadOf(g.documentation), GroupPayloadOf(g.issues),
       GroupPayloadOf(g.cicd), GroupPayloadOf(g.security), GroupPayloadOf(g.codeHealth)],
      if DefaultContext(f) && g.security.scanState.None? then None else Some(g.security.scanState),
      f.capabilities,
      f.limitations,
      if DefaultContext(f) then None else Some((f.profile, f.usedSources, f.capabilityStates)))
  }

  /** Only the security group carries a scan state. */
  predicate ScanStateInSecurity(g: Groups) {
    g.git.scanState.None? && g.documentation.scanState.None? && g.issues.scanState.None?
    && g.cicd.scanState.None? && g.codeHealth.scanState.None?
  }

  function WithoutProvenance(s: SourceStatus): SourceStatus {
    s.(snapshotDigest := None, collectedAt := None)
  }

  /** The facts without collection times and snapshot digests. */
  function Identity(f: RepositoryFacts): RepositoryFacts {
    f.(snapshotDigest := None, collectedAt := None, statuses := MapSeq(f.statuses, WithoutProvenance))
  }

  lemma PayloadStatuses(s: seq<SourceStatus>, t: seq<SourceStatus>)
    ensures MapSeq(s, StatusPayloadOf) == MapSeq(t, StatusPayloadOf) <==>
              MapSeq(s, WithoutProvenance) == MapSeq(t, WithoutProvenance)
  {
    var p, q := MapSeq(s, StatusPayloadOf), MapSeq(t, StatusPayloadOf);
    var v, w := MapSeq(s, WithoutProvenance), MapSeq(t, WithoutProvenance);
    if p == q {
      forall i | 0 <= i < |v| ensures v[i] == w[i] { assert p[i] == q[i]; }
    }
    if v == w {
      forall i | 0 <= i < |p| ensures p[i] == q[i] { assert v[i] == w[i]; }
    }
  }

  lemma PayloadGroups(a: Groups, b: Groups)
    requires ScanStateInSecurity(a) && ScanStateInSecurity(b)
    ensures a == b <==>
      && [GroupPayloadOf(a.git), GroupPayloadOf(a.documentation), GroupPayloadOf(a.issues),
          GroupPayloadOf(a.cicd), GroupPayloadOf(a.security), GroupPayloadOf(a.codeHealth)]
      == [GroupPayloadOf(b.git), GroupPayloadOf(b.documentation), GroupPayloadOf(b.issues),
          GroupPayloadOf(b.cicd), GroupPayloadOf(b.security), GroupPayloadOf(b.codeHealth)]
      && a.security.scanState == b.security.scanState
  {
    var p := [GroupPayloadOf(a.git), GroupPayloadOf(a.documentation), GroupPayloadOf(a.issues),
              GroupPayloadOf(a.cicd), GroupPayloadOf(a.security), GroupPayloadOf(a.codeHealth)];
    var q := [GroupPayloadOf(b.git), GroupPayloadOf(b.documentation), GroupPayloadOf(b.issues),
              GroupPayloadOf(b.cicd), GroupPayloadOf(b.security), GroupPayloadOf(b.codeHealth)];
    if p == q && a.security.scanState == b.security.scanState {
      assert p[0] == q[0] && p[1] == q[1] && p[2] == q[2] && p[3] == q[3] && p[4] == q[4] && p[5] == q[5];
    }
  }

  /** Two facts share a digest exactly when they differ in provenance at most: dropping the default
      context loses nothing, and public and owner snapshots cannot collide. */
  lemma DigestIsIdentity(a: RepositoryFacts, b: RepositoryFacts)
    requires ScanStateInSecurity(a.groups) && ScanStateInSecurity(b.groups)
    ensures DigestPayload(a) == DigestPayload(b) <==> Identity(a) == Identity(b)
  {
    PayloadStatuses(a.statuses, b.statuses);
    PayloadGroups(a.groups, b.groups);
  }

  // ---- Fixed points of rebuilding ----

  ghost predicate GroupInOrder(g: FactGroup) {
    && Sorted(g.observations, ObservationKey())
    && Sorted(g.limitations, CodeKey())
    && forall o :: o in g.observations ==> StrictlySorted(o.evidenceIds, IdKey())
  }

  /** In the order the validators put things in. */
  ghost predicate InOrder(f: RepositoryFacts) {
    && Sorted(f.statuses, StatusKey())
    && (forall s :: s in f.statuses ==> Sorted(s.limitations, CodeKey()))
    && (forall name: GroupName :: GroupInOrder(f.groups.Get(name)))
    && StrictlySorted(f.capabilities, IdKey())
    && StrictlySorted(f.usedSources, IdKey())
    && Sorted(f.capabilityStates, CapabilityKey())
    && Sorted(f.limitations, CodeKey())
  }

  lemma MapFixed<T>(s: seq<T>, f: T -> T)
    ensures MapSeq(s, f) == s <==> forall x :: x in s ==> f(x) == x
  {
    if MapSeq(s, f) == s {
      forall x | x in s ensures f(x) == x {
        var i :| 0 <= i < |s| && s[i] == x;
        assert MapSeq(s, f)[i] == s[i];
      }
    }
  }

  /** Rebuilding every item and then sorting changes nothing exactly when the list is sorted and no
      item changes, as long as rebuilding keeps keys and is a projection. */
  lemma SortMapFixed<T(!new)>(s: seq<T>, f: T -> T, key: T -> Key)
    requires forall x :: key(f(x)) == key(x) && f(f(x)) == f(x)
    ensures SortBy(MapSeq(s, f), key) == s <==> Sorted(s, key) && forall x :: x in s ==> f(x) == x
  {
    var t := MapSeq(s, f);
    MapFixed(s, f);
    SortByFixed(s, key);
    if SortBy(t, key) == s {
      SortBySorts(t, key);
      forall x | x in s ensures f(x) == x {
        assert x in multiset(s) && x in multiset(t);
        var i :| 0 <= i < |t| && t[i] == x;
      }
    }
  }

  lemma GroupRebuildFixed(g: FactGroup)
    ensures RebuildGroup(g) == g <==> GroupInOrder(g)
  {
    forall o: Observation
      ensures ObservationKey()(RebuildObservation(o)) == ObservationKey()(o)
      ensures RebuildObservation(RebuildObservation(o)) == RebuildObservation(o)
      ensures RebuildObservation(o) == o <==> StrictlySorted(o.evidenceIds, IdKey())
    {
      CanonFixed(o.evidenceIds, IdKey());
      CanonFixed(Canon(o.evidenceIds, IdKey()), IdKey());
    }
    SortMapFixed(g.observations, RebuildObservation, ObservationKey());
    SortByFixed(g.limitations, CodeKey());
  }

  lemma StatusesRebuildFixed(s: seq<SourceStatus>)
    ensures SortBy(MapSeq(s, RebuildStatus), StatusKey()) == s <==>
              Sorted(s, StatusKey()) && forall x :: x in s ==> Sorted(x.limitations, CodeKey())
  {
    forall x: SourceStatus
      ensures StatusKey()(RebuildStatus(x)) == StatusKey()(x)
      ensures RebuildStatus(RebuildStatus(x)) == RebuildStatus(x)
      ensures RebuildStatus(x) == x <==> Sorted(x.limitations, CodeKey())
    {
      SortByFixed(x.limitations, CodeKey());
      SortBySorts(x.limitations, CodeKey());
      SortByFixed(SortBy(x.limitations, CodeKey()), CodeKey());
    }
    SortMapFixed(s, RebuildStatus, StatusKey());
  }

  lemma RebuiltGroup(f: RepositoryFacts, name: GroupName)
    ensures Rebuild(f).groups.Get(name) == RebuildGroup(f.groups.Get(name))
  {
    hide RebuildGroup;
  }

  /** The validators leave facts alone exactly when everything is in order. */
  lemma RebuildFixed(f: RepositoryFacts)
    ensures Rebuild(f) == f <==> InOrder(f)
  {
    hide RebuildGroup, GroupInOrder, SortBy, Canon;
    StatusesRebuildFixed(f.statuses);
    CanonFixed(f.capabilities, IdKey());
    CanonFixed(f.usedSources, IdKey());
    SortByFixed(f.capabilityStates, CapabilityKey());
    SortByFixed(f.limitations, CodeKey());
    GroupsEqual(Rebuild(f).groups, f.groups);
    forall name: GroupName
      ensures Rebuild(f).groups.Get(name) == f.groups.Get(name) <==> GroupInOrder(f.groups.Get(name))
    {
      RebuiltGroup(f, name);
      GroupRebuildFixed(f.groups.Get(name));
    }
  }

  /** What `AnalyzerInput` checks about facts serialised with their digest. */
  predicate AnalyzerInputAccepts(f: RepositoryFacts) {
    DigestPayload(Rebuild(f)) == DigestPayload(f)
  }

  lemma RebuiltStatuses(s: seq<SourceStatus>)
    ensures var r := SortBy(MapSeq(s, RebuildStatus), StatusKey());
            |r| == |s| && Sorted(r, StatusKey()) && forall x :: x in r ==> Sorted(x.limitations, CodeKey())
  {
    hide Sorted;
    var t := MapSeq(s, RebuildStatus);
    var r := SortBy(t, StatusKey());
    SortBySorts(t, StatusKey());
    forall x | x in r ensures Sorted(x.limitations, CodeKey()) {
      assert x in multiset(r) && x in multiset(t);
      var j :| 0 <= j < |t| && t[j] == x;
      SortBySorts(s[j].limitations, CodeKey());
    }
  }

  lemma SameIdsSorted(s: seq<SourceStatus>, r: seq<SourceStatus>)
    requires |r| == |s| && Sorted(r, StatusKey()) && MapSeq(r, WithoutProvenance) == MapSeq(s, WithoutProvenance)
    ensures Sorted(s, StatusKey())
  {
    forall i | 0 <= i < |s| ensures StatusKey()(s[i]) == StatusKey()(r[i]) {
      assert MapSeq(r, WithoutProvenance)[i] == MapSeq(s, WithoutProvenance)[i];
    }
  }

  lemma StatusesSurvive(s: seq<SourceStatus>)
    ensures MapSeq(SortBy(MapSeq(s, RebuildStatus), StatusKey()), WithoutProvenance) ==
              MapSeq(s, WithoutProvenance) <==>
              Sorted(s, StatusKey()) && forall x :: x in s ==> Sorted(x.limitations, CodeKey())
  {
    hide Sorted, SortBy;
    var r := SortBy(MapSeq(s, RebuildStatus), StatusKey());
    StatusesRebuildFixed(s);
    RebuiltStatuses(s);
    if MapSeq(r, WithoutProvenance) == MapSeq(s, WithoutProvenance) {
      SameIdsSorted(s, r);
      forall x | x in s ensures Sorted(x.limitations, CodeKey()) {
        var i :| 0 <= i < |s| && s[i] == x;
        assert MapSeq(r, WithoutProvenance)[i] == MapSeq(s, WithoutProvenance)[i];
        assert r[i].limitations == x.limitations;
      }
    }
  }

  lemma IdentitySurvives(f: RepositoryFacts)
    ensures Identity(Rebuild(f)) == Identity(f) <==> Rebuild(f) == f
  {
    hide RebuildGroup, SortBy, Canon;
    StatusesSurvive(f.statuses);
    StatusesRebuildFixed(f.statuses);
  }

  lemma RebuiltScanState(f: RepositoryFacts)
    ensures ScanStateInSecurity(Rebuild(f).groups) <==> ScanStateInSecurity(f.groups)
  {
    hide SortBy, Canon, MapSeq;
  }

  /** The digest taken before dispatch is accepted again after serialisation exactly when the facts are
      in the validators' order. */
  lemma AcceptedIffInOrder(f: RepositoryFacts)
    requires ScanStateInSecurity(f.groups)
    ensures AnalyzerInputAccepts(f) <==> InOrder(f)
  {
    hide DigestPayload, Rebuild, InOrder, Identity;
    RebuiltScanState(f);
    DigestIsIdentity(Rebuild(f), f);
    IdentitySurvives(f);
    RebuildFixed(f);
  }

  // ---- Merge results are in order ----

  /** Nested items as their own contracts leave them. */
  ghost predicate ItemsInOrder(f: RepositoryFacts) {
    && (forall s :: s in f.statuses ==> Sorted(s.limitations, CodeKey()))
    && (forall name: GroupName, o :: o in f.groups.Get(name).observations ==> StrictlySorted(o.evidenceIds, IdKey()))
  }

  lemma CodesInOrder(s: seq<Limitation>)
    requires StrictlySorted(s, LimitationKey())
    ensures Sorted(s, CodeKey())
  {
    forall i, j | 0 <= i < j < |s| ensures !KeyLess(CodeKey()(s[j]), CodeKey()(s[i])) {
      assert KeyLess(LimitationKey()(s[i]), LimitationKey()(s[j]));
      StrTrichotomy(s[i].code, s[j].code);
    }
  }

  /** Canonical facts are in order as soon as their items are. */
  lemma CanonicalInOrder(f: RepositoryFacts)
    requires Canonical(f)
    ensures InOrder(f) <==> ItemsInOrder(f)
  {
    StrictIsSorted(f.statuses, StatusKey());
    StrictIsSorted(f.capabilityStates, CapabilityKey());
    CodesInOrder(f.limitations);
    forall name: GroupName
      ensures GroupInOrder(f.groups.Get(name)) <==>
                forall o :: o in f.groups.Get(name).observations ==> StrictlySorted(o.evidenceIds, IdKey())
    {
      assert CanonicalGroup(f.groups.Get(name));
      StrictIsSorted(f.groups.Get(name).observations, ObservationKey());
      CodesInOrder(f.groups.Get(name).limitations);
    }
  }

  lemma MergeByElements<T(!new)>(a: seq<T>, b: seq<T>, key: T -> Key)
    ensures forall x :: x in MergeBy(a, b, key) ==> x in a || x in b
  {
    IndexKeyed(a, key);
    IndexKeyed(b, key);
    ValuesElements(Index(a, key) + Index(b, key));
  }

  lemma MergeKeepsItems(a: RepositoryFacts, b: RepositoryFacts)
    requires ItemsInOrder(a) && ItemsInOrder(b)
    ensures ItemsInOrder(MergeUnchecked(a, b))
  {
    hide MergeBy, Canon, Sorted, StrictlySorted;
    MergeByElements(a.statuses, b.statuses, StatusKey());
    forall name: GroupName, o | o in MergeUnchecked(a, b).groups.Get(name).observations
      ensures StrictlySorted(o.evidenceIds, IdKey())
    {
      MergedGroup(a, b, name);
      MergeByElements(a.groups.Get(name).observations, b.groups.Get(name).observations, ObservationKey());
    }
  }

  lemma MergeKeepsScanState(a: RepositoryFacts, b: RepositoryFacts)
    requires ScanStateInSecurity(a.groups) && ScanStateInSecurity(b.groups)
    ensures ScanStateInSecurity(MergeUnchecked(a, b).groups)
  {
    hide MergeBy, Canon;
  }

  /** Digest stability: what the merge returns keeps its digest through serialisation into an analyzer input. */
  lemma MergedFactsAccepted(a: RepositoryFacts, b: RepositoryFacts)
    requires ItemsInOrder(a) && ItemsInOrder(b) && ScanStateInSecurity(a.groups) && ScanStateInSecurity(b.groups)
    requires Merge(a, b).Some?
    ensures InOrder(Merge(a, b).value) && Rebuild(Merge(a, b).value) == Merge(a, b).value
    ensures AnalyzerInputAccepts(Merge(a, b).value)
  {
    hide MergeUnchecked, Conflict, ItemsInOrder, InOrder, Canonical, AnalyzerInputAccepts, Rebuild, ScanStateInSecurity;
    MergeIsCanonical(a, b);
    MergeKeepsItems(a, b);
    MergeKeepsScanState(a, b);
    var f := MergeUnchecked(a, b);
    CanonicalInOrder(f);
    AcceptedIffInOrder(f);
    RebuildFixed(f);
  }
}
