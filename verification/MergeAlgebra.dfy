/** The algebra of merging: associativity with the error case, the empty facts, idempotence, commutation. */
module MergeAlgebra {
  import opened Wrappers
  import opened Ordering
  import opened SortedDict
  import opened Facts

  // ---- Limitations ----

  lemma MixedIsAboutElements(s: seq<Limitation>, t: seq<Limitation>)
    requires SameElements(s, t)
    ensures Mixed(s) == Mixed(t)
  {
    MixedMonotone(s, t);
    MixedMonotone(t, s);
  }

  lemma MixedMonotone(s: seq<Limitation>, t: seq<Limitation>)
    requires forall x :: x in s ==> x in t
    ensures Mixed(s) ==> Mixed(t)
  {
    if Mixed(s) {
      var i, j :| 0 <= i < |s| && 0 <= j < |s| && s[i].code == s[j].code
        && s[i].reason == s[j].reason && s[i].scope.None? && s[j].scope.Some?;
      assert s[i] in t && s[j] in t;
    }
  }

  function Unique(s: seq<Limitation>): seq<Limitation> {
    Canon(s, LimitationKey())
  }

  /** Three lists conflict somewhere on the way exactly when all of them together do. */
  lemma MixedAssociative(a: seq<Limitation>, b: seq<Limitation>, c: seq<Limitation>)
    ensures Mixed(a + b) || Mixed(Unique(a + b) + c) <==> Mixed(a + b + c)
    ensures Mixed(b + c) || Mixed(a + Unique(b + c)) <==> Mixed(a + b + c)
  {
    LimitationKeyInjective();
    CanonElements(a + b, LimitationKey());
    CanonElements(b + c, LimitationKey());
    MixedIsAboutElements(Unique(a + b) + c, a + b + c);
    MixedIsAboutElements(a + Unique(b + c), a + b + c);
    MixedMonotone(a + b, a + b + c);
    MixedMonotone(b + c, a + b + c);
  }

  // ---- Associativity ----

  lemma GroupAssociative(a: FactGroup, b: FactGroup, c: FactGroup)
    ensures MergeGroup(MergeGroup(a, b), c) == MergeGroup(a, MergeGroup(b, c))
  {
    MergeByAssociative(a.observations, b.observations, c.observations, ObservationKey());
    CanonAssociative(a.limitations, b.limitations, c.limitations, LimitationKey());
  }

  lemma GroupsAssociative(a: Groups, b: Groups, c: Groups)
    ensures MergeGroups(MergeGroups(a, b), c) == MergeGroups(a, MergeGroups(b, c))
  {
    hide MergeGroup;
    GroupAssociative(a.git, b.git, c.git);
    GroupAssociative(a.documentation, b.documentation, c.documentation);
    GroupAssociative(a.issues, b.issues, c.issues);
    GroupAssociative(a.cicd, b.cicd, c.cicd);
    GroupAssociative(a.security, b.security, c.security);
    GroupAssociative(a.codeHealth, b.codeHealth, c.codeHealth);
  }

  /** A status list names the ids its index has. */
  lemma KeyOfId(statuses: seq<SourceStatus>, id: string)
    ensures id in StatusIds(statuses) <==> [id] in Index(statuses, StatusKey())
  {
    IndexKeyed(statuses, StatusKey());
    var m := Index(statuses, StatusKey());
    if [id] in m {
      assert m[[id]] in statuses && StatusKey()(m[[id]])[0] == id;
      var i :| 0 <= i < |statuses| && statuses[i] == m[[id]];
      assert StatusIds(statuses)[i] == id;
    }
    if id in StatusIds(statuses) {
      var i :| 0 <= i < |statuses| && StatusIds(statuses)[i] == id;
      assert statuses[i] in statuses && StatusKey()(statuses[i]) == [id];
    }
  }

  /** The source ids of merged statuses are those of both sides. */
  lemma MergedStatusIds(a: seq<SourceStatus>, b: seq<SourceStatus>)
    ensures SameElements(StatusIds(MergeBy(a, b, StatusKey())), StatusIds(a) + StatusIds(b))
  {
    hide Index, MergeBy, StatusIds;
    IndexOfMerge(a, b, StatusKey());
    forall id: string ensures id in StatusIds(MergeBy(a, b, StatusKey())) <==> id in StatusIds(a) + StatusIds(b) {
      KeyOfId(a, id);
      KeyOfId(b, id);
      KeyOfId(MergeBy(a, b, StatusKey()), id);
    }
  }

  /** Either bracketing names the ids of all three sides. */
  lemma UsedSourcesAssociative(a: RepositoryFacts, b: RepositoryFacts, c: RepositoryFacts)
    ensures MergeUnchecked(MergeUnchecked(a, b), c).usedSources == MergeUnchecked(a, MergeUnchecked(b, c)).usedSources
  {
    var ab, bc := MergeBy(a.statuses, b.statuses, StatusKey()), MergeBy(b.statuses, c.statuses, StatusKey());
    var abc := MergeBy(ab, c.statuses, StatusKey());
    MergeByAssociative(a.statuses, b.statuses, c.statuses, StatusKey());
    var usedAb, usedBc := a.usedSources + b.usedSources + StatusIds(ab), b.usedSources + c.usedSources + StatusIds(bc);
    IdKeyInjective();
    CanonElements(usedAb, IdKey());
    CanonElements(usedBc, IdKey());
    MergedStatusIds(a.statuses, b.statuses);
    MergedStatusIds(b.statuses, c.statuses);
    MergedStatusIds(ab, c.statuses);
    MergedStatusIds(a.statuses, bc);
    CanonOfSet(Canon(usedAb, IdKey()) + c.usedSources + StatusIds(abc),
               a.usedSources + Canon(usedBc, IdKey()) + StatusIds(abc), IdKey());
  }

  lemma UncheckedAssociative(a: RepositoryFacts, b: RepositoryFacts, c: RepositoryFacts)
    ensures MergeUnchecked(MergeUnchecked(a, b), c) == MergeUnchecked(a, MergeUnchecked(b, c))
  {
    hide MergeGroups, MergeBy, Canon, StatusIds;
    GroupsAssociative(a.groups, b.groups, c.groups);
    MergeByAssociative(a.statuses, b.statuses, c.statuses, StatusKey());
    MergeByAssociative(a.capabilityStates, b.capabilityStates, c.capabilityStates, CapabilityKey());
    CanonAssociative(a.capabilities, b.capabilities, c.capabilities, IdKey());
    CanonAssociative(a.limitations, b.limitations, c.limitations, LimitationKey());
    UsedSourcesAssociative(a, b, c);
    assert a.sourceVersions + b.sourceVersions + c.sourceVersions ==
      a.sourceVersions + (b.sourceVersions + c.sourceVersions);
  }

  /** Some list of limitations of all three sides together is mixed. */
  ghost predicate JointConflict(a: RepositoryFacts, b: RepositoryFacts, c: RepositoryFacts) {
    || Mixed(a.limitations + b.limitations + c.limitations)
    || exists name: GroupName ::
         Mixed(a.groups.Get(name).limitations + b.groups.Get(name).limitations + c.groups.Get(name).limitations)
  }

  lemma MergedGroup(a: RepositoryFacts, b: RepositoryFacts, name: GroupName)
    ensures MergeUnchecked(a, b).groups.Get(name) == MergeGroup(a.groups.Get(name), b.groups.Get(name))
  {
    hide MergeGroup;
  }

  lemma ConflictAssociative(a: RepositoryFacts, b: RepositoryFacts, c: RepositoryFacts)
    ensures Conflict(a, b) || Conflict(MergeUnchecked(a, b), c) <==> JointConflict(a, b, c)
    ensures Conflict(b, c) || Conflict(a, MergeUnchecked(b, c)) <==> JointConflict(a, b, c)
  {
    hide Mixed, Canon, MergeBy, MergeGroups;
    MixedAssociative(a.limitations, b.limitations, c.limitations);
    forall name: GroupName
      ensures var x, y, z := a.groups.Get(name).limitations, b.groups.Get(name).limitations,
          c.groups.Get(name).limitations;
              && (Mixed(x + y) || Mixed(MergeUnchecked(a, b).groups.Get(name).limitations + z) <==> Mixed(x + y + z))
              && (Mixed(y + z) || Mixed(x + MergeUnchecked(b, c).groups.Get(name).limitations) <==> Mixed(x + y + z))
    {
      MergedGroup(a, b, name);
      MergedGroup(b, c, name);
      MixedAssociative(a.groups.Get(name).limitations, b.groups.Get(name).limitations, c.groups.Get(name).limitations);
    }
  }

  /** Merging is associative on all facts, the raising case included. */
  lemma MergeAssociative(a: RepositoryFacts, b: RepositoryFacts, c: RepositoryFacts)
    ensures Then(Merge(a, b), x => Merge(x, c)) == Then(Merge(b, c), y => Merge(a, y))
  {
    hide Conflict, MergeUnchecked, JointConflict;
    ConflictAssociative(a, b, c);
    UncheckedAssociative(a, b, c);
  }

  // ---- Canonical facts ----

  ghost predicate CanonicalGroup(g: FactGroup) {
    && StrictlySorted(g.observations, ObservationKey())
    && StrictlySorted(g.limitations, LimitationKey())
    && !Mixed(g.limitations)
  }

  /** In key order without repetition, every status's source among the used ones. */
  ghost predicate Canonical(f: RepositoryFacts) {
    && StrictlySorted(f.statuses, StatusKey())
    && StrictlySorted(f.capabilities, IdKey())
    && StrictlySorted(f.usedSources, IdKey())
    && StrictlySorted(f.capabilityStates, CapabilityKey())
    && StrictlySorted(f.limitations, LimitationKey())
    && !Mixed(f.limitations)
    && (forall id :: id in StatusIds(f.statuses) ==> id in f.usedSources)
    && (forall name: GroupName :: CanonicalGroup(f.groups.Get(name)))
  }

  lemma UsedContainsStatuses(used: seq<string>, ids: seq<string>)
    ensures forall id :: id in ids ==> id in Canon(used + ids, IdKey())
    ensures Canon(used + ids, IdKey()) == used <==>
              StrictlySorted(used, IdKey()) && forall id :: id in ids ==> id in used
  {
    IdKeyInjective();
    CanonElements(used + ids, IdKey());
    CanonFixed(used, IdKey());
    CanonFixed(used + ids, IdKey());
    if forall id :: id in ids ==> id in used {
      CanonOfSet(used + ids, used, IdKey());
    }
    assert forall id :: id in ids ==> id in used + ids;
  }

  lemma GroupMergeCanonical(a: FactGroup, b: FactGroup)
    requires !Mixed(a.limitations + b.limitations)
    ensures CanonicalGroup(MergeGroup(a, b))
  {
    hide Mixed, MergeBy, Canon;
    IndexOfMerge(a.observations, b.observations, ObservationKey());
    CanonFixed(a.limitations + b.limitations, LimitationKey());
    LimitationKeyInjective();
    CanonElements(a.limitations + b.limitations, LimitationKey());
    MixedIsAboutElements(MergeGroup(a, b).limitations, a.limitations + b.limitations);
  }

  /** Whatever the merge returns is canonical. */
  lemma MergeIsCanonical(a: RepositoryFacts, b: RepositoryFacts)
    requires Merge(a, b).Some?
    ensures Canonical(Merge(a, b).value)
  {
    hide Mixed, MergeBy, Canon, MergeGroups, MergeGroup, StatusIds;
    var f := MergeUnchecked(a, b);
    IndexOfMerge(a.statuses, b.statuses, StatusKey());
    IndexOfMerge(a.capabilityStates, b.capabilityStates, CapabilityKey());
    CanonFixed(a.capabilities + b.capabilities, IdKey());
    CanonFixed(a.limitations + b.limitations, LimitationKey());
    LimitationKeyInjective();
    CanonElements(a.limitations + b.limitations, LimitationKey());
    MixedIsAboutElements(f.limitations, a.limitations + b.limitations);
    UsedContainsStatuses(a.usedSources + b.usedSources, StatusIds(f.statuses));
    CanonFixed(a.usedSources + b.usedSources + StatusIds(f.statuses), IdKey());
    forall name: GroupName ensures CanonicalGroup(f.groups.Get(name)) {
      MergedGroup(a, b, name);
      GroupMergeCanonical(a.groups.Get(name), b.groups.Get(name));
    }
  }

  // ---- What a merge contains ----

  ghost predicate UnionBy<T>(a: seq<T>, b: seq<T>, m: seq<T>, key: T -> Key) {
    Index(m, key) == Index(a, key) + Index(b, key)
  }

  ghost predicate UnionOf<T(!new)>(a: seq<T>, b: seq<T>, m: seq<T>) {
    forall x :: x in m <==> x in a || x in b
  }

  ghost predicate RightElseLeft<T>(a: Option<T>, b: Option<T>, m: Option<T>) {
    if b.Some? then m == b else m == a
  }

  ghost predicate GroupUnion(a: FactGroup, b: FactGroup, m: FactGroup) {
    && (m.available <==> a.available || b.available)
    && UnionBy(a.observations, b.observations, m.observations, ObservationKey())
    && UnionOf(a.limitations, b.limitations, m.limitations)
    && RightElseLeft(a.scanState, b.scanState, m.scanState)
  }

  lemma CanonUnion<T(!new)>(a: seq<T>, b: seq<T>, key: T -> Key)
    requires Injective(key)
    ensures UnionOf(a, b, Canon(a + b, key))
  {
    hide Canon;
    CanonElements(a + b, key);
    forall x ensures x in a + b <==> x in a || x in b {}
  }

  lemma GroupMergeUnion(a: FactGroup, b: FactGroup)
    ensures GroupUnion(a, b, MergeGroup(a, b))
  {
    hide Canon, MergeBy, Index, UnionOf;
    IndexOfMerge(a.observations, b.observations, ObservationKey());
    LimitationKeyInjective();
    CanonUnion(a.limitations, b.limitations, LimitationKey());
  }

  lemma UsedSourcesUnion(a: RepositoryFacts, b: RepositoryFacts, id: string)
    ensures id in MergeUnchecked(a, b).usedSources <==>
              id in a.usedSources || id in b.usedSources || id in StatusIds(a.statuses) || id in StatusIds(b.statuses)
  {
    hide Canon, MergeBy, MergeGroups, StatusIds;
    var ids := StatusIds(MergeBy(a.statuses, b.statuses, StatusKey()));
    IdKeyInjective();
    CanonElements(a.usedSources + b.usedSources + ids, IdKey());
    MergedStatusIds(a.statuses, b.statuses);
    assert id in StatusIds(a.statuses) + StatusIds(b.statuses) <==>
      id in StatusIds(a.statuses) || id in StatusIds(b.statuses);
    assert id in a.usedSources + b.usedSources + ids <==> id in a.usedSources || id in b.usedSources || id in ids;
  }

  /** What a merge contains, item by item: under a shared key the right side's item, every limitation and
      capability of either side, every source either side used or reported on, the right side's single values
      where it has them, and the owner profile if either side has it. With `MergeIsCanonical` this fixes the result. */
  lemma MergeIsRightBiasedUnion(a: RepositoryFacts, b: RepositoryFacts)
    requires Merge(a, b).Some?
    ensures var m := Merge(a, b).value;
            && RightElseLeft(a.repository, b.repository, m.repository)
            && (m.profile == OWNER_EXTENDED <==> a.profile == OWNER_EXTENDED || b.profile == OWNER_EXTENDED)
            && RightElseLeft(a.snapshotDigest, b.snapshotDigest, m.snapshotDigest)
            && RightElseLeft(a.collectedAt, b.collectedAt, m.collectedAt)
            && m.sourceVersions == a.sourceVersions + b.sourceVersions
            && UnionBy(a.statuses, b.statuses, m.statuses, StatusKey())
            && UnionBy(a.capabilityStates, b.capabilityStates, m.capabilityStates, CapabilityKey())
            && UnionOf(a.capabilities, b.capabilities, m.capabilities)
            && UnionOf(a.limitations, b.limitations, m.limitations)
            && (forall name: GroupName :: GroupUnion(a.groups.Get(name), b.groups.Get(name), m.groups.Get(name)))
            && (forall id :: id in m.usedSources <==>
                  id in a.usedSources || id in b.usedSources || id in StatusIds(a.statuses) ||
                    id in StatusIds(b.statuses))
  {
    hide Canon, MergeBy, MergeGroups, Index, UnionOf, StatusIds, Conflict, GroupUnion, MergeGroup;
    IndexOfMerge(a.statuses, b.statuses, StatusKey());
    IndexOfMerge(a.capabilityStates, b.capabilityStates, CapabilityKey());
    IdKeyInjective();
    LimitationKeyInjective();
    CanonUnion(a.capabilities, b.capabilities, IdKey());
    CanonUnion(a.limitations, b.limitations, LimitationKey());
    forall name: GroupName
      ensures GroupUnion(a.groups.Get(name), b.groups.Get(name), MergeUnchecked(a, b).groups.Get(name))
    {
      MergedGroup(a, b, name);
      GroupMergeUnion(a.groups.Get(name), b.groups.Get(name));
    }
    forall id ensures id in MergeUnchecked(a, b).usedSources <==>
                id in a.usedSources || id in b.usedSources || id in StatusIds(a.statuses) || id in StatusIds(b.statuses)
    {
      UsedSourcesUnion(a, b, id);
    }
  }

  // ---- The empty facts, and merging with itself ----

  lemma MergeByWithNothing<T>(s: seq<T>, key: T -> Key)
    ensures MergeBy([], s, key) == MergeBy(s, [], key) == MergeBy(s, s, key) == Canon(s, key)
  {
    assert map[] + Index(s, key) == Index(s, key) + map[] == Index(s, key) + Index(s, key) == Index(s, key);
  }

  lemma CanonWithNothing<T>(s: seq<T>, key: T -> Key)
    ensures Canon([] + s, key) == Canon(s + [], key) == Canon(s + s, key) == Canon(s, key)
  {
    assert [] + s == s + [] == s;
    IndexConcat(s, s, key);
    assert Index(s, key) + Index(s, key) == Index(s, key);
  }

  /** What merging with nothing, or with itself, makes of the facts. */
  function Normalize(f: RepositoryFacts): RepositoryFacts {
    var statuses := Canon(f.statuses, StatusKey());
    f.(statuses := statuses,
       groups := Groups(NormalizeGroup(f.groups.git), NormalizeGroup(f.groups.documentation),
                        NormalizeGroup(f.groups.issues), NormalizeGroup(f.groups.cicd),
                        NormalizeGroup(f.groups.security), NormalizeGroup(f.groups.codeHealth)),
       capabilities := Canon(f.capabilities, IdKey()),
       usedSources := Canon(f.usedSources + StatusIds(statuses), IdKey()),
       capabilityStates := Canon(f.capabilityStates, CapabilityKey()),
       limitations := Canon(f.limitations, LimitationKey()))
  }

  function NormalizeGroup(g: FactGroup): FactGroup {
    g.(observations := Canon(g.observations, ObservationKey()), limitations := Canon(g.limitations, LimitationKey()))
  }

  ghost predicate Unsortable(f: RepositoryFacts) {
    Mixed(f.limitations) || exists name: GroupName :: Mixed(f.groups.Get(name).limitations)
  }

  lemma GroupWithNothing(g: FactGroup)
    ensures MergeGroup(EMPTY_GROUP, g) == MergeGroup(g, EMPTY_GROUP) == MergeGroup(g, g) == NormalizeGroup(g)
  {
    hide Canon, MergeBy;
    MergeByWithNothing(g.observations, ObservationKey());
    CanonWithNothing(g.limitations, LimitationKey());
  }

  lemma UncheckedWithNothing(f: RepositoryFacts)
    ensures MergeUnchecked(EMPTY, f) == MergeUnchecked(f, EMPTY) == MergeUnchecked(f, f) == Normalize(f)
  {
    hide Canon, MergeBy, MergeGroup, NormalizeGroup, StatusIds;
    GroupWithNothing(f.groups.git);
    GroupWithNothing(f.groups.documentation);
    GroupWithNothing(f.groups.issues);
    GroupWithNothing(f.groups.cicd);
    GroupWithNothing(f.groups.security);
    GroupWithNothing(f.groups.codeHealth);
    MergeByWithNothing(f.statuses, StatusKey());
    MergeByWithNothing(f.capabilityStates, CapabilityKey());
    CanonWithNothing(f.capabilities, IdKey());
    CanonWithNothing(f.limitations, LimitationKey());
    var ids := StatusIds(Canon(f.statuses, StatusKey()));
    assert [] + f.usedSources == f.usedSources + [] == f.usedSources;
    IdKeyInjective();
    CanonOfSet(f.usedSources + f.usedSources + ids, f.usedSources + ids, IdKey());
    assert map[] + f.sourceVersions == f.sourceVersions + map[] == f.sourceVersions + f.sourceVersions ==
      f.sourceVersions;
  }

  lemma ConflictWithNothing(f: RepositoryFacts)
    ensures Conflict(EMPTY, f) <==> Unsortable(f)
    ensures Conflict(f, EMPTY) <==> Unsortable(f)
    ensures Conflict(f, f) <==> Unsortable(f)
  {
    hide Mixed;
    MixedWithNothing(f.limitations);
    forall name: GroupName
      ensures EMPTY.groups.Get(name).limitations == []
      ensures var l := f.groups.Get(name).limitations; Mixed([] + l) == Mixed(l + []) == Mixed(l + l) == Mixed(l)
    {
      MixedWithNothing(f.groups.Get(name).limitations);
    }
  }

  lemma MixedWithNothing(l: seq<Limitation>)
    ensures Mixed([] + l) == Mixed(l + []) == Mixed(l + l) == Mixed(l)
  {
    assert [] + l == l + [] == l;
    MixedIsAboutElements(l + l, l);
  }

  lemma GroupFixed(g: FactGroup)
    requires !Mixed(g.limitations)
    ensures NormalizeGroup(g) == g <==> CanonicalGroup(g)
  {
    hide Canon, Mixed;
    CanonFixed(g.observations, ObservationKey());
    CanonFixed(g.limitations, LimitationKey());
  }

  lemma NormalizeFixed(f: RepositoryFacts)
    requires !Unsortable(f)
    ensures Normalize(f) == f <==> Canonical(f)
  {
    hide Canon, NormalizeGroup, CanonicalGroup, StatusIds, Mixed;
    CanonFixed(f.statuses, StatusKey());
    CanonFixed(f.capabilities, IdKey());
    CanonFixed(f.capabilityStates, CapabilityKey());
    CanonFixed(f.limitations, LimitationKey());
    UsedContainsStatuses(f.usedSources, StatusIds(f.statuses));
    forall name: GroupName
      ensures NormalizeGroup(f.groups.Get(name)) == f.groups.Get(name) <==> CanonicalGroup(f.groups.Get(name))
    {
      assert !Mixed(f.groups.Get(name).limitations);
      GroupFixed(f.groups.Get(name));
    }
    GroupsEqual(Normalize(f).groups, f.groups);
    var g := Normalize(f).groups;
    forall name: GroupName ensures g.Get(name) == NormalizeGroup(f.groups.Get(name)) {}
  }

  lemma GroupsEqual(a: Groups, b: Groups)
    ensures a == b <==> forall name: GroupName :: a.Get(name) == b.Get(name)
  {
    if forall name: GroupName :: a.Get(name) == b.Get(name) {
      assert a.Get(Git) == b.Get(Git) && a.Get(Documentation) == b.Get(Documentation) && a.Get(Issues) == b.Get(Issues);
      assert a.Get(Cicd) == b.Get(Cicd) && a.Get(Security) == b.Get(Security) && a.Get(CodeHealth) == b.Get(CodeHealth);
    }
  }

  /** The empty facts are a two-sided identity, and merging is idempotent, on exactly the canonical facts;
      on all others the result is the same normal form in all three cases, or all three raise. */
  lemma IdentityAndIdempotence(f: RepositoryFacts)
    ensures Merge(EMPTY, f) == Merge(f, EMPTY) == Merge(f, f)
    ensures Merge(f, f) == Some(f) <==> Canonical(f)
    ensures Merge(f, f).None? <==> Unsortable(f)
  {
    hide MergeUnchecked, Normalize, Conflict;
    UncheckedWithNothing(f);
    ConflictWithNothing(f);
    if !Unsortable(f) {
      NormalizeFixed(f);
    }
  }

  // ---- Commutation ----

  ghost predicate AgreeOn<T>(a: seq<T>, b: seq<T>, key: T -> Key) {
    forall k :: k in Index(a, key) && k in Index(b, key) ==> Index(a, key)[k] == Index(b, key)[k]
  }

  ghost predicate AgreeOnValue<T>(a: Option<T>, b: Option<T>) {
    a.Some? && b.Some? ==> a == b
  }

  ghost predicate GroupsAgree(a: FactGroup, b: FactGroup) {
    AgreeOn(a.observations, b.observations, ObservationKey()) && AgreeOnValue(a.scanState, b.scanState)
  }

  /** The two sides write nothing differently: shared keys carry equal items, single values set on both sides are
      equal. */
  ghost predicate Agree(a: RepositoryFacts, b: RepositoryFacts) {
    && AgreeOnValue(a.repository, b.repository)
    && AgreeOnValue(a.snapshotDigest, b.snapshotDigest)
    && AgreeOnValue(a.collectedAt, b.collectedAt)
    && (forall k :: k in a.sourceVersions && k in b.sourceVersions ==> a.sourceVersions[k] == b.sourceVersions[k])
    && AgreeOn(a.statuses, b.statuses, StatusKey())
    && AgreeOn(a.capabilityStates, b.capabilityStates, CapabilityKey())
    && (forall name: GroupName :: GroupsAgree(a.groups.Get(name), b.groups.Get(name)))
  }

  lemma MergeByCommutes<T>(a: seq<T>, b: seq<T>, key: T -> Key)
    ensures MergeBy(a, b, key) == MergeBy(b, a, key) <==> AgreeOn(a, b, key)
  {
    IndexOfMerge(a, b, key);
    IndexOfMerge(b, a, key);
    MapsCommute(Index(a, key), Index(b, key));
  }

  lemma MapsCommute<K, V>(m: map<K, V>, n: map<K, V>)
    ensures m + n == n + m <==> forall k :: k in m && k in n ==> m[k] == n[k]
  {
    if m + n == n + m {
      forall k | k in m && k in n ensures m[k] == n[k] { assert (m + n)[k] == n[k] && (n + m)[k] == m[k]; }
    }
  }

  lemma CanonCommutes<T(!new)>(a: seq<T>, b: seq<T>, key: T -> Key)
    requires Injective(key)
    ensures Canon(a + b, key) == Canon(b + a, key)
  {
    CanonOfSet(a + b, b + a, key);
  }

  lemma GroupCommutes(a: FactGroup, b: FactGroup)
    ensures MergeGroup(a, b) == MergeGroup(b, a) <==> GroupsAgree(a, b)
  {
    hide MergeBy, Canon;
    MergeByCommutes(a.observations, b.observations, ObservationKey());
    LimitationKeyInjective();
    CanonCommutes(a.limitations, b.limitations, LimitationKey());
  }

  lemma GroupsCommute(a: RepositoryFacts, b: RepositoryFacts)
    ensures MergeGroups(a.groups, b.groups) == MergeGroups(b.groups, a.groups)
       <==> forall name: GroupName :: GroupsAgree(a.groups.Get(name), b.groups.Get(name))
  {
    hide MergeGroup, GroupsAgree;
    var ab, ba := MergeGroups(a.groups, b.groups), MergeGroups(b.groups, a.groups);
    GroupsEqual(ab, ba);
    forall name: GroupName ensures ab.Get(name) == ba.Get(name) <==>
      GroupsAgree(a.groups.Get(name), b.groups.Get(name)) {
      GroupCommutes(a.groups.Get(name), b.groups.Get(name));
    }
  }

  lemma UncheckedCommutes(a: RepositoryFacts, b: RepositoryFacts)
    ensures MergeUnchecked(a, b) == MergeUnchecked(b, a) <==> Agree(a, b)
  {
    hide MergeBy, Canon, MergeGroups, StatusIds, AgreeOn, GroupsAgree;
    GroupsCommute(a, b);
    MergeByCommutes(a.statuses, b.statuses, StatusKey());
    MergeByCommutes(a.capabilityStates, b.capabilityStates, CapabilityKey());
    MapsCommute(a.sourceVersions, b.sourceVersions);
    LimitationKeyInjective();
    IdKeyInjective();
    CanonCommutes(a.limitations, b.limitations, LimitationKey());
    CanonCommutes(a.capabilities, b.capabilities, IdKey());
    var ids := StatusIds(MergeBy(a.statuses, b.statuses, StatusKey()));
    CanonOfSet(a.usedSources + b.usedSources + ids, b.usedSources + a.usedSources + ids, IdKey());
  }

  lemma ConflictSymmetric(a: RepositoryFacts, b: RepositoryFacts)
    ensures Conflict(a, b) ==> Conflict(b, a)
  {
    MixedIsAboutElements(a.limitations + b.limitations, b.limitations + a.limitations);
    forall name: GroupName
      ensures Mixed(a.groups.Get(name).limitations + b.groups.Get(name).limitations)
           == Mixed(b.groups.Get(name).limitations + a.groups.Get(name).limitations)
    {
      MixedIsAboutElements(a.groups.Get(name).limitations + b.groups.Get(name).limitations,
                           b.groups.Get(name).limitations + a.groups.Get(name).limitations);
    }
  }

  /** Two sides commute exactly when they agree wherever both write (or the merge raises both ways). */
  lemma MergeCommutes(a: RepositoryFacts, b: RepositoryFacts)
    ensures Merge(a, b) == Merge(b, a) <==> Merge(a, b).None? || Agree(a, b)
  {
    hide MergeUnchecked, Conflict, Agree;
    ConflictSymmetric(a, b);
    ConflictSymmetric(b, a);
    UncheckedCommutes(a, b);
  }
}
