/** Repository facts and their merge (collection/merge.py, contracts/results.py). */
module Facts {
  import opened Wrappers
  import opened Ordering
  import opened SortedDict
  import opened Timestamps
  import opened ResultStore

  datatype Profile = PUBLIC | OWNER_EXTENDED

  datatype CollectionState = AVAILABLE | PARTIAL | UNAVAILABLE | STALE | TIMEOUT | PERMISSION_DENIED | ERROR

  datatype ScanState =
    | NO_SCAN
    | FINISHED_ZERO_FINDINGS
    | FINISHED_WITH_FINDINGS
    | SCAN_FAILED
    | SCAN_UNAVAILABLE
    | SCAN_PARTIAL

  datatype Limitation = Limitation(code: string, reason: string, scope: Option<string>)

  datatype Observation = Observation(key: string, value: string, unit: Option<string>, evidenceIds: seq<string>)

  datatype SourceStatus = SourceStatus(
    sourceId: string,
    state: CollectionState,
    sourceVersion: Option<string>,
    snapshotDigest: Option<string>,
    collectedAt: Option<Instant>,
    limitations: seq<Limitation>)

  datatype CapabilityStatus = CapabilityStatus(capabilityId: string, state: string, reason: string)

  /** `scanState` is only ever set in the security group. */
  datatype FactGroup = FactGroup(
    available: bool,
    observations: seq<Observation>,
    limitations: seq<Limitation>,
    scanState: Option<ScanState>)

  datatype GroupName = Git | Documentation | Issues | Cicd | Security | CodeHealth

  datatype Groups = Groups(
    git: FactGroup, documentation: FactGroup, issues: FactGroup,
    cicd: FactGroup, security: FactGroup, codeHealth: FactGroup)
  {
    function Get(name: GroupName): FactGroup {
      match name
      case Git => git
      case Documentation => documentation
      case Issues => issues
      case Cicd => cicd
      case Security => security
      case CodeHealth => codeHealth
    }
  }

  datatype RepositoryFacts = RepositoryFacts(
    repository: Option<Repository>,
    profile: Profile,
    snapshotDigest: Option<string>,
    collectedAt: Option<Instant>,
    sourceVersions: map<string, string>,
    statuses: seq<SourceStatus>,
    groups: Groups,
    capabilities: seq<string>,
    usedSources: seq<string>,
    capabilityStates: seq<CapabilityStatus>,
    limitations: seq<Limitation>)

  const EMPTY_GROUP := FactGroup(false, [], [], None)
  const EMPTY_GROUPS := Groups(EMPTY_GROUP, EMPTY_GROUP, EMPTY_GROUP, EMPTY_GROUP, EMPTY_GROUP, EMPTY_GROUP)

  /** `RepositoryFacts()` */
  const EMPTY := RepositoryFacts(None, PUBLIC, None, None, map[], [], EMPTY_GROUPS, [], [], [], [])

  // ---- Keys ----

  function ObservationKey(): Observation -> Key { (o: Observation) => [o.key] }
  function StatusKey(): SourceStatus -> Key { (s: SourceStatus) => [s.sourceId] }
  function CapabilityKey(): CapabilityStatus -> Key { (c: CapabilityStatus) => [c.capabilityId] }
  function IdKey(): string -> Key { (id: string) => [id] }
  function CodeKey(): Limitation -> Key { (l: Limitation) => [l.code] }

  /** The tuple (code, reason, affected_scope); an absent scope is an absent component. */
  function LimitationKey(): Limitation -> Key {
    (l: Limitation) => [l.code, l.reason] + (if l.scope.Some? then [l.scope.value] else [])
  }

  // ---- The merge ----

  /** Sorting the keys raises when it must order an absent scope against a string. */
  predicate Mixed(items: seq<Limitation>) {
    exists i, j :: 0 <= i < |items| && 0 <= j < |items| && items[i].code == items[j].code
      && items[i].reason == items[j].reason && items[i].scope.None? && items[j].scope.Some?
  }

  function Canon<T>(s: seq<T>, key: T -> Key): seq<T> {
    Values(Index(s, key))
  }

  function MergeBy<T>(left: seq<T>, right: seq<T>, key: T -> Key): seq<T> {
    Values(Index(left, key) + Index(right, key))
  }

  function Or<T>(right: Option<T>, left: Option<T>): Option<T> {
    if right.Some? then right else left
  }

  /** `merge_fact_group`, when the limitations can be sorted. */
  function MergeGroup(left: FactGroup, right: FactGroup): FactGroup {
    FactGroup(
      left.available || right.available,
      MergeBy(left.observations, right.observations, ObservationKey()),
      Canon(left.limitations + right.limitations, LimitationKey()),
      Or(right.scanState, left.scanState))
  }

  function MergeGroups(left: Groups, right: Groups): Groups {
    Groups(MergeGroup(left.git, right.git),
           MergeGroup(left.documentation, right.documentation),
           MergeGroup(left.issues, right.issues),
           MergeGroup(left.cicd, right.cicd),
           MergeGroup(left.security, right.security),
           MergeGroup(left.codeHealth, right.codeHealth))
  }

  function StatusIds(statuses: seq<SourceStatus>): (ids: seq<string>)
    ensures |ids| == |statuses| && forall i :: 0 <= i < |ids| ==> ids[i] == statuses[i].sourceId
  {
    seq(|statuses|, i requires 0 <= i < |statuses| => statuses[i].sourceId)
  }

  function MergeUnchecked(left: RepositoryFacts, right: RepositoryFacts): RepositoryFacts {
    var statuses := MergeBy(left.statuses, right.statuses, StatusKey());
    RepositoryFacts(
      Or(right.repository, left.repository),
      if left.profile == PUBLIC && right.profile == OWNER_EXTENDED then right.profile else left.profile,
      Or(right.snapshotDigest, left.snapshotDigest),
      Or(right.collectedAt, left.collectedAt),
      left.sourceVersions + right.sourceVersions,
      statuses,
      MergeGroups(left.groups, right.groups),
      Canon(left.capabilities + right.capabilities, IdKey()),
      Canon(left.usedSources + right.usedSources + StatusIds(statuses), IdKey()),
      MergeBy(left.capabilityStates, right.capabilityStates, CapabilityKey()),
      Canon(left.limitations + right.limitations, LimitationKey()))
  }

  predicate Conflict(left: RepositoryFacts, right: RepositoryFacts) {
    || Mixed(left.limitations + right.limitations)
    || exists name: GroupName :: Mixed(left.groups.Get(name).limitations + right.groups.Get(name).limitations)
  }

  /** `merge_repository_facts`; None when it raises. */
  function Merge(left: RepositoryFacts, right: RepositoryFacts): Option<RepositoryFacts> {
    if Conflict(left, right) then None else Some(MergeUnchecked(left, right))
  }

  function Then(f: Option<RepositoryFacts>, g: RepositoryFacts -> Option<RepositoryFacts>): Option<RepositoryFacts> {
    if f.None? then None else g(f.value)
  }

  // ---- Lists merged by key ----

  lemma KeyedUnion<T>(left: map<Key, T>, right: map<Key, T>, key: T -> Key)
    requires Keyed(left, key) && Keyed(right, key)
    ensures Keyed(left + right, key)
  {}

  lemma IndexOfMerge<T>(left: seq<T>, right: seq<T>, key: T -> Key)
    ensures Index(MergeBy(left, right, key), key) == Index(left, key) + Index(right, key)
    ensures StrictlySorted(MergeBy(left, right, key), key)
  {
    IndexKeyed(left, key);
    IndexKeyed(right, key);
    KeyedUnion(Index(left, key), Index(right, key), key);
    IndexOfValues(Index(left, key) + Index(right, key), key);
    ValuesSorted(Index(left, key) + Index(right, key), key);
  }

  /** The lists merged under a name: in the order of the names, each name once; the item is the last one the right side
      has under its name or, if the right side has none, the last one of the left side. */
  ghost predicate MergedNamed<T(!new)>(left: seq<T>, right: seq<T>, merged: seq<T>, name: T -> string) {
    && (forall i, j :: 0 <= i < j < |merged| ==> StrLess(name(merged[i]), name(merged[j])))
    && forall x :: x in merged <==>
         || LastNamed(right, name, x)
         || (LastNamed(left, name, x) && forall i :: 0 <= i < |right| ==> name(right[i]) != name(x))
  }

  lemma MergedByName<T(!new)>(left: seq<T>, right: seq<T>, key: T -> Key, name: T -> string)
    requires forall x :: key(x) == [name(x)]
    ensures MergedNamed(left, right, MergeBy(left, right, key), name)
  {
    hide Index, Values, LastNamed, KeyLess, StrLess;
    var merged, m := MergeBy(left, right, key), Index(left, key) + Index(right, key);
    IndexOfMerge(left, right, key);
    forall i, j | 0 <= i < j < |merged| ensures StrLess(name(merged[i]), name(merged[j])) {
      assert KeyLess(key(merged[i]), key(merged[j]));
      TupleLess(key(merged[i]), key(merged[j]));
    }
    IndexKeyed(merged, key);
    ValuesElements(m);
    forall x
      ensures x in merged <==>
                || LastNamed(right, name, x)
                || (LastNamed(left, name, x) && forall i :: 0 <= i < |right| ==> name(right[i]) != name(x))
    {
      NamedIndex(left, key, name, x);
      NamedIndex(right, key, name, x);
      if x in merged {
        var k :| k in m && m[k] == x;
        assert key(m[k]) == k;
      }
      assert x in merged <==> [name(x)] in m && m[[name(x)]] == x;
    }
  }

  lemma MergeByAssociative<T>(a: seq<T>, b: seq<T>, c: seq<T>, key: T -> Key)
    ensures MergeBy(MergeBy(a, b, key), c, key) == MergeBy(a, MergeBy(b, c, key), key)
  {
    IndexOfMerge(a, b, key);
    IndexOfMerge(b, c, key);
    assert Index(a, key) + Index(b, key) + Index(c, key) == Index(a, key) + (Index(b, key) + Index(c, key));
  }

  /** Canonicalising is a projection onto the strictly sorted lists. */
  lemma CanonFixed<T>(s: seq<T>, key: T -> Key)
    ensures Canon(s, key) == s <==> StrictlySorted(s, key)
    ensures StrictlySorted(Canon(s, key), key)
    ensures Index(Canon(s, key), key) == Index(s, key)
  {
    IndexKeyed(s, key);
    ValuesSorted(Index(s, key), key);
    IndexOfValues(Index(s, key), key);
    if StrictlySorted(s, key) { ValuesOfIndex(s, key); }
  }

  lemma CanonAbsorbs<T>(a: seq<T>, b: seq<T>, key: T -> Key)
    ensures Canon(Canon(a, key) + b, key) == Canon(a + b, key)
    ensures Canon(a + Canon(b, key), key) == Canon(a + b, key)
  {
    CanonFixed(a, key);
    CanonFixed(b, key);
    IndexConcat(Canon(a, key), b, key);
    IndexConcat(a, Canon(b, key), key);
    IndexConcat(a, b, key);
  }

  lemma CanonAssociative<T>(a: seq<T>, b: seq<T>, c: seq<T>, key: T -> Key)
    ensures Canon(Canon(a + b, key) + c, key) == Canon(a + b + c, key)
    ensures Canon(a + Canon(b + c, key), key) == Canon(a + b + c, key)
  {
    CanonAbsorbs(a + b, c, key);
    CanonAbsorbs(a, b + c, key);
    assert a + (b + c) == a + b + c;
  }

  ghost predicate Injective<T(!new)>(key: T -> Key) {
    forall x, y :: key(x) == key(y) ==> x == y
  }

  lemma LimitationKeyInjective()
    ensures Injective(LimitationKey())
  {
    forall x: Limitation, y: Limitation | LimitationKey()(x) == LimitationKey()(y) ensures x == y {
      var a, b := LimitationKey()(x), LimitationKey()(y);
      assert a[0] == b[0] && a[1] == b[1] && |a| == |b|;
      if x.scope.Some? { assert a[2] == b[2]; }
    }
  }

  lemma IdKeyInjective()
    ensures Injective(IdKey())
  {
    forall x: string, y: string | IdKey()(x) == IdKey()(y) ensures x == y {
      assert IdKey()(x)[0] == IdKey()(y)[0];
    }
  }

  ghost predicate SameElements<T(!new)>(s: seq<T>, t: seq<T>) {
    forall x :: x in s <==> x in t
  }

  /** When the key determines the item, only the set of items matters. */
  lemma CanonOfSet<T(!new)>(s: seq<T>, t: seq<T>, key: T -> Key)
    requires Injective(key) && SameElements(s, t)
    ensures Canon(s, key) == Canon(t, key)
  {
    var m, n := Index(s, key), Index(t, key);
    IndexKeyed(s, key);
    IndexKeyed(t, key);
    forall k | k in m ensures k in n && n[k] == m[k] { assert m[k] in t; assert key(m[k]) in n; }
    forall k | k in n ensures k in m { assert n[k] in s; assert key(n[k]) in m; }
    assert m == n;
  }

  lemma CanonElements<T(!new)>(s: seq<T>, key: T -> Key)
    requires Injective(key)
    ensures SameElements(Canon(s, key), s)
  {
    var m := Index(s, key);
    IndexKeyed(s, key);
    ValuesElements(m);
    forall x | x in s ensures x in Canon(s, key) {
      assert key(x) in m && key(m[key(x)]) == key(x);
    }
  }
}
