/** The collection fold over independent sources (collection/service.py). */
module Collection {
  import opened Wrappers
  import opened Ordering
  import opened SortedDict
  import opened Timestamps
  import opened ResultStore
  import opened Facts
  import opened MergeAlgebra
  import opened FactsDigest

  /** A source; `reply` is what its `collect` would return, None when it raises or returns something else.
      `factGroup` is None when the attribute names no known group. */
  datatype Collector = Collector(
    sourceId: string,
    provider: Option<string>,
    factGroup: Option<GroupName>,
    reply: Option<RepositoryFacts>)

  const EXCLUDED_CODE := "assessment.public_sourcecraft_excluded"

  function SourceKey(): Collector -> Key { (c: Collector) => [c.sourceId] }

  predicate IsOwnerSource(c: Collector) {
    c.provider == Some("sourcecraft")
  }

  function GroupText(name: GroupName): string {
    match name
    case Git => "git"
    case Documentation => "documentation"
    case Issues => "issues"
    case Cicd => "cicd"
    case Security => "security"
    case CodeHealth => "code_health"
  }

  function With(name: GroupName, g: FactGroup): Groups {
    match name
    case Git => EMPTY_GROUPS.(git := g)
    case Documentation => EMPTY_GROUPS.(documentation := g)
    case Issues => EMPTY_GROUPS.(issues := g)
    case Cicd => EMPTY_GROUPS.(cicd := g)
    case Security => EMPTY_GROUPS.(security := g)
    case CodeHealth => EMPTY_GROUPS.(codeHealth := g)
  }

  function Exclusion(name: GroupName): Limitation {
    Limitation(EXCLUDED_CODE, "owner-authorized SourceCraft data is not part of PUBLIC assessment",
               Some(GroupText(name)))
  }

  function ExcludedStatus(sourceId: string, name: GroupName, now: Instant): SourceStatus {
    SourceStatus(sourceId, UNAVAILABLE, Some("profile-excluded"), None, Some(now), [Exclusion(name)])
  }

  /** `_profile_excluded`; raises without a known fact group. */
  function ProfileExcluded(repository: Repository, profile: Profile, c: Collector,
                           now: Instant): Option<RepositoryFacts> {
    if c.factGroup.None? then None
    else
      var name := c.factGroup.value;
      Some(RepositoryFacts(
        Some(repository), profile, None, None,
        map[c.sourceId := "profile-excluded"],
        [ExcludedStatus(c.sourceId, name, now)],
        With(name, EMPTY_GROUP.(limitations := [Exclusion(name)])),
        [], [], [], [Exclusion(name)]))
  }

  /** What the fold is given for one collector. */
  function Respond(repository: Repository, profile: Profile, c: Collector, now: Instant): Option<RepositoryFacts> {
    if IsOwnerSource(c) && profile == PUBLIC then ProfileExcluded(repository, profile, c, now) else c.reply
  }

  function FailureLimitation(c: Collector): Limitation {
    Limitation(c.sourceId + ".collection_failed", "collector failed; category remains explicitly unavailable", None)
  }

  /** The exception branch: appended, not sorted. */
  function Failed(f: RepositoryFacts, c: Collector, now: Instant): RepositoryFacts {
    var status := SourceStatus(c.sourceId, CollectionState.ERROR, None, None, Some(now), [FailureLimitation(c)]);
    f.(statuses := f.statuses + [status], limitations := f.limitations + [FailureLimitation(c)])
  }

  /** Whether the collector's facts were obtained and merged. */
  predicate Succeeds(repository: Repository, profile: Profile, f: RepositoryFacts, c: Collector, now: Instant) {
    Respond(repository, profile, c, now).Some? && Merge(f, Respond(repository, profile, c, now).value).Some?
  }

  function CollectOne(repository: Repository, profile: Profile, f: RepositoryFacts, c: Collector,
                      now: Instant): RepositoryFacts {
    if Succeeds(repository, profile, f, c, now) then Merge(f, Respond(repository, profile, c, now).value).value
    else Failed(f, c, now)
  }

  /** `_capabilities_for` */
  function CapabilitiesFor(states: seq<CapabilityStatus>, profile: Profile): seq<CapabilityStatus> {
    var m := Index(SortBy(states, CapabilityKey()), CapabilityKey());
    Values(if profile == PUBLIC then
             m[["sourcecraft"] := CapabilityStatus("sourcecraft", "unavailable",
               "owner-authorized SourceCraft data is excluded from PUBLIC assessment")]
           else m)
  }

  function Initial(repository: Repository, profile: Profile, states: seq<CapabilityStatus>,
                   now: Instant): RepositoryFacts {
    EMPTY.(repository := Some(repository), profile := profile,
           capabilityStates := CapabilitiesFor(states, profile), collectedAt := Some(now))
  }

  /** The facts after the first k collectors, read at clock(0) for the start and clock(i + 1) for collector i. */
  function Fold(repository: Repository, profile: Profile, states: seq<CapabilityStatus>, cs: seq<Collector>,
                clock: nat -> Instant, k: nat): RepositoryFacts
    requires k <= |cs|
  {
    if k == 0 then Initial(repository, profile, states, clock(0))
    else CollectOne(repository, profile, Fold(repository, profile, states, cs, clock, k - 1), cs[k - 1], clock(k))
  }

  predicate MarkedExcluded(s: SourceStatus) {
    exists i :: 0 <= i < |s.limitations| && s.limitations[i].code == EXCLUDED_CODE
  }

  function ExcludedIds(statuses: seq<SourceStatus>): set<string> {
    set i | 0 <= i < |statuses| && MarkedExcluded(statuses[i]) :: statuses[i].sourceId
  }

  function IdMap(ids: set<string>): map<Key, string> {
    map id | id in ids :: [id] := id
  }

  /** A set of ids as a sorted tuple. */
  function SortedIds(ids: set<string>): seq<string> {
    Values(IdMap(ids))
  }

  function UsedIds(f: RepositoryFacts): set<string> {
    ((set id | id in f.usedSources) + (set id | id in StatusIds(f.statuses))) - ExcludedIds(f.statuses)
  }

  function Conclude(f: RepositoryFacts, profile: Profile, states: seq<CapabilityStatus>): RepositoryFacts {
    f.(profile := profile, capabilityStates := CapabilitiesFor(states, profile), usedSources := SortedIds(UsedIds(f)))
  }

  /** What `collect` returns for collectors supplied in any order. */
  function Collected(repository: Repository, profile: Profile, states: seq<CapabilityStatus>, supplied: seq<Collector>,
                     clock: nat -> Instant): RepositoryFacts {
    var cs := SortBy(supplied, SourceKey());
    Conclude(Fold(repository, profile, states, cs, clock, |cs|), profile, states)
  }

  class CollectionService {
    const collectors: seq<Collector>
    const capabilityStates: seq<CapabilityStatus>

    constructor (supplied: seq<Collector>, states: seq<CapabilityStatus>)
      requires supplied != []
      ensures collectors == SortBy(supplied, SourceKey())
      ensures capabilityStates == SortBy(states, CapabilityKey())
    {
      collectors := SortBy(supplied, SourceKey());
      capabilityStates := SortBy(states, CapabilityKey());
    }

    method Collect(repository: Repository, profile: Profile, clock: nat -> Instant) returns (facts: RepositoryFacts)
      ensures facts ==
                Conclude(Fold(repository, profile, capabilityStates, collectors, clock, |collectors|), profile,
                         capabilityStates)
    {
      hide Merge, ProfileExcluded, Initial, CapabilitiesFor, SortedIds, UsedIds, FailureLimitation;
      facts := Initial(repository, profile, capabilityStates, clock(0));
      for i := 0 to |collectors|
        invariant facts == Fold(repository, profile, capabilityStates, collectors, clock, i)
      {
        var c, now := collectors[i], clock(i + 1);
        var result := if IsOwnerSource(c) && profile == PUBLIC then ProfileExcluded(repository, profile, c, now)
                      else c.reply;
        var merged := if result.Some? then Merge(facts, result.value) else None;
        if merged.Some? {
          facts := merged.value;
        } else {
          var limitation := FailureLimitation(c);
          facts := facts.(
            statuses := facts.statuses +
              [SourceStatus(c.sourceId, CollectionState.ERROR, None, None, Some(now), [limitation])],
            limitations := facts.limitations + [limitation]);
        }
      }
      facts := facts.(profile := profile, capabilityStates := CapabilitiesFor(capabilityStates, profile),
                      usedSources := SortedIds(UsedIds(facts)));
    }
  }

  // ---- What a run says about capabilities and sources ----

  const UNAVAILABLE_SOURCECRAFT :=
    CapabilityStatus("sourcecraft", "unavailable",
                     "owner-authorized SourceCraft data is excluded from PUBLIC assessment")

  /** A PUBLIC run reports the sourcecraft capability as unavailable, whatever was configured and collected. Every other
      capability, and every capability of an owner run, is reported as configured last, and each id once. */
  lemma CapabilityStatesOfRun(f: RepositoryFacts, profile: Profile, configured: seq<CapabilityStatus>,
                              c: CapabilityStatus)
    ensures var states := Conclude(f, profile, configured).capabilityStates;
            && (c in states <==>
                  if profile == PUBLIC && c.capabilityId == "sourcecraft"
                  then c.state == "unavailable" && c.reason == UNAVAILABLE_SOURCECRAFT.reason
                  else LastNamed(configured, (x: CapabilityStatus) => x.capabilityId, c))
            && forall i, j :: 0 <= i < j < |states| ==> StrLess(states[i].capabilityId, states[j].capabilityId)
  {
    hide Index, Values, SortedIds, UsedIds, SortBy;
    var key := CapabilityKey();
    var m := Index(configured, key);
    IndexIgnoresSort(configured, key);
    IndexKeyed(configured, key);
    var all := if profile == PUBLIC then m[["sourcecraft"] := UNAVAILABLE_SOURCECRAFT] else m;
    assert Keyed(all, key);
    var states := Conclude(f, profile, configured).capabilityStates;
    assert states == Values(all);
    ValuesElements(all);
    ValuesSorted(all, key);
    assert c in states <==> [c.capabilityId] in all && all[[c.capabilityId]] == c by {
      if c in states {
        var k :| k in all && all[k] == c;
        assert k == key(c);
      }
    }
    NamedIndex(configured, key, (x: CapabilityStatus) => x.capabilityId, c);
    forall i, j | 0 <= i < j < |states| ensures StrLess(states[i].capabilityId, states[j].capabilityId) {
      assert KeyLess(key(states[i]), key(states[j]));
      TupleLess(key(states[i]), key(states[j]));
    }
    assert [c.capabilityId] == ["sourcecraft"] <==> c.capabilityId == "sourcecraft" by {
      assert [c.capabilityId][0] == c.capabilityId && ["sourcecraft"][0] == "sourcecraft";
    }
  }

  /** The service sorts its configuration and its collectors once; what it collects is the same. */
  lemma ServiceCollects(repository: Repository, profile: Profile, states: seq<CapabilityStatus>,
                        supplied: seq<Collector>, clock: nat -> Instant)
    ensures var cs, sorted := SortBy(supplied, SourceKey()), SortBy(states, CapabilityKey());
            Conclude(Fold(repository, profile, sorted, cs, clock, |cs|), profile, sorted)
            == Collected(repository, profile, states, supplied, clock)
  {
    hide CollectOne, SortedIds, UsedIds;
    var cs, sorted := SortBy(supplied, SourceKey()), SortBy(states, CapabilityKey());
    SameCapabilities(states, profile);
    SameFold(repository, profile, sorted, states, cs, clock, |cs|);
  }

  lemma SameCapabilities(states: seq<CapabilityStatus>, profile: Profile)
    ensures CapabilitiesFor(SortBy(states, CapabilityKey()), profile) == CapabilitiesFor(states, profile)
  {
    hide SortBy, Index;
    IndexIgnoresSort(states, CapabilityKey());
    IndexIgnoresSort(SortBy(states, CapabilityKey()), CapabilityKey());
  }

  lemma {:induction false} SameFold(repository: Repository, profile: Profile, a: seq<CapabilityStatus>,
                                    b: seq<CapabilityStatus>, cs: seq<Collector>, clock: nat -> Instant, k: nat)
    requires k <= |cs| && CapabilitiesFor(a, profile) == CapabilitiesFor(b, profile)
    ensures Fold(repository, profile, a, cs, clock, k) == Fold(repository, profile, b, cs, clock, k)
  {
    hide CollectOne, CapabilitiesFor;
    if k > 0 { SameFold(repository, profile, a, b, cs, clock, k - 1); }
  }

  /** The used sources are the ones the facts use or report on, without those some status marks as excluded. */
  lemma UsedSourcesOfRun(f: RepositoryFacts, profile: Profile, states: seq<CapabilityStatus>, id: string)
    ensures id in Conclude(f, profile, states).usedSources <==>
              && (id in f.usedSources || exists i :: 0 <= i < |f.statuses| && f.statuses[i].sourceId == id)
              && !exists i,
              j :: 0 <= i < |f.statuses| && 0 <= j < |f.statuses[i].limitations| && f.statuses[i].sourceId == id
                                && f.statuses[i].limitations[j].code == "assessment.public_sourcecraft_excluded"
  {
    hide CapabilitiesFor, SortedIds;
    SortedIdsElements(UsedIds(f));
    var ids := StatusIds(f.statuses);
    assert id in ids <==> exists i :: 0 <= i < |f.statuses| && f.statuses[i].sourceId == id by {
      if i :| 0 <= i < |f.statuses| && f.statuses[i].sourceId == id { assert ids[i] == id; }
    }
    if i, j :| 0 <= i < |f.statuses| && 0 <= j < |f.statuses[i].limitations| && f.statuses[i].sourceId == id
               && f.statuses[i].limitations[j].code == EXCLUDED_CODE {
      assert MarkedExcluded(f.statuses[i]);
    }
  }

  /** What an owner source contributes to a PUBLIC run: its exclusion, in its own group only, and nothing of its reply.
      */
  lemma ExclusionContents(repository: Repository, c: Collector, now: Instant)
    requires c.provider == Some("sourcecraft")
    ensures var reply := Respond(repository, PUBLIC, c, now);
            if c.factGroup.None? then reply.None?
            else
              && reply.Some?
              && var f := reply.value;
                 && f.repository == Some(repository) && f.profile == PUBLIC
                 && f.snapshotDigest.None? && f.collectedAt.None?
                 && f.sourceVersions == map[c.sourceId := "profile-excluded"]
                 && |f.statuses| == 1 && f.statuses[0].sourceId == c.sourceId && f.statuses[0].state == UNAVAILABLE
                 && f.statuses[0].sourceVersion == Some("profile-excluded") && f.statuses[0].collectedAt == Some(now)
                 && f.statuses[0].limitations == f.limitations && |f.limitations| == 1
                 && f.limitations[0].code == "assessment.public_sourcecraft_excluded"
                 && f.limitations[0].scope == Some(match c.factGroup.value
                                                   case Git => "git"
                                                   case Documentation => "documentation"
                                                   case Issues => "issues"
                                                   case Cicd => "cicd"
                                                   case Security => "security"
                                                   case CodeHealth => "code_health")
                 && f.capabilities == [] && f.usedSources == [] && f.capabilityStates == []
                 && forall name: GroupName ::
                      && !f.groups.Get(name).available && f.groups.Get(name).observations == []
                      && f.groups.Get(name).scanState.None?
                      && f.groups.Get(name).limitations == if name == c.factGroup.value then f.limitations else []
  {}

  /** Every other source, and every source of an owner run, contributes exactly its reply. */
  lemma OthersReply(repository: Repository, profile: Profile, c: Collector, now: Instant)
    requires profile == OWNER_EXTENDED || c.provider != Some("sourcecraft")
    ensures Respond(repository, profile, c, now) == c.reply
  {}

  /** What a failed collector leaves: one status, one limitation, and everything else as it was. */
  lemma FailureContents(repository: Repository, profile: Profile, f: RepositoryFacts, c: Collector, now: Instant)
    requires !Succeeds(repository, profile, f, c, now)
    ensures var g := CollectOne(repository, profile, f, c, now);
            && g == f.(statuses := g.statuses, limitations := g.limitations)
            && |g.statuses| == |f.statuses| + 1 && g.statuses[..|f.statuses|] == f.statuses
            && |g.limitations| == |f.limitations| + 1 && g.limitations[..|f.limitations|] == f.limitations
            && var status, limitation := g.statuses[|f.statuses|], g.limitations[|f.limitations|];
               && status.sourceId == c.sourceId && status.state == CollectionState.ERROR
               && status.collectedAt == Some(now)
               && status.sourceVersion.None? && status.snapshotDigest.None? && status.limitations == [limitation]
               && limitation.code == c.sourceId + ".collection_failed" && limitation.scope.None?
  {
    hide Merge;
  }

  /** A run starts from nothing but the repository, the profile, the capabilities and the time, and returns the facts
      of its last step with capabilities and used sources replaced. */
  lemma RunFrame(repository: Repository, profile: Profile, states: seq<CapabilityStatus>, now: Instant,
                 f: RepositoryFacts)
    ensures Initial(repository, profile, states, now) ==
            RepositoryFacts(Some(repository), profile, None, Some(now), map[], [], EMPTY_GROUPS, [], [],
                            Conclude(f, profile, states).capabilityStates, [])
    ensures var g := Conclude(f, profile, states);
            g.(capabilityStates := f.capabilityStates, usedSources := f.usedSources) == f.(profile := profile)
  {
    hide CapabilitiesFor, SortedIds;
  }

  // ---- Order of supply ----

  /** With distinct source ids the result does not depend on the order the collectors were supplied in. */
  lemma SupplyOrderIrrelevant(repository: Repository, profile: Profile, states: seq<CapabilityStatus>,
                              a: seq<Collector>, b: seq<Collector>, clock: nat -> Instant)
    requires multiset(a) == multiset(b) && DistinctKeys(a, SourceKey())
    ensures Collected(repository, profile, states, a, clock) == Collected(repository, profile, states, b, clock)
  {
    SortIgnoresSupplyOrder(a, b, SourceKey());
  }

  // ---- Who decides an observation ----

  /** The observations of a group that a collector reports, by key. */
  ghost function Reported(repository: Repository, profile: Profile, c: Collector, now: Instant,
                          name: GroupName): map<Key, Observation> {
    var response := Respond(repository, profile, c, now);
    if response.None? then map[] else Index(response.value.groups.Get(name).observations, ObservationKey())
  }

  /** The last of the first k collectors that succeeded and reports the key in the group. */
  ghost function Reporter(repository: Repository, profile: Profile, states: seq<CapabilityStatus>, cs: seq<Collector>,
                          clock: nat -> Instant, k: nat, name: GroupName, key: Key): (r: Option<nat>)
    requires k <= |cs|
    ensures r.Some? ==> r.value < k
  {
    if k == 0 then None
    else if Succeeds(repository, profile, Fold(repository, profile, states, cs, clock, k - 1), cs[k - 1], clock(k))
            && key in Reported(repository, profile, cs[k - 1], clock(k), name) then Some(k - 1)
    else Reporter(repository, profile, states, cs, clock, k - 1, name, key)
  }

  lemma MergedObservations(a: RepositoryFacts, b: RepositoryFacts, name: GroupName)
    ensures Index(MergeUnchecked(a, b).groups.Get(name).observations, ObservationKey())
         == Index(a.groups.Get(name).observations, ObservationKey()) +
           Index(b.groups.Get(name).observations, ObservationKey())
  {
    hide MergeBy, Canon, Index;
    MergedGroup(a, b, name);
    IndexOfMerge(a.groups.Get(name).observations, b.groups.Get(name).observations, ObservationKey());
  }

  lemma FailedKeepsGroups(f: RepositoryFacts, c: Collector, now: Instant)
    ensures Failed(f, c, now).groups == f.groups
  {}

  ghost function ObservationsOf(f: RepositoryFacts, name: GroupName): map<Key, Observation> {
    Index(f.groups.Get(name).observations, ObservationKey())
  }

  lemma CollectOneObservations(repository: Repository, profile: Profile, f: RepositoryFacts, c: Collector, now: Instant,
                               name: GroupName)
    ensures ObservationsOf(CollectOne(repository, profile, f, c, now), name) ==
              if Succeeds(repository, profile, f, c, now)
              then ObservationsOf(f, name) + Reported(repository, profile, c, now, name)
              else ObservationsOf(f, name)
  {
    hide Index, Respond, Failed, MergeUnchecked, Conflict;
    FailedKeepsGroups(f, c, now);
    if Succeeds(repository, profile, f, c, now) {
      MergedObservations(f, Respond(repository, profile, c, now).value, name);
    }
  }

  /** Each observation is the one from the last successful collector that reports its key, and there
      is no other observation. */
  lemma {:induction false} LastReporterDecides(repository: Repository, profile: Profile, states: seq<CapabilityStatus>,
                                               cs: seq<Collector>, clock: nat -> Instant, k: nat, name: GroupName,
                                               key: Key)
    requires k <= |cs|
    ensures var m := ObservationsOf(Fold(repository, profile, states, cs, clock, k), name);
            var r := Reporter(repository, profile, states, cs, clock, k, name, key);
            && (key in m <==> r.Some?)
            && (r.Some? ==>
                  var n := Reported(repository, profile, cs[r.value], clock(r.value + 1), name);
                  key in n && m[key] == n[key])
  {
    hide CollectOne, Succeeds, Reported, ObservationsOf, Initial;
    if k == 0 {
      EmptyObservations(repository, profile, states, clock(0), name);
    } else {
      LastReporterDecides(repository, profile, states, cs, clock, k - 1, name, key);
      CollectOneObservations(repository, profile, Fold(repository, profile, states, cs, clock, k - 1), cs[k - 1],
                             clock(k), name);
    }
  }

  lemma EmptyObservations(repository: Repository, profile: Profile, states: seq<CapabilityStatus>, now: Instant,
                          name: GroupName)
    ensures ObservationsOf(Initial(repository, profile, states, now), name) == map[]
  {
    hide CapabilitiesFor;
  }

  // ---- Failures leave their limitation ----

  lemma MergeKeepsLimitations(a: RepositoryFacts, b: RepositoryFacts)
    ensures forall l :: l in a.limitations ==> l in MergeUnchecked(a, b).limitations
  {
    hide MergeBy, Canon, MergeGroups;
    LimitationKeyInjective();
    CanonElements(a.limitations + b.limitations, LimitationKey());
    assert forall l :: l in a.limitations ==> l in a.limitations + b.limitations;
  }

  /** A collector that failed changed no fact group, and its limitation is still there at the end. */
  lemma {:induction false} FailureStaysVisible(repository: Repository, profile: Profile, states: seq<CapabilityStatus>,
                                               cs: seq<Collector>, clock: nat -> Instant, i: nat, k: nat)
    requires i < k <= |cs|
    requires !Succeeds(repository, profile, Fold(repository, profile, states, cs, clock, i), cs[i], clock(i + 1))
    ensures Fold(repository, profile, states, cs, clock, i + 1).groups ==
              Fold(repository, profile, states, cs, clock, i).groups
    ensures FailureLimitation(cs[i]) in Fold(repository, profile, states, cs, clock, k).limitations
  {
    hide Merge, MergeUnchecked, Respond, Succeeds, Initial;
    if k > i + 1 {
      FailureStaysVisible(repository, profile, states, cs, clock, i, k - 1);
      var f := Fold(repository, profile, states, cs, clock, k - 1);
      if Succeeds(repository, profile, f, cs[k - 1], clock(k)) {
        SuccessMerges(repository, profile, f, cs[k - 1], clock(k));
        MergeKeepsLimitations(f, Respond(repository, profile, cs[k - 1], clock(k)).value);
      }
    }
  }

  lemma SuccessMerges(repository: Repository, profile: Profile, f: RepositoryFacts, c: Collector, now: Instant)
    requires Succeeds(repository, profile, f, c, now)
    ensures Respond(repository, profile, c, now).Some?
    ensures CollectOne(repository, profile, f, c, now) == MergeUnchecked(f, Respond(repository, profile, c, now).value)
    ensures Merge(f, Respond(repository, profile, c, now).value) ==
              Some(MergeUnchecked(f, Respond(repository, profile, c, now).value))
  {}

  lemma SortedIdsElements(ids: set<string>)
    ensures forall id :: id in SortedIds(ids) <==> id in ids
    ensures StrictlySorted(SortedIds(ids), IdKey())
  {
    var m := IdMap(ids);
    forall k | k in m ensures m[k] in ids && k == [m[k]] {}
    ValuesElements(m);
    ValuesSorted(m, IdKey());
    forall id | id in ids ensures id in SortedIds(ids) {
      assert [id] in m;
      assert m[[id]] == [id][0];
    }
  }

  lemma FailedStatusIds(f: RepositoryFacts, c: Collector, now: Instant)
    ensures StatusIds(Failed(f, c, now).statuses) == StatusIds(f.statuses) + [c.sourceId]
  {}

  // ---- When merging cannot raise ----

  /** Two limitations the sort cannot order. */
  predicate Clash(x: Limitation, y: Limitation) {
    x.code == y.code && x.reason == y.reason && x.scope.None? && y.scope.Some?
  }

  /** The limitations a collector can bring to the facts, and to a group of them. */
  function Brings(repository: Repository, profile: Profile, c: Collector, now: Instant): seq<Limitation> {
    var reply := Respond(repository, profile, c, now);
    (if reply.Some? then reply.value.limitations else []) + [FailureLimitation(c)]
  }

  function BringsTo(repository: Repository, profile: Profile, c: Collector, now: Instant,
                    name: GroupName): seq<Limitation> {
    var reply := Respond(repository, profile, c, now);
    if reply.Some? then reply.value.groups.Get(name).limitations else []
  }

  /** No two limitations at hand clash, whichever collectors they come from. */
  ghost predicate NoClash(repository: Repository, profile: Profile, cs: seq<Collector>, clock: nat -> Instant) {
    forall i, j :: 0 <= i < |cs| && 0 <= j < |cs| ==>
      NoClashBetween(repository, profile, cs[i], clock(i + 1), cs[j], clock(j + 1))
  }

  ghost predicate NoClashBetween(repository: Repository, profile: Profile, c: Collector, now: Instant, d: Collector,
                                 later: Instant) {
    && (forall x, y :: x in Brings(repository, profile, c, now) && y in Brings(repository, profile, d, later) ==>
          !Clash(x, y))
    && (forall name: GroupName, x, y ::
          x in BringsTo(repository, profile, c, now, name) && y in BringsTo(repository, profile, d, later, name) ==>
            !Clash(x, y))
  }

  /** Where a limitation of the facts after k collectors came from. */
  ghost predicate Brought(repository: Repository, profile: Profile, cs: seq<Collector>, clock: nat -> Instant, k: nat,
                          x: Limitation)
    requires k <= |cs|
  {
    exists l :: 0 <= l < k && x in Brings(repository, profile, cs[l], clock(l + 1))
  }

  ghost predicate BroughtTo(repository: Repository, profile: Profile, cs: seq<Collector>, clock: nat -> Instant, k: nat,
                            name: GroupName, x: Limitation)
    requires k <= |cs|
  {
    exists l :: 0 <= l < k && x in BringsTo(repository, profile, cs[l], clock(l + 1), name)
  }

  lemma TurnLimitations(repository: Repository, profile: Profile, f: RepositoryFacts, c: Collector, now: Instant)
    ensures var g := CollectOne(repository, profile, f, c, now);
            && (forall x :: x in g.limitations ==> x in f.limitations || x in Brings(repository, profile, c, now))
            && (forall name: GroupName, x :: x in g.groups.Get(name).limitations ==>
                  x in f.groups.Get(name).limitations || x in BringsTo(repository, profile, c, now, name))
  {
    hide Respond, MergeUnchecked, Conflict, FailureLimitation;
    if Succeeds(repository, profile, f, c, now) {
      SuccessMerges(repository, profile, f, c, now);
      MergeIsRightBiasedUnion(f, Respond(repository, profile, c, now).value);
    }
  }

  lemma {:induction false} LimitationsAreBrought(repository: Repository, profile: Profile,
                                                 states: seq<CapabilityStatus>, cs: seq<Collector>,
                                                 clock: nat -> Instant, k: nat)
    requires k <= |cs|
    ensures var f := Fold(repository, profile, states, cs, clock, k);
            && (forall x :: x in f.limitations ==> Brought(repository, profile, cs, clock, k, x))
            && (forall name: GroupName, x :: x in f.groups.Get(name).limitations ==>
                  BroughtTo(repository, profile, cs, clock, k, name, x))
  {
    hide CollectOne, Brings, BringsTo;
    if k == 0 {
      NoLimitationsYet(repository, profile, states, clock(0));
    } else {
      LimitationsAreBrought(repository, profile, states, cs, clock, k - 1);
      var f, g := Fold(repository, profile, states, cs, clock, k - 1), Fold(repository, profile, states, cs, clock, k);
      TurnLimitations(repository, profile, f, cs[k - 1], clock(k));
      forall x | x in g.limitations ensures Brought(repository, profile, cs, clock, k, x) {
        if x in f.limitations { assert Brought(repository, profile, cs, clock, k - 1, x); }
      }
      forall name: GroupName, x | x in g.groups.Get(name).limitations
        ensures BroughtTo(repository, profile, cs, clock, k, name, x)
      {
        if x in f.groups.Get(name).limitations { assert BroughtTo(repository, profile, cs, clock, k - 1, name, x); }
      }
    }
  }

  lemma NoLimitationsYet(repository: Repository, profile: Profile, states: seq<CapabilityStatus>, now: Instant)
    ensures var f := Initial(repository, profile, states, now);
            f.limitations == [] && f.statuses == [] && forall name: GroupName :: f.groups.Get(name).limitations == []
  {
    hide CapabilitiesFor;
  }

  lemma NotMixed(items: seq<Limitation>)
    requires forall x, y :: x in items && y in items ==> !Clash(x, y)
    ensures !Mixed(items)
  {
    forall i, j | 0 <= i < |items| && 0 <= j < |items| ensures !Clash(items[i], items[j]) {}
  }

  /** If nothing at hand clashes, a collector succeeds exactly when it replies. */
  lemma SuccessIsReply(repository: Repository, profile: Profile, states: seq<CapabilityStatus>, cs: seq<Collector>,
                       clock: nat -> Instant, k: nat)
    requires k < |cs| && NoClash(repository, profile, cs, clock)
    ensures Succeeds(repository, profile, Fold(repository, profile, states, cs, clock, k), cs[k], clock(k + 1)) <==>
            Respond(repository, profile, cs[k], clock(k + 1)).Some?
  {
    hide Respond, MergeUnchecked, Fold, NoClashBetween, Brings, BringsTo, Mixed;
    var f, reply := Fold(repository, profile, states, cs, clock, k), Respond(repository, profile, cs[k], clock(k + 1));
    LimitationsAreBrought(repository, profile, states, cs, clock, k);
    if reply.Some? {
      ReplyBrings(repository, profile, cs[k], clock(k + 1));
      var items := f.limitations + reply.value.limitations;
      forall x, y | x in items && y in items ensures !Clash(x, y) {
        assert Brought(repository, profile, cs, clock, k + 1, x) &&
               Brought(repository, profile, cs, clock, k + 1, y) by {
          Carried(repository, profile, cs, clock, k, x);
          Carried(repository, profile, cs, clock, k, y);
        }
        BroughtApart(repository, profile, cs, clock, k + 1, x, y);
      }
      NotMixed(items);
      forall name: GroupName ensures !Mixed(f.groups.Get(name).limitations + reply.value.groups.Get(name).limitations) {
        var more := f.groups.Get(name).limitations + reply.value.groups.Get(name).limitations;
        forall x, y | x in more && y in more ensures !Clash(x, y) {
          CarriedTo(repository, profile, cs, clock, k, name, x);
          CarriedTo(repository, profile, cs, clock, k, name, y);
          BroughtToApart(repository, profile, cs, clock, k + 1, name, x, y);
        }
        NotMixed(more);
      }
    }
  }

  lemma ReplyBrings(repository: Repository, profile: Profile, c: Collector, now: Instant)
    requires Respond(repository, profile, c, now).Some?
    ensures forall x :: x in Respond(repository, profile, c, now).value.limitations ==>
              x in Brings(repository, profile, c, now)
    ensures forall name: GroupName ::
              BringsTo(repository, profile, c, now, name) ==
                Respond(repository, profile, c, now).value.groups.Get(name).limitations
  {
    hide Respond;
  }

  lemma Carried(repository: Repository, profile: Profile, cs: seq<Collector>, clock: nat -> Instant, k: nat,
                x: Limitation)
    requires k < |cs|
    requires Brought(repository, profile, cs, clock, k, x) || x in Brings(repository, profile, cs[k], clock(k + 1))
    ensures Brought(repository, profile, cs, clock, k + 1, x)
  {
    hide Brings;
  }

  lemma CarriedTo(repository: Repository, profile: Profile, cs: seq<Collector>, clock: nat -> Instant, k: nat,
                  name: GroupName, x: Limitation)
    requires k < |cs|
    requires BroughtTo(repository, profile, cs, clock, k, name, x) ||
             x in BringsTo(repository, profile, cs[k], clock(k + 1), name)
    ensures BroughtTo(repository, profile, cs, clock, k + 1, name, x)
  {
    hide BringsTo;
  }

  lemma BroughtApart(repository: Repository, profile: Profile, cs: seq<Collector>, clock: nat -> Instant, k: nat,
                     x: Limitation, y: Limitation)
    requires k <= |cs| && NoClash(repository, profile, cs, clock)
    requires Brought(repository, profile, cs, clock, k, x) && Brought(repository, profile, cs, clock, k, y)
    ensures !Clash(x, y)
  {
    hide Brings, BringsTo;
    var i :| 0 <= i < k && x in Brings(repository, profile, cs[i], clock(i + 1));
    var j :| 0 <= j < k && y in Brings(repository, profile, cs[j], clock(j + 1));
    assert NoClashBetween(repository, profile, cs[i], clock(i + 1), cs[j], clock(j + 1));
  }

  lemma BroughtToApart(repository: Repository, profile: Profile, cs: seq<Collector>, clock: nat -> Instant, k: nat,
                       name: GroupName, x: Limitation, y: Limitation)
    requires k <= |cs| && NoClash(repository, profile, cs, clock)
    requires BroughtTo(repository, profile, cs, clock, k, name, x)
    requires BroughtTo(repository, profile, cs, clock, k, name, y)
    ensures !Clash(x, y)
  {
    hide Brings, BringsTo;
    var i :| 0 <= i < k && x in BringsTo(repository, profile, cs[i], clock(i + 1), name);
    var j :| 0 <= j < k && y in BringsTo(repository, profile, cs[j], clock(j + 1), name);
    assert NoClashBetween(repository, profile, cs[i], clock(i + 1), cs[j], clock(j + 1));
  }
}
