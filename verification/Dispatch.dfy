/** When collected facts can be dispatched: whether their digest survives in the analyzer inputs although failures
    are appended unsorted (collection/service.py, orchestration/orchestrator.py). */
module Dispatch {
  import opened Wrappers
  import opened Ordering
  import opened SortedDict
  import opened Timestamps
  import opened ResultStore
  import opened Facts
  import opened MergeAlgebra
  import opened FactsDigest
  import opened Collection

  /** What the contracts guarantee of a collector's facts. */
  ghost predicate RepliesAreContracts(cs: seq<Collector>) {
    forall i :: 0 <= i < |cs| && cs[i].reply.Some? ==>
      ItemsInOrder(cs[i].reply.value) && ScanStateInSecurity(cs[i].reply.value.groups)
  }

  /** In order but for the two lists the failure branch appends to. */
  ghost predicate MostlyInOrder(f: RepositoryFacts) {
    && ItemsInOrder(f) && ScanStateInSecurity(f.groups)
    && (forall name: GroupName :: GroupInOrder(f.groups.Get(name)))
    && StrictlySorted(f.capabilities, IdKey())
  }

  lemma InOrderIsMostly(f: RepositoryFacts)
    requires InOrder(f) && ItemsInOrder(f) && ScanStateInSecurity(f.groups)
    ensures MostlyInOrder(f)
  {}

  lemma FailedMostlyInOrder(f: RepositoryFacts, c: Collector, now: Instant)
    requires MostlyInOrder(f)
    ensures MostlyInOrder(Failed(f, c, now))
  {
    hide StrictlySorted, GroupInOrder;
  }

  lemma ExclusionIsContract(repository: Repository, c: Collector, now: Instant)
    requires c.factGroup.Some?
    ensures var f := ProfileExcluded(repository, PUBLIC, c, now).value; ItemsInOrder(f) && ScanStateInSecurity(f.groups)
  {
    hide Exclusion;
  }

  lemma CapabilitiesInOrder(states: seq<CapabilityStatus>, profile: Profile)
    ensures StrictlySorted(CapabilitiesFor(states, profile), CapabilityKey())
    ensures Sorted(CapabilitiesFor(states, profile), CapabilityKey())
  {
    var s := SortBy(states, CapabilityKey());
    var m := Index(s, CapabilityKey());
    IndexKeyed(s, CapabilityKey());
    ValuesSorted(m, CapabilityKey());
    var x := CapabilityStatus("sourcecraft", "unavailable",
                              "owner-authorized SourceCraft data is excluded from PUBLIC assessment");
    assert Keyed(m[["sourcecraft"] := x], CapabilityKey());
    ValuesSorted(m[["sourcecraft"] := x], CapabilityKey());
    StrictIsSorted(CapabilitiesFor(states, profile), CapabilityKey());
  }

  lemma ConcludedInOrder(f: RepositoryFacts, profile: Profile, states: seq<CapabilityStatus>)
    requires MostlyInOrder(f)
    ensures ScanStateInSecurity(Conclude(f, profile, states).groups)
    ensures InOrder(Conclude(f, profile, states)) <==>
              Sorted(f.statuses, StatusKey()) && Sorted(f.limitations, CodeKey())
  {
    hide CapabilitiesFor, SortedIds, UsedIds, Sorted, StrictlySorted, GroupInOrder;
    CapabilitiesInOrder(states, profile);
    SortedIdsElements(UsedIds(f));
  }

  lemma SuccessInOrder(repository: Repository, profile: Profile, f: RepositoryFacts, c: Collector, now: Instant)
    requires MostlyInOrder(f) && Succeeds(repository, profile, f, c, now)
    requires c.reply.Some? ==> ItemsInOrder(c.reply.value) && ScanStateInSecurity(c.reply.value.groups)
    ensures InOrder(CollectOne(repository, profile, f, c, now))
    ensures MostlyInOrder(CollectOne(repository, profile, f, c, now))
  {
    hide MergeUnchecked, Conflict, ItemsInOrder, InOrder, GroupInOrder, StrictlySorted, ProfileExcluded,
         ScanStateInSecurity, AnalyzerInputAccepts;
    var reply := Respond(repository, profile, c, now).value;
    SuccessMerges(repository, profile, f, c, now);
    if IsOwnerSource(c) && profile == PUBLIC {
      ExcludedNeedsGroup(repository, c, now);
      ExclusionIsContract(repository, c, now);
    }
    MergedFactsAccepted(f, reply);
    MergeKeepsItems(f, reply);
    MergeKeepsScanState(f, reply);
    InOrderIsMostly(MergeUnchecked(f, reply));
  }

  lemma ExcludedNeedsGroup(repository: Repository, c: Collector, now: Instant)
    ensures ProfileExcluded(repository, PUBLIC, c, now).Some? ==> c.factGroup.Some?
  {}

  lemma InitialInOrder(repository: Repository, profile: Profile, states: seq<CapabilityStatus>, now: Instant)
    ensures MostlyInOrder(Initial(repository, profile, states, now))
  {
    hide CapabilitiesFor;
  }

  lemma {:induction false} FoldMostlyInOrder(repository: Repository, profile: Profile, states: seq<CapabilityStatus>,
                                             cs: seq<Collector>, clock: nat -> Instant, k: nat)
    requires RepliesAreContracts(cs) && k <= |cs|
    ensures MostlyInOrder(Fold(repository, profile, states, cs, clock, k))
  {
    hide Failed, Initial, MostlyInOrder, Succeeds, ItemsInOrder, ScanStateInSecurity, Respond, Merge;
    if k == 0 {
      InitialInOrder(repository, profile, states, clock(0));
    } else {
      FoldMostlyInOrder(repository, profile, states, cs, clock, k - 1);
      var f := Fold(repository, profile, states, cs, clock, k - 1);
      if Succeeds(repository, profile, f, cs[k - 1], clock(k)) {
        SuccessInOrder(repository, profile, f, cs[k - 1], clock(k));
      } else {
        FailedMostlyInOrder(f, cs[k - 1], clock(k));
      }
    }
  }

  lemma SortedSnoc<T>(s: seq<T>, x: T, key: T -> Key)
    ensures Sorted(s + [x], key) <==> Sorted(s, key) && forall y :: y in s ==> !KeyLess(key(x), key(y))
  {
    var t := s + [x];
    if Sorted(t, key) {
      forall i, j | 0 <= i < j < |s| ensures !KeyLess(key(s[j]), key(s[i])) { assert t[i] == s[i] && t[j] == s[j]; }
      forall y | y in s ensures !KeyLess(key(x), key(y)) {
        var i :| 0 <= i < |s| && s[i] == y;
        assert t[i] == y && t[|s|] == x;
      }
    }
  }

  // What collector l leaves behind, given whether it succeeded: the source ids of its statuses and the codes of
  // its limitations.

  function LeftIds(repository: Repository, profile: Profile, c: Collector, now: Instant, success: bool): seq<string> {
    var reply := Respond(repository, profile, c, now);
    if success && reply.Some? then StatusIds(reply.value.statuses) else [c.sourceId]
  }

  function LeftCodes(repository: Repository, profile: Profile, c: Collector, now: Instant, success: bool): seq<string> {
    var reply := Respond(repository, profile, c, now);
    if success && reply.Some? then Codes(reply.value.limitations) else [FailureLimitation(c).code]
  }

  function Codes(items: seq<Limitation>): (codes: seq<string>)
    ensures |codes| == |items| && forall i :: 0 <= i < |codes| ==> codes[i] == items[i].code
  {
    seq(|items|, i requires 0 <= i < |items| => items[i].code)
  }

  /** The failure of c comes after everything that d left behind. */
  ghost predicate Follows(repository: Repository, profile: Profile, c: Collector, d: Collector, now: Instant,
                          success: bool) {
    && (forall id :: id in LeftIds(repository, profile, d, now, success) ==> !StrLess(c.sourceId, id))
    && (forall code :: code in LeftCodes(repository, profile, d, now, success) ==>
          !StrLess(FailureLimitation(c).code, code))
  }

  predicate NoSuccess(success: seq<bool>, i: nat, k: nat)
    requires k <= |success|
  {
    forall j :: i <= j < k ==> !success[j]
  }

  /** Every failure after the last success follows what all collectors before it left behind. */
  ghost predicate FailuresFollow(repository: Repository, profile: Profile, cs: seq<Collector>, clock: nat -> Instant,
                                 success: seq<bool>, k: nat)
    requires k <= |cs| == |success|
  {
    forall i, l :: 0 <= l < i < k && NoSuccess(success, i, k) ==>
      Follows(repository, profile, cs[i], cs[l], clock(l + 1), success[l])
  }

  /** success says which collectors succeed. */
  ghost predicate AreSuccesses(repository: Repository, profile: Profile, states: seq<CapabilityStatus>,
                               cs: seq<Collector>, clock: nat -> Instant, success: seq<bool>) {
    && |success| == |cs|
    && forall i :: 0 <= i < |cs| ==>
         success[i] == Succeeds(repository, profile, Fold(repository, profile, states, cs, clock, i), cs[i],
                                clock(i + 1))
  }

  /** Which collectors reply. */
  function Replies(repository: Repository, profile: Profile, cs: seq<Collector>,
                   clock: nat -> Instant): (replied: seq<bool>)
    ensures |replied| == |cs|
    ensures forall i :: 0 <= i < |cs| ==> replied[i] == Respond(repository, profile, cs[i], clock(i + 1)).Some?
  {
    seq(|cs|, i requires 0 <= i < |cs| => Respond(repository, profile, cs[i], clock(i + 1)).Some?)
  }

  ghost predicate ListsSorted(f: RepositoryFacts) {
    Sorted(f.statuses, StatusKey()) && Sorted(f.limitations, CodeKey())
  }

  /** c's failure follows everything the facts hold. */
  ghost predicate FollowsFacts(c: Collector, f: RepositoryFacts) {
    && (forall id :: id in StatusIds(f.statuses) ==> !StrLess(c.sourceId, id))
    && (forall code :: code in Codes(f.limitations) ==> !StrLess(FailureLimitation(c).code, code))
  }

  lemma InCodes(items: seq<Limitation>, code: string)
    ensures code in Codes(items) <==> exists l :: l in items && l.code == code
  {
    if code in Codes(items) {
      var i :| 0 <= i < |items| && Codes(items)[i] == code;
      assert items[i] in items;
    }
    if l :| l in items && l.code == code {
      var i :| 0 <= i < |items| && items[i] == l;
      assert Codes(items)[i] == code;
    }
  }

  lemma InStatusIds(statuses: seq<SourceStatus>, id: string)
    ensures id in StatusIds(statuses) <==> exists s :: s in statuses && s.sourceId == id
  {
    if id in StatusIds(statuses) {
      var i :| 0 <= i < |statuses| && StatusIds(statuses)[i] == id;
      assert statuses[i] in statuses;
    }
    if s :| s in statuses && s.sourceId == id {
      var i :| 0 <= i < |statuses| && statuses[i] == s;
      assert StatusIds(statuses)[i] == id;
    }
  }

  /** The codes of two lists together, canonicalised. */
  lemma MergedCodes(a: RepositoryFacts, b: RepositoryFacts, code: string)
    ensures code in Codes(MergeUnchecked(a, b).limitations) <==>
              code in Codes(a.limitations) || code in Codes(b.limitations)
  {
    hide Canon, MergeBy, MergeGroups, Codes;
    var m := MergeUnchecked(a, b).limitations;
    LimitationKeyInjective();
    CanonUnion(a.limitations, b.limitations, LimitationKey());
    InCodes(m, code);
    InCodes(a.limitations, code);
    InCodes(b.limitations, code);
  }

  lemma MergedIds(a: RepositoryFacts, b: RepositoryFacts, id: string)
    ensures id in StatusIds(MergeUnchecked(a, b).statuses) <==>
              id in StatusIds(a.statuses) || id in StatusIds(b.statuses)
  {
    hide Canon, MergeBy, MergeGroups, StatusIds;
    MergedStatusIds(a.statuses, b.statuses);
    assert id in StatusIds(a.statuses) + StatusIds(b.statuses) <==>
      id in StatusIds(a.statuses) || id in StatusIds(b.statuses);
  }

  lemma FailedLists(f: RepositoryFacts, c: Collector, now: Instant)
    ensures StatusIds(Failed(f, c, now).statuses) == StatusIds(f.statuses) + [c.sourceId]
    ensures Codes(Failed(f, c, now).limitations) == Codes(f.limitations) + [FailureLimitation(c).code]
  {
    hide FailureLimitation;
    FailedStatusIds(f, c, now);
  }

  /** A turn adds to the ids and codes exactly what the collector leaves behind. */
  lemma TurnLeaves(repository: Repository, profile: Profile, f: RepositoryFacts, c: Collector, now: Instant)
    ensures var g, success := CollectOne(repository, profile, f, c, now), Succeeds(repository, profile, f, c, now);
            && (forall id :: id in StatusIds(g.statuses) <==>
                  id in StatusIds(f.statuses) || id in LeftIds(repository, profile, c, now, success))
            && (forall code :: code in Codes(g.limitations) <==>
                  code in Codes(f.limitations) || code in LeftCodes(repository, profile, c, now, success))
  {
    hide Respond, MergeUnchecked, Conflict, StatusIds, Codes, Failed, FailureLimitation;
    if Succeeds(repository, profile, f, c, now) {
      SuccessMerges(repository, profile, f, c, now);
      var reply := Respond(repository, profile, c, now).value;
      forall id ensures id in StatusIds(MergeUnchecked(f, reply).statuses) <==>
                  id in StatusIds(f.statuses) || id in StatusIds(reply.statuses) { MergedIds(f, reply, id); }
      forall code ensures code in Codes(MergeUnchecked(f, reply).limitations) <==>
                  code in Codes(f.limitations) || code in Codes(reply.limitations) { MergedCodes(f, reply, code); }
    } else {
      FailedLists(f, c, now);
    }
  }

  lemma FollowsTurn(repository: Repository, profile: Profile, f: RepositoryFacts, d: Collector, now: Instant,
                    c: Collector)
    ensures FollowsFacts(c, CollectOne(repository, profile, f, d, now)) <==>
            FollowsFacts(c, f) && Follows(repository, profile, c, d, now, Succeeds(repository, profile, f, d, now))
  {
    hide CollectOne, LeftIds, LeftCodes, Codes, StatusIds, Succeeds, StrLess, FailureLimitation;
    TurnLeaves(repository, profile, f, d, now);
  }

  /** A failure follows the facts exactly when it follows what each earlier collector left behind. */
  lemma {:induction false} FollowsEach(repository: Repository, profile: Profile, states: seq<CapabilityStatus>,
                                       cs: seq<Collector>, clock: nat -> Instant, success: seq<bool>, k: nat,
                                       c: Collector)
    requires k <= |cs| == |success| && AreSuccesses(repository, profile, states, cs, clock, success)
    ensures FollowsFacts(c, Fold(repository, profile, states, cs, clock, k)) <==>
            forall l :: 0 <= l < k ==> Follows(repository, profile, c, cs[l], clock(l + 1), success[l])
  {
    hide CollectOne, Follows, Succeeds, FollowsFacts, Initial, Fold, AreSuccesses;
    FoldStep(repository, profile, states, cs, clock, k);
    if k == 0 {
      FollowsNothing(repository, profile, states, clock(0), c);
    } else {
      FollowsEach(repository, profile, states, cs, clock, success, k - 1, c);
      FollowsTurn(repository, profile, Fold(repository, profile, states, cs, clock, k - 1), cs[k - 1], clock(k), c);
      SuccessAt(repository, profile, states, cs, clock, success, k - 1);
    }
  }

  lemma FoldStep(repository: Repository, profile: Profile, states: seq<CapabilityStatus>, cs: seq<Collector>,
                 clock: nat -> Instant, k: nat)
    requires k <= |cs|
    ensures Fold(repository, profile, states, cs, clock, k) ==
              if k == 0 then Initial(repository, profile, states, clock(0))
              else CollectOne(repository, profile, Fold(repository, profile, states, cs, clock, k - 1), cs[k - 1],
                              clock(k))
  {
    hide CollectOne, Initial;
  }

  lemma SuccessAt(repository: Repository, profile: Profile, states: seq<CapabilityStatus>, cs: seq<Collector>,
                  clock: nat -> Instant, success: seq<bool>, i: nat)
    requires i < |cs| == |success| && AreSuccesses(repository, profile, states, cs, clock, success)
    ensures success[i] ==
              Succeeds(repository, profile, Fold(repository, profile, states, cs, clock, i), cs[i], clock(i + 1))
  {
    hide Succeeds, Fold;
  }

  lemma FollowsNothing(repository: Repository, profile: Profile, states: seq<CapabilityStatus>, now: Instant,
                       c: Collector)
    ensures FollowsFacts(c, Initial(repository, profile, states, now))
  {
    hide Initial, StrLess;
    NothingLeftYet(repository, profile, states, now);
  }

  lemma NothingLeftYet(repository: Repository, profile: Profile, states: seq<CapabilityStatus>, now: Instant)
    ensures StatusIds(Initial(repository, profile, states, now).statuses) == []
    ensures Codes(Initial(repository, profile, states, now).limitations) == []
    ensures ListsSorted(Initial(repository, profile, states, now))
  {
    NoLimitationsYet(repository, profile, states, now);
  }

  /** The lists stay sorted through a failure exactly when it follows what they hold. */
  lemma FailureKeepsSorted(f: RepositoryFacts, c: Collector, now: Instant)
    ensures ListsSorted(Failed(f, c, now)) <==> ListsSorted(f) && FollowsFacts(c, f)
  {
    hide Sorted, Failed, StrLess, StatusIds, Codes, FailureLimitation;
    AppendedInOrder(f, c, now);
    forall id ensures id in StatusIds(f.statuses) <==> exists s :: s in f.statuses && s.sourceId == id {
      InStatusIds(f.statuses, id);
    }
    forall code ensures code in Codes(f.limitations) <==> exists l :: l in f.limitations && l.code == code {
      InCodes(f.limitations, code);
    }
    assert forall s :: s in f.statuses ==> s.sourceId in StatusIds(f.statuses);
    assert forall l :: l in f.limitations ==> l.code in Codes(f.limitations);
  }

  lemma {:induction false} SortedWhenFailuresFollow(repository: Repository, profile: Profile,
                                                    states: seq<CapabilityStatus>, cs: seq<Collector>,
                                                    clock: nat -> Instant, success: seq<bool>, k: nat)
    requires RepliesAreContracts(cs) && k <= |cs| == |success|
    requires AreSuccesses(repository, profile, states, cs, clock, success)
    ensures ListsSorted(Fold(repository, profile, states, cs, clock, k)) <==>
            FailuresFollow(repository, profile, cs, clock, success, k)
  {
    hide ListsSorted, Follows, FollowsFacts, Initial, Succeeds, Failed, RepliesAreContracts, CollectOne, FailuresFollow,
         Fold, AreSuccesses;
    FoldStep(repository, profile, states, cs, clock, k);
    if k == 0 {
      NothingLeftYet(repository, profile, states, clock(0));
      NoneToFollow(repository, profile, cs, clock, success);
    } else {
      var f, c := Fold(repository, profile, states, cs, clock, k - 1), cs[k - 1];
      SortedWhenFailuresFollow(repository, profile, states, cs, clock, success, k - 1);
      SuccessAt(repository, profile, states, cs, clock, success, k - 1);
      if success[k - 1] {
        SuccessSorts(repository, profile, states, cs, clock, k);
        AfterSuccess(repository, profile, cs, clock, success, k);
      } else {
        FailureTurn(repository, profile, f, c, clock(k));
        FailureKeepsSorted(f, c, clock(k));
        FollowsEach(repository, profile, states, cs, clock, success, k - 1, c);
        OneMoreFailure(repository, profile, cs, clock, success, k);
      }
    }
  }

  lemma NoneToFollow(repository: Repository, profile: Profile, cs: seq<Collector>, clock: nat -> Instant,
                     success: seq<bool>)
    requires |cs| == |success|
    ensures FailuresFollow(repository, profile, cs, clock, success, 0)
  {}

  lemma SuccessSorts(repository: Repository, profile: Profile, states: seq<CapabilityStatus>, cs: seq<Collector>,
                     clock: nat -> Instant, k: nat)
    requires RepliesAreContracts(cs) && 0 < k <= |cs|
    requires Succeeds(repository, profile, Fold(repository, profile, states, cs, clock, k - 1), cs[k - 1], clock(k))
    ensures ListsSorted(Fold(repository, profile, states, cs, clock, k))
  {
    hide MostlyInOrder, InOrder, Succeeds, CollectOne, Sorted, ItemsInOrder, ScanStateInSecurity;
    FoldMostlyInOrder(repository, profile, states, cs, clock, k - 1);
    SuccessInOrder(repository, profile, Fold(repository, profile, states, cs, clock, k - 1), cs[k - 1], clock(k));
    InOrderLists(Fold(repository, profile, states, cs, clock, k));
  }

  lemma FailureTurn(repository: Repository, profile: Profile, f: RepositoryFacts, c: Collector, now: Instant)
    requires !Succeeds(repository, profile, f, c, now)
    ensures CollectOne(repository, profile, f, c, now) == Failed(f, c, now)
  {
    hide Succeeds, Failed;
  }

  lemma AfterSuccess(repository: Repository, profile: Profile, cs: seq<Collector>, clock: nat -> Instant,
                     success: seq<bool>, k: nat)
    requires 0 < k <= |cs| == |success| && success[k - 1]
    ensures FailuresFollow(repository, profile, cs, clock, success, k)
  {
    hide Follows;
  }

  /** With a failure at the end, one more collector has to follow. */
  lemma OneMoreFailure(repository: Repository, profile: Profile, cs: seq<Collector>, clock: nat -> Instant,
                       success: seq<bool>, k: nat)
    requires 0 < k <= |cs| == |success| && !success[k - 1]
    ensures FailuresFollow(repository, profile, cs, clock, success, k) <==>
              && FailuresFollow(repository, profile, cs, clock, success, k - 1)
              && forall l :: 0 <= l < k - 1 ==> Follows(repository, profile, cs[k - 1], cs[l], clock(l + 1), success[l])
  {
    hide Follows;
    forall i: nat | i < k ensures NoSuccess(success, i, k) <==> NoSuccess(success, i, k - 1) {}
  }

  /** The collected facts are accepted in the analyzer inputs exactly when every failure after the last success
      has a source id and a failure code that come after all ids and codes that the collectors before it left. */
  lemma DispatchNeedsFailuresToFollow(repository: Repository, profile: Profile, states: seq<CapabilityStatus>,
                                      cs: seq<Collector>, clock: nat -> Instant, success: seq<bool>)
    requires RepliesAreContracts(cs) && AreSuccesses(repository, profile, states, cs, clock, success)
    ensures AnalyzerInputAccepts(Conclude(Fold(repository, profile, states, cs, clock, |cs|), profile, states)) <==>
            FailuresFollow(repository, profile, cs, clock, success, |cs|)
  {
    hide MostlyInOrder, InOrder, Conclude, AnalyzerInputAccepts, FailuresFollow, Fold, Sorted, ScanStateInSecurity,
         AreSuccesses;
    assert |success| == |cs| by { LengthOfSuccesses(repository, profile, states, cs, clock, success); }
    var f := Fold(repository, profile, states, cs, clock, |cs|);
    FoldMostlyInOrder(repository, profile, states, cs, clock, |cs|);
    ConcludedInOrder(f, profile, states);
    AcceptedIffInOrder(Conclude(f, profile, states));
    SortedWhenFailuresFollow(repository, profile, states, cs, clock, success, |cs|);
  }

  lemma LengthOfSuccesses(repository: Repository, profile: Profile, states: seq<CapabilityStatus>, cs: seq<Collector>,
                          clock: nat -> Instant, success: seq<bool>)
    requires AreSuccesses(repository, profile, states, cs, clock, success)
    ensures |success| == |cs|
  {
    hide Succeeds, Fold;
  }

  /** As long as nothing at hand clashes, the condition is about the collectors and their replies alone. */
  lemma DispatchFromReplies(repository: Repository, profile: Profile, states: seq<CapabilityStatus>,
                            cs: seq<Collector>, clock: nat -> Instant)
    requires RepliesAreContracts(cs) && NoClash(repository, profile, cs, clock)
    ensures AnalyzerInputAccepts(Conclude(Fold(repository, profile, states, cs, clock, |cs|), profile, states)) <==>
            FailuresFollow(repository, profile, cs, clock, Replies(repository, profile, cs, clock), |cs|)
  {
    hide Conclude, AnalyzerInputAccepts, FailuresFollow, Fold, Succeeds, Respond, NoClash, RepliesAreContracts;
    var replied := Replies(repository, profile, cs, clock);
    forall k | 0 <= k < |cs|
      ensures replied[k] ==
                Succeeds(repository, profile, Fold(repository, profile, states, cs, clock, k), cs[k], clock(k + 1))
    {
      SuccessIsReply(repository, profile, states, cs, clock, k);
    }
    DispatchNeedsFailuresToFollow(repository, profile, states, cs, clock, replied);
  }

  lemma SingletonLess(a: string, b: string)
    ensures KeyLess([a], [b]) <==> StrLess(a, b)
  {
    StrTrichotomy(a, b);
  }

  lemma AppendedInOrder(f: RepositoryFacts, c: Collector, now: Instant)
    ensures Sorted(Failed(f, c, now).statuses, StatusKey()) <==>
              Sorted(f.statuses, StatusKey()) && forall s :: s in f.statuses ==> !StrLess(c.sourceId, s.sourceId)
    ensures Sorted(Failed(f, c, now).limitations, CodeKey()) <==>
              Sorted(f.limitations, CodeKey()) && forall l :: l in f.limitations ==>
                !StrLess(FailureLimitation(c).code, l.code)
  {
    hide Sorted, KeyLess, StrLess;
    var status := SourceStatus(c.sourceId, CollectionState.ERROR, None, None, Some(now), [FailureLimitation(c)]);
    SortedSnoc(f.statuses, status, StatusKey());
    SortedSnoc(f.limitations, FailureLimitation(c), CodeKey());
    forall s | s in f.statuses ensures KeyLess(StatusKey()(status), StatusKey()(s)) <==>
      StrLess(c.sourceId, s.sourceId) {
      SingletonLess(c.sourceId, s.sourceId);
    }
    forall l | l in f.limitations
      ensures KeyLess(CodeKey()(FailureLimitation(c)), CodeKey()(l)) <==> StrLess(FailureLimitation(c).code, l.code)
    {
      SingletonLess(FailureLimitation(c).code, l.code);
    }
  }

  lemma InOrderLists(f: RepositoryFacts)
    requires InOrder(f)
    ensures Sorted(f.statuses, StatusKey()) && Sorted(f.limitations, CodeKey())
  {}

  lemma NoConflictAtFirst(repository: Repository, now: Instant, z: Limitation)
    ensures !Conflict(Initial(repository, PUBLIC, [], now), EMPTY.(limitations := [z]))
  {
    hide CapabilitiesFor;
    var start, limited := Initial(repository, PUBLIC, [], now), EMPTY.(limitations := [z]);
    forall name: GroupName ensures !Mixed(start.groups.Get(name).limitations + limited.groups.Get(name).limitations) {}
  }

  lemma TwoInOrder(a: Collector, b: Collector)
    requires StrLess(a.sourceId, b.sourceId)
    ensures SortBy([a, b], SourceKey()) == [a, b]
  {
    hide SortBy;
    SingletonLess(b.sourceId, a.sourceId);
    StrTrichotomy(a.sourceId, b.sourceId);
    assert !KeyLess(SourceKey()([a, b][1]), SourceKey()([a, b][0]));
    SortByFixed([a, b], SourceKey());
  }

  /** An input for which dispatch fails: a source reports a limitation whose code sorts after the failure
      code of the next source, and that next source raises. */
  lemma UnsortedFailureBreaksDispatch(repository: Repository, clock: nat -> Instant)
    ensures var limited := EMPTY.(limitations := [Limitation("z", "bounded", None)]);
            var cs := [Collector("a", None, None, Some(limited)), Collector("b", None, None, None)];
            !AnalyzerInputAccepts(Collected(repository, PUBLIC, [], cs, clock))
  {
    hide Conclude, AnalyzerInputAccepts, SortBy, StrLess, FailuresFollow, Fold, AreSuccesses, RepliesAreContracts,
         Follows;
    var z := Limitation("z", "bounded", None);
    var a, b := Collector("a", None, None, Some(EMPTY.(limitations := [z]))), Collector("b", None, None, None);
    FirstCharacters();
    TwoInOrder(a, b);
    OneLimitation(a, b, z);
    NoConflictAtFirst(repository, clock(0), z);
    FirstSucceedsSecondFails(repository, [], a, b, clock);
    StaysBehind(repository, a, b, z, clock(1));
    OneStaysBehind(repository, PUBLIC, [a, b], clock, [true, false]);
    DispatchNeedsFailuresToFollow(repository, PUBLIC, [], [a, b], clock, [true, false]);
  }

  lemma FirstSucceedsSecondFails(repository: Repository, states: seq<CapabilityStatus>, a: Collector, b: Collector,
                                 clock: nat -> Instant)
    requires a.reply.Some? && b.reply.None? && !IsOwnerSource(a) && !IsOwnerSource(b)
    requires !Conflict(Initial(repository, PUBLIC, states, clock(0)), a.reply.value)
    ensures AreSuccesses(repository, PUBLIC, states, [a, b], clock, [true, false])
  {
    hide Initial, Conflict, MergeUnchecked, CollectOne;
    FoldStep(repository, PUBLIC, states, [a, b], clock, 0);
  }

  lemma OneLimitation(a: Collector, b: Collector, z: Limitation)
    requires a.reply == Some(EMPTY.(limitations := [z])) && b.reply.None?
    ensures RepliesAreContracts([a, b])
  {}

  lemma StaysBehind(repository: Repository, a: Collector, b: Collector, z: Limitation, now: Instant)
    requires a.reply == Some(EMPTY.(limitations := [z])) && !IsOwnerSource(a)
    requires b.sourceId == "b" && z.code == "z"
    ensures !Follows(repository, PUBLIC, b, a, now, true)
  {
    hide StrLess;
    FirstCharacters();
    assert Codes([z])[0] == "z" && "z" in LeftCodes(repository, PUBLIC, a, now, true);
    assert FailureLimitation(b).code == "b.collection_failed";
  }

  lemma FirstCharacters()
    ensures StrLess("a", "b") && StrLess("b.collection_failed", "z")
  {}

  lemma OneStaysBehind(repository: Repository, profile: Profile, cs: seq<Collector>, clock: nat -> Instant,
                       success: seq<bool>)
    requires |cs| == |success| == 2 && !success[1]
    requires !Follows(repository, profile, cs[1], cs[0], clock(1), success[0])
    ensures !FailuresFollow(repository, profile, cs, clock, success, 2)
  {
    hide Follows;
  }
}
