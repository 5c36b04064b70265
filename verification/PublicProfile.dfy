/** What a PUBLIC run keeps out: the replies of owner sources, and the sources themselves (collection/service.py). */
module PublicProfile {
  import opened Wrappers
  import opened Ordering
  import opened SortedDict
  import opened Timestamps
  import opened ResultStore
  import opened Facts
  import opened MergeAlgebra
  import opened FactsDigest
  import opened Collection

  /** The same collectors, except that owner sources may reply anything and the others may differ in provenance. */
  ghost predicate DifferInOwnerReplies(a: seq<Collector>, b: seq<Collector>) {
    && |a| == |b|
    && forall i :: 0 <= i < |a| ==>
         && a[i].sourceId == b[i].sourceId && a[i].provider == b[i].provider && a[i].factGroup == b[i].factGroup
         && (!IsOwnerSource(a[i]) ==> SameReply(a[i].reply, b[i].reply))
  }

  ghost predicate SameReply(a: Option<RepositoryFacts>, b: Option<RepositoryFacts>) {
    (a.None? <==> b.None?) && (a.Some? ==> Identity(a.value) == Identity(b.value))
  }

  lemma {:induction false} IndexOfMap<T>(s: seq<T>, f: T -> T, key: T -> Key)
    requires forall x :: x in s ==> key(f(x)) == key(x)
    ensures Index(MapSeq(s, f), key).Keys == Index(s, key).Keys
    ensures forall k :: k in Index(s, key) ==> Index(MapSeq(s, f), key)[k] == f(Index(s, key)[k])
  {
    if s != [] {
      var front := s[..|s| - 1];
      IndexOfMap(front, f, key);
      assert MapSeq(s, f)[..|s| - 1] == MapSeq(front, f);
    }
  }

  lemma {:induction false} ValuesOfMap<T>(m: map<Key, T>, n: map<Key, T>, f: T -> T)
    requires m.Keys == n.Keys && forall k :: k in m ==> n[k] == f(m[k])
    ensures Values(n) == MapSeq(Values(m), f)
    decreases m.Keys
  {
    if m.Keys != {} {
      var k := MinKey(m.Keys);
      ValuesOfMap(m - {k}, n - {k}, f);
    }
  }

  lemma StatusesMergeModuloProvenance(a: seq<SourceStatus>, b: seq<SourceStatus>)
    ensures MapSeq(MergeBy(a, b, StatusKey()), WithoutProvenance)
         == MergeBy(MapSeq(a, WithoutProvenance), MapSeq(b, WithoutProvenance), StatusKey())
  {
    IndexOfMap(a, WithoutProvenance, StatusKey());
    IndexOfMap(b, WithoutProvenance, StatusKey());
    ValuesOfMap(Index(a, StatusKey()) + Index(b, StatusKey()),
                Index(MapSeq(a, WithoutProvenance), StatusKey()) + Index(MapSeq(b, WithoutProvenance), StatusKey()),
                WithoutProvenance);
  }

  lemma StatusIdsModuloProvenance(s: seq<SourceStatus>)
    ensures StatusIds(MapSeq(s, WithoutProvenance)) == StatusIds(s)
  {}

  /** Merging looks at no provenance. */
  lemma MergeModuloProvenance(a: RepositoryFacts, b: RepositoryFacts)
    ensures Identity(MergeUnchecked(a, b)) == MergeUnchecked(Identity(a), Identity(b))
    ensures Conflict(a, b) == Conflict(Identity(a), Identity(b))
  {
    hide MergeBy, Canon, MergeGroups, StatusIds, MapSeq, Mixed;
    StatusesMergeModuloProvenance(a.statuses, b.statuses);
    StatusIdsModuloProvenance(MergeBy(a.statuses, b.statuses, StatusKey()));
  }

  lemma AppendModuloProvenance(s: seq<SourceStatus>, x: SourceStatus)
    ensures MapSeq(s + [x], WithoutProvenance) == MapSeq(s, WithoutProvenance) + [WithoutProvenance(x)]
  {}

  lemma FailedModuloProvenance(f: RepositoryFacts, g: RepositoryFacts, c: Collector, d: Collector, now: Instant,
                               later: Instant)
    requires Identity(f) == Identity(g) && c.sourceId == d.sourceId
    ensures Identity(Failed(f, c, now)) == Identity(Failed(g, d, later))
  {
    hide MapSeq;
    AppendModuloProvenance(f.statuses, SourceStatus(c.sourceId, CollectionState.ERROR, None, None, Some(now),
                                                    [FailureLimitation(c)]));
    AppendModuloProvenance(g.statuses, SourceStatus(d.sourceId, CollectionState.ERROR, None, None, Some(later),
                                                    [FailureLimitation(d)]));
  }

  lemma ResponsesModuloProvenance(repository: Repository, c: Collector, d: Collector, now: Instant, later: Instant)
    requires c.sourceId == d.sourceId && c.provider == d.provider && c.factGroup == d.factGroup
    requires !IsOwnerSource(c) ==> SameReply(c.reply, d.reply)
    ensures SameReply(Respond(repository, PUBLIC, c, now), Respond(repository, PUBLIC, d, later))
  {
    if IsOwnerSource(c) && c.factGroup.Some? {
      var x, y := ExcludedStatus(c.sourceId, c.factGroup.value, now),
          ExcludedStatus(c.sourceId, c.factGroup.value, later);
      assert MapSeq([x], WithoutProvenance) == [WithoutProvenance(x)] == MapSeq([y], WithoutProvenance);
    }
  }

  lemma CollectOneModuloProvenance(repository: Repository, f: RepositoryFacts, g: RepositoryFacts,
                                   c: Collector, d: Collector, now: Instant, later: Instant)
    requires Identity(f) == Identity(g)
    requires c.sourceId == d.sourceId && c.provider == d.provider && c.factGroup == d.factGroup
    requires !IsOwnerSource(c) ==> SameReply(c.reply, d.reply)
    ensures Identity(CollectOne(repository, PUBLIC, f, c, now)) == Identity(CollectOne(repository, PUBLIC, g, d, later))
  {
    hide Identity, MergeUnchecked, Conflict, Respond, Failed;
    ResponsesModuloProvenance(repository, c, d, now, later);
    FailedModuloProvenance(f, g, c, d, now, later);
    var x, y := Respond(repository, PUBLIC, c, now), Respond(repository, PUBLIC, d, later);
    if x.Some? {
      MergeModuloProvenance(f, x.value);
      MergeModuloProvenance(g, y.value);
    }
  }

  lemma {:induction false} FoldModuloProvenance(repository: Repository, states: seq<CapabilityStatus>,
                                                a: seq<Collector>, b: seq<Collector>, clock: nat -> Instant,
                                                other: nat -> Instant, k: nat)
    requires DifferInOwnerReplies(a, b) && k <= |a|
    ensures Identity(Fold(repository, PUBLIC, states, a, clock, k)) ==
              Identity(Fold(repository, PUBLIC, states, b, other, k))
  {
    hide CollectOne, CapabilitiesFor;
    if k > 0 {
      FoldModuloProvenance(repository, states, a, b, clock, other, k - 1);
      CollectOneModuloProvenance(repository, Fold(repository, PUBLIC, states, a, clock, k - 1),
                                 Fold(repository, PUBLIC, states, b, other, k - 1), a[k - 1], b[k - 1], clock(k),
                                 other(k));
    }
  }

  lemma ExcludedModuloProvenance(s: seq<SourceStatus>, t: seq<SourceStatus>)
    requires MapSeq(s, WithoutProvenance) == MapSeq(t, WithoutProvenance)
    ensures ExcludedIds(s) == ExcludedIds(t)
  {
    assert |s| == |MapSeq(s, WithoutProvenance)| == |t|;
    forall i | 0 <= i < |s| ensures s[i].sourceId == t[i].sourceId && s[i].limitations == t[i].limitations {
      assert MapSeq(s, WithoutProvenance)[i] == MapSeq(t, WithoutProvenance)[i];
    }
  }

  lemma ConcludeModuloProvenance(f: RepositoryFacts, g: RepositoryFacts, states: seq<CapabilityStatus>)
    requires Identity(f) == Identity(g)
    ensures Identity(Conclude(f, PUBLIC, states)) == Identity(Conclude(g, PUBLIC, states))
  {
    hide MapSeq, CapabilitiesFor, SortedIds, ExcludedIds, StatusIds;
    ExcludedModuloProvenance(f.statuses, g.statuses);
    StatusIdsModuloProvenance(f.statuses);
    StatusIdsModuloProvenance(g.statuses);
  }

  lemma IdentityFixesDigest(f: RepositoryFacts, g: RepositoryFacts)
    requires Identity(f) == Identity(g)
    ensures DigestPayload(f) == DigestPayload(g)
  {
    hide MapSeq;
    PayloadStatuses(f.statuses, g.statuses);
  }

  lemma {:induction false} InsertPaired(c: Collector, d: Collector, a: seq<Collector>, b: seq<Collector>)
    requires DifferInOwnerReplies([c], [d]) && DifferInOwnerReplies(a, b)
    ensures DifferInOwnerReplies(Insert(c, a, SourceKey()), Insert(d, b, SourceKey()))
  {
    hide SameReply, IsOwnerSource;
    assert [c][0] == c && [d][0] == d;
    if a != [] && KeyLess(SourceKey()(a[0]), SourceKey()(c)) {
      InsertPaired(c, d, a[1..], b[1..]);
    }
  }

  lemma {:induction false} SortPaired(a: seq<Collector>, b: seq<Collector>)
    requires DifferInOwnerReplies(a, b)
    ensures DifferInOwnerReplies(SortBy(a, SourceKey()), SortBy(b, SourceKey()))
  {
    if a != [] {
      SortPaired(a[1..], b[1..]);
      InsertPaired(a[0], b[0], SortBy(a[1..], SourceKey()), SortBy(b[1..], SourceKey()));
    }
  }

  /** PUBLIC non-interference: two runs at any times that differ only in what the owner sources would
      return give facts that differ in provenance at most, hence the same digest. */
  lemma PublicNonInterference(repository: Repository, states: seq<CapabilityStatus>, a: seq<Collector>,
                              b: seq<Collector>, clock: nat -> Instant, other: nat -> Instant)
    requires DifferInOwnerReplies(a, b)
    ensures var x, y := Collected(repository, PUBLIC, states, a, clock),
        Collected(repository, PUBLIC, states, b, other);
            Identity(x) == Identity(y) && DigestPayload(x) == DigestPayload(y)
  {
    hide Fold, Conclude, Identity, DigestPayload;
    var cs, ds := SortBy(a, SourceKey()), SortBy(b, SourceKey());
    SortPaired(a, b);
    FoldModuloProvenance(repository, states, cs, ds, clock, other, |cs|);
    var f, g := Fold(repository, PUBLIC, states, cs, clock, |cs|), Fold(repository, PUBLIC, states, ds, other, |ds|);
    ConcludeModuloProvenance(f, g, states);
    IdentityFixesDigest(Conclude(f, PUBLIC, states), Conclude(g, PUBLIC, states));
  }

  /** The facts hold a status for the source id, and all its statuses are profile exclusions, or none is. */
  ghost predicate AllMarked(f: RepositoryFacts, id: string, excluded: bool) {
    && id in StatusIds(f.statuses)
    && forall s :: s in f.statuses && s.sourceId == id ==> MarkedExcluded(s) == excluded
  }

  lemma MergeExcludes(a: RepositoryFacts, b: RepositoryFacts, x: SourceStatus)
    requires b.statuses == [x] && MarkedExcluded(x)
    ensures AllMarked(MergeUnchecked(a, b), x.sourceId, true)
  {
    hide StatusIds, MarkedExcluded, MergeBy, Index;
    var merged := MergeBy(a.statuses, [x], StatusKey());
    KeyOfId(merged, x.sourceId);
    IndexOfMerge(a.statuses, [x], StatusKey());
    IndexOfOne(x, StatusKey());
    forall s | s in merged && s.sourceId == x.sourceId ensures s == x { OnlyStatus(a.statuses, x, s); }
  }

  /** In a merge the right side's status for an id is the only one. */
  lemma OnlyStatus(statuses: seq<SourceStatus>, x: SourceStatus, s: SourceStatus)
    requires s in MergeBy(statuses, [x], StatusKey()) && s.sourceId == x.sourceId
    ensures s == x
  {
    hide Index, Values;
    IndexOfOne(x, StatusKey());
    var m := Index(statuses, StatusKey()) + Index([x], StatusKey());
    IndexKeyed(statuses, StatusKey());
    ValuesElements(m);
    var k :| k in m && m[k] == s;
    assert StatusKey()(m[k]) == k == [x.sourceId];
  }

  /** Merging facts that say nothing about an id keeps what is said about it. */
  lemma MergeKeepsMark(a: RepositoryFacts, b: RepositoryFacts, id: string, excluded: bool)
    requires id !in StatusIds(b.statuses)
    ensures AllMarked(a, id, excluded) ==> AllMarked(MergeUnchecked(a, b), id, excluded)
    ensures id !in StatusIds(a.statuses) ==> id !in StatusIds(MergeUnchecked(a, b).statuses)
  {
    hide MarkedExcluded, MergeBy;
    MergedStatusIds(a.statuses, b.statuses);
    MergeByElements(a.statuses, b.statuses, StatusKey());
    assert id in StatusIds(a.statuses) + StatusIds(b.statuses) <==> id in StatusIds(a.statuses);
    forall s | s in b.statuses ensures s.sourceId != id {
      var i :| 0 <= i < |b.statuses| && b.statuses[i] == s;
      assert StatusIds(b.statuses)[i] == s.sourceId;
    }
  }

  lemma FailureKeepsMark(f: RepositoryFacts, c: Collector, now: Instant, id: string, excluded: bool)
    requires c.sourceId != id
    ensures AllMarked(f, id, excluded) ==> AllMarked(Failed(f, c, now), id, excluded)
    ensures id !in StatusIds(f.statuses) ==> id !in StatusIds(Failed(f, c, now).statuses)
  {
    hide MarkedExcluded, StatusIds;
    FailedStatusIds(f, c, now);
  }

  /** A failure's own status is no exclusion. */
  lemma FailureIsUnmarked(f: RepositoryFacts, c: Collector, now: Instant)
    requires c.sourceId !in StatusIds(f.statuses)
    ensures AllMarked(Failed(f, c, now), c.sourceId, false)
  {
    FailedStatusIds(f, c, now);
    forall s | s in f.statuses ensures s.sourceId != c.sourceId {
      var i :| 0 <= i < |f.statuses| && f.statuses[i] == s;
      assert StatusIds(f.statuses)[i] == s.sourceId;
    }
    var code := FailureLimitation(c).code;
    assert code[|code| - 2] == 'e' && code[|code| - 3] == 'l' && EXCLUDED_CODE[|EXCLUDED_CODE| - 3] == 'd';
  }

  /** No other collector that a PUBLIC run reads reports a status under the id of collector i. */
  ghost predicate OwnsItsId(cs: seq<Collector>, i: nat)
    requires i < |cs|
  {
    forall j :: 0 <= j < |cs| && j != i ==>
      && cs[j].sourceId != cs[i].sourceId
      && (!IsOwnerSource(cs[j]) && cs[j].reply.Some? ==> cs[i].sourceId !in StatusIds(cs[j].reply.value.statuses))
  }

  lemma OthersSayNothing(repository: Repository, cs: seq<Collector>, i: nat, j: nat, now: Instant)
    requires i < |cs| && j < |cs| && i != j && OwnsItsId(cs, i)
    ensures cs[j].sourceId != cs[i].sourceId
    ensures var reply := Respond(repository, PUBLIC, cs[j], now);
            reply.Some? ==> cs[i].sourceId !in StatusIds(reply.value.statuses)
  {
    hide Exclusion;
  }

  /** Another collector's turn, successful or not, leaves what is said about collector i's id. */
  lemma TurnKeepsMark(repository: Repository, f: RepositoryFacts, cs: seq<Collector>, i: nat, j: nat, now: Instant,
                      excluded: bool)
    requires i < |cs| && j < |cs| && i != j && OwnsItsId(cs, i)
    ensures var g, id := CollectOne(repository, PUBLIC, f, cs[j], now), cs[i].sourceId;
            && (AllMarked(f, id, excluded) ==> AllMarked(g, id, excluded))
            && (id !in StatusIds(f.statuses) ==> id !in StatusIds(g.statuses))
  {
    hide MergeUnchecked, Conflict, AllMarked, Failed, Respond, OwnsItsId, StatusIds;
    OthersSayNothing(repository, cs, i, j, now);
    if Succeeds(repository, PUBLIC, f, cs[j], now) {
      SuccessMerges(repository, PUBLIC, f, cs[j], now);
      MergeKeepsMark(f, Respond(repository, PUBLIC, cs[j], now).value, cs[i].sourceId, excluded);
    } else {
      FailureKeepsMark(f, cs[j], now, cs[i].sourceId, excluded);
    }
  }

  /** Collector i's own turn marks its id as excluded, or as failed. */
  lemma OwnTurnMarks(repository: Repository, f: RepositoryFacts, c: Collector, now: Instant)
    requires IsOwnerSource(c) && c.sourceId !in StatusIds(f.statuses)
    ensures AllMarked(CollectOne(repository, PUBLIC, f, c, now), c.sourceId, Succeeds(repository, PUBLIC, f, c, now))
  {
    hide MergeUnchecked, Conflict, AllMarked, MarkedExcluded, Failed, With, StatusIds;
    if Succeeds(repository, PUBLIC, f, c, now) {
      SuccessMerges(repository, PUBLIC, f, c, now);
      ExclusionIsMarked(c.sourceId, c.factGroup.value, now);
      MergeExcludes(f, Respond(repository, PUBLIC, c, now).value, ExcludedStatus(c.sourceId, c.factGroup.value, now));
    } else {
      FailureIsUnmarked(f, c, now);
    }
  }

  lemma {:induction false} MarkLasts(repository: Repository, states: seq<CapabilityStatus>, cs: seq<Collector>,
                                     clock: nat -> Instant, i: nat, k: nat)
    requires i < |cs| && k <= |cs| && OwnsItsId(cs, i) && IsOwnerSource(cs[i])
    ensures var f, id := Fold(repository, PUBLIC, states, cs, clock, k), cs[i].sourceId;
            if k <= i then id !in StatusIds(f.statuses)
            else AllMarked(f, id, Succeeds(repository, PUBLIC, Fold(repository, PUBLIC, states, cs, clock, i), cs[i],
                                           clock(i + 1)))
  {
    hide CollectOne, Succeeds, AllMarked, OwnsItsId;
    if k == 0 {
      NothingYet(repository, states, clock(0));
    } else {
      MarkLasts(repository, states, cs, clock, i, k - 1);
      var f := Fold(repository, PUBLIC, states, cs, clock, k - 1);
      if k == i + 1 {
        OwnTurnMarks(repository, f, cs[i], clock(k));
      } else {
        TurnKeepsMark(repository, f, cs, i, k - 1, clock(k), true);
        TurnKeepsMark(repository, f, cs, i, k - 1, clock(k), false);
      }
    }
  }

  lemma NothingYet(repository: Repository, states: seq<CapabilityStatus>, now: Instant)
    ensures StatusIds(Initial(repository, PUBLIC, states, now).statuses) == []
  {
    hide CapabilitiesFor;
  }

  lemma ExclusionIsMarked(id: string, name: GroupName, now: Instant)
    ensures MarkedExcluded(ExcludedStatus(id, name, now))
  {
    assert ExcludedStatus(id, name, now).limitations[0].code == EXCLUDED_CODE;
  }

  /** An owner source of a PUBLIC run is absent from the used sources exactly when excluding it succeeded;
      if the exclusion itself raises, the source is listed as a failed one. */
  lemma ExcludedSourceUnused(repository: Repository, states: seq<CapabilityStatus>, cs: seq<Collector>,
                             clock: nat -> Instant, i: nat)
    requires i < |cs| && OwnsItsId(cs, i) && IsOwnerSource(cs[i])
    ensures cs[i].sourceId !in Conclude(Fold(repository, PUBLIC, states, cs, clock, |cs|), PUBLIC,
                                        states).usedSources <==>
            Succeeds(repository, PUBLIC, Fold(repository, PUBLIC, states, cs, clock, i), cs[i], clock(i + 1))
  {
    hide Fold, Succeeds, CapabilitiesFor, MarkedExcluded, SortedIds;
    MarkLasts(repository, states, cs, clock, i, |cs|);
    var f := Fold(repository, PUBLIC, states, cs, clock, |cs|);
    var n :| 0 <= n < |f.statuses| && StatusIds(f.statuses)[n] == cs[i].sourceId;
    assert f.statuses[n] in f.statuses;
    SortedIdsElements(UsedIds(f));
  }

  /** So, as long as nothing at hand clashes, an owner source of a PUBLIC run is absent from the used sources
      exactly when it names a known fact group. */
  lemma KnownGroupIsUnused(repository: Repository, states: seq<CapabilityStatus>, cs: seq<Collector>,
                           clock: nat -> Instant, i: nat)
    requires i < |cs| && OwnsItsId(cs, i) && IsOwnerSource(cs[i]) && NoClash(repository, PUBLIC, cs, clock)
    ensures cs[i].sourceId !in Conclude(Fold(repository, PUBLIC, states, cs, clock, |cs|), PUBLIC,
                                        states).usedSources <==>
            cs[i].factGroup.Some?
  {
    hide Fold, Conclude, Succeeds, NoClash, OwnsItsId;
    ExcludedSourceUnused(repository, states, cs, clock, i);
    SuccessIsReply(repository, PUBLIC, states, cs, clock, i);
  }

  /** An input on which an excluded source is listed as used: it names no fact group. */
  lemma UnknownGroupIsListed(repository: Repository, states: seq<CapabilityStatus>, clock: nat -> Instant)
    ensures "sc" in Collected(repository, PUBLIC, states, [Collector("sc", Some("sourcecraft"), None, None)],
                              clock).usedSources
  {
    hide Conclude, CapabilitiesFor, MergeUnchecked;
    var cs := [Collector("sc", Some("sourcecraft"), None, None)];
    SortByFixed(cs, SourceKey());
    ExcludedSourceUnused(repository, states, cs, clock, 0);
  }
}
