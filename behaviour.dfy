/**
 * Per-cycle combat behaviours of a subject: LookAround reconciles the
 * subject's stored visible-opponent ids with what the visibility mechanism
 * reports this cycle, EngageOpponent picks a visible target, fires and
 * possibly kills it. The visibility mechanism's output is a sequence of
 * (id, position) records supplied by the caller; random draws are
 * parameters; the placement-mode flag is a parameter that disables `run`.
 */
module Behaviour {
  import opened Wrappers

  type SubjectId = int

  datatype Position = Position(x: int, y: int)

  /** One entry of the visibility mechanism's `visible_subjects` list. */
  datatype VisibleSubject = VisibleSubject(id: SubjectId, position: Position)

  datatype Event =
    | NewVisibleOpponent(observerSubjectId: SubjectId, observedSubjectId: SubjectId)
    | NoLongerVisibleOpponent(observerSubjectId: SubjectId, observedSubjectId: SubjectId)
    | FireEvent(shooterSubjectId: SubjectId, targetPosition: Position)
    | DieEvent(shooterSubjectId: SubjectId, shootSubjectId: SubjectId)

  /** Name of the collection that holds the living subjects. */
  const CollectionAlive: string := "ALIVE"

  /** A simulated actor, as far as the behaviours read and write it. */
  class Subject {
    const id: SubjectId
    var position: Position
    var visibleOpponentIds: seq<SubjectId>
    var collections: set<string>

    constructor (id: SubjectId, position: Position, collections: set<string>)
      ensures this.id == id && this.position == position
      ensures visibleOpponentIds == [] && this.collections == collections
    {
      this.id := id;
      this.position := position;
      this.visibleOpponentIds := [];
      this.collections := collections;
    }
  }

  // ---------------------------------------------------------------------
  // Sequence vocabulary: filters, Python's list.remove, subsequences

  /** The ids of the visible subjects, in mechanism order. */
  function Ids(visible: seq<VisibleSubject>): (r: seq<SubjectId>)
    ensures |r| == |visible|
    ensures forall i :: 0 <= i < |visible| ==> r[i] == visible[i].id
  {
    seq(|visible|, i requires 0 <= i < |visible| => visible[i].id)
  }

  /** `a` is obtained from `b` by deleting elements. */
  predicate IsSubsequence(a: seq<SubjectId>, b: seq<SubjectId>)
    decreases |b|
  {
    if a == [] then true
    else if b == [] then false
    else (a[0] == b[0] && IsSubsequence(a[1..], b[1..])) || IsSubsequence(a, b[1..])
  }

  /** No id occurs twice. */
  ghost predicate NoDuplicates(s: seq<SubjectId>)
  {
    forall x :: multiset(s)[x] <= 1
  }

  /** The elements of `s` that do not occur in `excluded`, in the order of `s`. */
  function Without(s: seq<SubjectId>, excluded: seq<SubjectId>): seq<SubjectId>
  {
    if s == [] then []
    else if s[0] in excluded then Without(s[1..], excluded)
    else [s[0]] + Without(s[1..], excluded)
  }

  /** The elements of `s` that occur in `included`, in the order of `s`. */
  function Keep(s: seq<SubjectId>, included: seq<SubjectId>): seq<SubjectId>
  {
    if s == [] then []
    else if s[0] in included then [s[0]] + Keep(s[1..], included)
    else Keep(s[1..], included)
  }

  /** `Without` keeps every occurrence of an id outside `excluded` and none inside. */
  lemma {:induction false} WithoutCounts(s: seq<SubjectId>, excluded: seq<SubjectId>)
    ensures forall x :: multiset(Without(s, excluded))[x] == if x in excluded then 0 else multiset(s)[x]
    ensures multiset(Without(s, excluded)) <= multiset(s)
  {
    if s != [] {
      assert s == [s[0]] + s[1..];
      WithoutCounts(s[1..], excluded);
    }
  }

  /** `Keep` keeps every occurrence of an id inside `included` and none outside. */
  lemma {:induction false} KeepCounts(s: seq<SubjectId>, included: seq<SubjectId>)
    ensures forall x :: multiset(Keep(s, included))[x] == if x in included then multiset(s)[x] else 0
  {
    if s != [] {
      assert s == [s[0]] + s[1..];
      KeepCounts(s[1..], included);
    }
  }

  /** `Without` and `Keep` only delete elements: their order is that of `s`. */
  lemma {:induction false} FiltersAreSubsequences(s: seq<SubjectId>, e: seq<SubjectId>)
    ensures IsSubsequence(Without(s, e), s)
    ensures IsSubsequence(Keep(s, e), s)
  {
    if s != [] {
      FiltersAreSubsequences(s[1..], e);
      var w, k := Without(s[1..], e), Keep(s[1..], e);
      assert ([s[0]] + w)[1..] == w;
      assert ([s[0]] + k)[1..] == k;
      if w != [] { assert IsSubsequence(w, s); }
      if k != [] { assert IsSubsequence(k, s); }
    }
  }

  lemma {:induction false} WithoutSnoc(s: seq<SubjectId>, x: SubjectId, excluded: seq<SubjectId>)
    ensures Without(s + [x], excluded) == Without(s, excluded) + (if x in excluded then [] else [x])
  {
    if s == [] {
      assert s + [x] == [x];
    } else {
      assert (s + [x])[1..] == s[1..] + [x];
      WithoutSnoc(s[1..], x, excluded);
    }
  }

  /** Python's `list.remove`: drops the first occurrence of `x`. */
  function RemoveFirst(s: seq<SubjectId>, x: SubjectId): (r: seq<SubjectId>)
    ensures x in s ==> multiset(r) == multiset(s) - multiset{x}
    ensures x !in s ==> r == s
  {
    if s == [] then []
    else if s[0] == x then
      assert s == [x] + s[1..];
      s[1..]
    else
      assert s == [s[0]] + s[1..];
      [s[0]] + RemoveFirst(s[1..], x)
  }

  /** Position of the first occurrence of `x` in `s`. */
  function FirstIndexOf(s: seq<SubjectId>, x: SubjectId): (k: nat)
    requires x in s
    ensures k < |s| && s[k] == x
  {
    if s[0] == x then 0 else 1 + FirstIndexOf(s[1..], x)
  }

  /** The prefix before the first occurrence of `x` does not hold `x`. */
  lemma {:induction false} BeforeFirstIndexOf(s: seq<SubjectId>, x: SubjectId)
    requires x in s
    ensures x !in s[..FirstIndexOf(s, x)]
  {
    if s[0] != x {
      var t := s[1..];
      BeforeFirstIndexOf(t, x);
      assert s[..FirstIndexOf(s, x)] == [s[0]] + t[..FirstIndexOf(t, x)];
    }
  }

  /** Dropping element k of the tail of `s` is dropping element k + 1 of `s`. */
  lemma DropAfterHead(s: seq<SubjectId>, k: nat)
    requires k + 1 < |s|
    ensures [s[0]] + (s[1..][..k] + s[1..][k + 1..]) == s[..k + 1] + s[k + 2..]
  {
    assert s[..k + 1] == [s[0]] + s[1..][..k];
    assert s[k + 2..] == s[1..][k + 1..];
  }

  /**
   * The occurrence `RemoveFirst` drops is the first one (the prefix before
   * it does not hold `x`, by `BeforeFirstIndexOf`): the rest of the list is
   * kept in order around it.
   */
  lemma {:induction false} RemoveFirstDropsFirstOccurrence(s: seq<SubjectId>, x: SubjectId)
    requires x in s
    ensures RemoveFirst(s, x) == s[..FirstIndexOf(s, x)] + s[FirstIndexOf(s, x) + 1..]
  {
    if s[0] == x {
      assert s[..0] == [];
    } else {
      var k := FirstIndexOf(s[1..], x);
      RemoveFirstDropsFirstOccurrence(s[1..], x);
      assert RemoveFirst(s, x) == [s[0]] + (s[1..][..k] + s[1..][k + 1..]);
      DropAfterHead(s, k);
    }
  }

  /** `list.remove` applied to each element of `xs`, in order. */
  function RemoveEach(s: seq<SubjectId>, xs: seq<SubjectId>): (r: seq<SubjectId>)
    decreases |xs|
  {
    if xs == [] then s else RemoveEach(RemoveFirst(s, xs[0]), xs[1..])
  }

  /** When every id to remove is present, exactly those occurrences leave the list. */
  lemma {:induction false} RemoveEachCounts(s: seq<SubjectId>, xs: seq<SubjectId>)
    requires multiset(xs) <= multiset(s)
    ensures multiset(RemoveEach(s, xs)) == multiset(s) - multiset(xs)
    decreases |xs|
  {
    if xs != [] {
      assert xs == [xs[0]] + xs[1..];
      assert xs[0] in multiset(s);
      RemoveEachCounts(RemoveFirst(s, xs[0]), xs[1..]);
    }
  }

  /** Removing ids that are not `x` leaves a leading `x` in front. */
  lemma {:induction false} RemoveEachSkipsHead(x: SubjectId, t: seq<SubjectId>, xs: seq<SubjectId>)
    requires x !in xs
    ensures RemoveEach([x] + t, xs) == [x] + RemoveEach(t, xs)
    decreases |xs|
  {
    if xs != [] {
      assert ([x] + t)[1..] == t;
      assert RemoveFirst([x] + t, xs[0]) == [x] + RemoveFirst(t, xs[0]);
      RemoveEachSkipsHead(x, RemoveFirst(t, xs[0]), xs[1..]);
    }
  }

  /**
   * Removing, one by one, the elements of `s` that are not in `e` leaves
   * exactly the elements of `s` that are in `e`, in their original order.
   */
  lemma {:induction false} RemoveEachWithout(s: seq<SubjectId>, e: seq<SubjectId>)
    ensures RemoveEach(s, Without(s, e)) == Keep(s, e)
  {
    if s != [] {
      var x, t := s[0], s[1..];
      assert s == [x] + t;
      RemoveEachWithout(t, e);
      if x in e {
        WithoutCounts(t, e);
        assert multiset(Without(t, e))[x] == 0;
        RemoveEachSkipsHead(x, t, Without(t, e));
      } else {
        var w := [x] + Without(t, e);
        assert w[0] == x && w[1..] == Without(t, e);
      }
    }
  }

  // ---------------------------------------------------------------------
  // LookAroundBehaviour

  /** What `LookAroundBehaviour.run` hands to `action`. */
  datatype LookAroundDecision = LookAroundDecision(
    newVisibleSubjectIds: seq<SubjectId>,
    noLongerVisibleSubjectIds: seq<SubjectId>)

  /** The diff `run` computes between the stored ids and this cycle's visible subjects. */
  function LookAroundDiff(stored: seq<SubjectId>, visible: seq<VisibleSubject>): LookAroundDecision
  {
    LookAroundDecision(Without(Ids(visible), stored), Without(stored, Ids(visible)))
  }

  /** The events `action` returns: all newly-visible events, then all no-longer-visible ones. */
  function LookAroundEvents(observer: SubjectId, d: LookAroundDecision): (r: seq<Event>)
    ensures |r| == |d.newVisibleSubjectIds| + |d.noLongerVisibleSubjectIds|
    ensures forall i :: 0 <= i < |d.newVisibleSubjectIds| ==>
      r[i] == NewVisibleOpponent(observer, d.newVisibleSubjectIds[i])
    ensures forall i :: 0 <= i < |d.noLongerVisibleSubjectIds| ==>
      r[|d.newVisibleSubjectIds| + i] == NoLongerVisibleOpponent(observer, d.noLongerVisibleSubjectIds[i])
    ensures forall e :: e in r ==> (e.NewVisibleOpponent? || e.NoLongerVisibleOpponent?) && e.observerSubjectId == observer
  {
    NewVisibleEvents(observer, d.newVisibleSubjectIds) + NoLongerVisibleEvents(observer, d.noLongerVisibleSubjectIds)
  }

  function NewVisibleEvents(observer: SubjectId, ids: seq<SubjectId>): seq<Event>
  {
    seq(|ids|, i requires 0 <= i < |ids| => NewVisibleOpponent(observer, ids[i]))
  }

  function NoLongerVisibleEvents(observer: SubjectId, ids: seq<SubjectId>): seq<Event>
  {
    seq(|ids|, i requires 0 <= i < |ids| => NoLongerVisibleOpponent(observer, ids[i]))
  }

  lemma EventsSnoc(observer: SubjectId, ids: seq<SubjectId>, i: nat)
    requires i < |ids|
    ensures NewVisibleEvents(observer, ids[..i + 1])
      == NewVisibleEvents(observer, ids[..i]) + [NewVisibleOpponent(observer, ids[i])]
    ensures NoLongerVisibleEvents(observer, ids[..i + 1])
      == NoLongerVisibleEvents(observer, ids[..i]) + [NoLongerVisibleOpponent(observer, ids[i])]
  {
  }

  /**
   * `run`'s diff describes this cycle's visibility exactly: the no-longer-visible
   * ids are the stored ids absent from the visible ones, the new ids are the
   * visible ids not stored, and the new ids are disjoint from the stored list.
   */
  lemma LookAroundDiffExact(stored: seq<SubjectId>, visible: seq<VisibleSubject>)
    ensures var d := LookAroundDiff(stored, visible);
      && IsSubsequence(d.noLongerVisibleSubjectIds, stored)
      && IsSubsequence(d.newVisibleSubjectIds, Ids(visible))
      && (forall x :: x in d.noLongerVisibleSubjectIds <==> x in stored && x !in Ids(visible))
      && (forall x :: x in d.newVisibleSubjectIds <==> x in Ids(visible) && x !in stored)
  {
    var d := LookAroundDiff(stored, visible);
    WithoutCounts(stored, Ids(visible));
    WithoutCounts(Ids(visible), stored);
    FiltersAreSubsequences(stored, Ids(visible));
    FiltersAreSubsequences(Ids(visible), stored);
    forall x ensures x in d.noLongerVisibleSubjectIds <==> x in stored && x !in Ids(visible) {
      assert x in d.noLongerVisibleSubjectIds <==> multiset(d.noLongerVisibleSubjectIds)[x] > 0;
      assert x in stored <==> multiset(stored)[x] > 0;
    }
    forall x ensures x in d.newVisibleSubjectIds <==> x in Ids(visible) && x !in stored {
      assert x in d.newVisibleSubjectIds <==> multiset(d.newVisibleSubjectIds)[x] > 0;
      assert x in Ids(visible) <==> multiset(Ids(visible))[x] > 0;
    }
  }

  /**
   * Applying `action` to `run`'s diff on the same stored list: every remove
   * succeeds, the still-visible ids keep their order and the new ids follow,
   * the result holds exactly the visible ids, and it has no duplicates when
   * neither input had any.
   */
  lemma LookAroundReconciles(stored: seq<SubjectId>, visible: seq<VisibleSubject>)
    ensures var d := LookAroundDiff(stored, visible);
      var after := RemoveEach(stored, d.noLongerVisibleSubjectIds) + d.newVisibleSubjectIds;
      && multiset(d.noLongerVisibleSubjectIds) <= multiset(stored)
      && after == Keep(stored, Ids(visible)) + Without(Ids(visible), stored)
      && (forall x :: x in after <==> x in Ids(visible))
      && (NoDuplicates(stored) && NoDuplicates(Ids(visible)) ==> NoDuplicates(after))
  {
    var d := LookAroundDiff(stored, visible);
    var vis := Ids(visible);
    RemoveEachWithout(stored, vis);
    WithoutCounts(stored, vis);
    WithoutCounts(vis, stored);
    KeepCounts(stored, vis);
    var after := Keep(stored, vis) + Without(vis, stored);
    assert forall x :: multiset(after)[x] == multiset(Keep(stored, vis))[x] + multiset(Without(vis, stored))[x];
    forall x ensures x in after <==> x in vis {
      assert x in after <==> multiset(after)[x] > 0;
      assert x in vis <==> multiset(vis)[x] > 0;
      assert x in stored <==> multiset(stored)[x] > 0;
    }
  }

  /**
   * Stored ids [1, 2], visible subjects 2 and 3: the events are
   * NewVisibleOpponent(3) then NoLongerVisibleOpponent(1), and the stored
   * ids become [2, 3].
   */
  lemma LookAroundExample(observer: SubjectId, p2: Position, p3: Position)
    ensures var d := LookAroundDiff([1, 2], [VisibleSubject(2, p2), VisibleSubject(3, p3)]);
      && LookAroundEvents(observer, d) == [NewVisibleOpponent(observer, 3), NoLongerVisibleOpponent(observer, 1)]
      && RemoveEach([1, 2], d.noLongerVisibleSubjectIds) + d.newVisibleSubjectIds == [2, 3]
  {
    var vis := Ids([VisibleSubject(2, p2), VisibleSubject(3, p3)]);
    assert vis == [2, 3];
    assert Without([2], vis) == [];
    assert Without([1, 2], vis) == [1];
    assert Without([3], [1, 2]) == [3];
    assert Without(vis, [1, 2]) == [3];
    assert RemoveFirst([1, 2], 1) == [2];
  }

  /** The behaviour that keeps a subject's visible-opponent ids up to date. */
  class LookAroundBehaviour {
    const subject: Subject
    /** Seconds between eligible runs, read from `game.look_around.frequency`. */
    const secondsFrequency: real

    constructor (subject: Subject, lookAroundFrequency: real)
      ensures this.subject == subject && secondsFrequency == lookAroundFrequency
    {
      this.subject := subject;
      this.secondsFrequency := lookAroundFrequency;
    }

    /**
     * Diffs the stored ids against this cycle's visible subjects; placement
     * mode disables it. It reads the subject and changes nothing.
     */
    method Run(placementMode: bool, visibleSubjects: seq<VisibleSubject>) returns (r: Option<LookAroundDecision>)
      ensures placementMode ==> r == None
      ensures !placementMode ==> r == Some(LookAroundDiff(subject.visibleOpponentIds, visibleSubjects))
    {
      if placementMode {
        return None;
      }
      var stored := subject.visibleOpponentIds;
      var visibleIds := Ids(visibleSubjects);
      var newIds: seq<SubjectId> := [];
      var noLongerIds: seq<SubjectId> := [];

      var i := 0;
      while i < |stored|
        invariant 0 <= i <= |stored|
        invariant noLongerIds == Without(stored[..i], visibleIds)
      {
        WithoutSnoc(stored[..i], stored[i], visibleIds);
        assert stored[..i + 1] == stored[..i] + [stored[i]];
        if stored[i] !in visibleIds {
          noLongerIds := noLongerIds + [stored[i]];
        }
        i := i + 1;
      }
      assert stored[..i] == stored;

      var j := 0;
      while j < |visibleSubjects|
        invariant 0 <= j <= |visibleSubjects|
        invariant newIds == Without(visibleIds[..j], stored)
      {
        WithoutSnoc(visibleIds[..j], visibleIds[j], stored);
        assert visibleIds[..j + 1] == visibleIds[..j] + [visibleIds[j]];
        if visibleSubjects[j].id !in stored {
          newIds := newIds + [visibleSubjects[j].id];
        }
        j := j + 1;
      }
      assert visibleIds[..j] == visibleIds;

      r := Some(LookAroundDecision(newIds, noLongerIds));
    }

    /**
     * Emits the events for a diff and updates the stored ids in place:
     * every no-longer-visible id is removed (first occurrence), then every
     * new id is appended. Each remove must find its id.
     */
    method Action(d: LookAroundDecision) returns (events: seq<Event>)
      requires multiset(d.noLongerVisibleSubjectIds) <= multiset(subject.visibleOpponentIds)
      modifies subject`visibleOpponentIds
      ensures events == LookAroundEvents(subject.id, d)
      ensures subject.visibleOpponentIds
        == RemoveEach(old(subject.visibleOpponentIds), d.noLongerVisibleSubjectIds) + d.newVisibleSubjectIds
    {
      var noLongerVisibleEvents := RemoveNoLongerVisible(d.noLongerVisibleSubjectIds);
      var newVisibleEvents := AppendNewVisible(d.newVisibleSubjectIds);
      events := newVisibleEvents + noLongerVisibleEvents;
    }

    /** `action`'s first loop: one event per id, each id removed from the stored ids in turn. */
    method RemoveNoLongerVisible(noLonger: seq<SubjectId>) returns (events: seq<Event>)
      requires multiset(noLonger) <= multiset(subject.visibleOpponentIds)
      modifies subject`visibleOpponentIds
      ensures events == NoLongerVisibleEvents(subject.id, noLonger)
      ensures subject.visibleOpponentIds == RemoveEach(old(subject.visibleOpponentIds), noLonger)
    {
      events := [];
      ghost var removed := RemoveEach(subject.visibleOpponentIds, noLonger);
      var i := 0;
      while i < |noLonger|
        invariant 0 <= i <= |noLonger|
        invariant events == NoLongerVisibleEvents(subject.id, noLonger[..i])
        invariant multiset(noLonger[i..]) <= multiset(subject.visibleOpponentIds)
        invariant RemoveEach(subject.visibleOpponentIds, noLonger[i..]) == removed
      {
        assert noLonger[i..] == [noLonger[i]] + noLonger[i + 1..];
        EventsSnoc(subject.id, noLonger, i);
        events := events + [NoLongerVisibleOpponent(subject.id, noLonger[i])];
        assert noLonger[i] in multiset(subject.visibleOpponentIds);
        subject.visibleOpponentIds := RemoveFirst(subject.visibleOpponentIds, noLonger[i]);
        i := i + 1;
      }
      assert noLonger[..i] == noLonger;
    }

    /** `action`'s second loop: one event per id, each id appended to the stored ids. */
    method AppendNewVisible(newIds: seq<SubjectId>) returns (events: seq<Event>)
      modifies subject`visibleOpponentIds
      ensures events == NewVisibleEvents(subject.id, newIds)
      ensures subject.visibleOpponentIds == old(subject.visibleOpponentIds) + newIds
    {
      events := [];
      ghost var base := subject.visibleOpponentIds;
      var j := 0;
      while j < |newIds|
        invariant 0 <= j <= |newIds|
        invariant events == NewVisibleEvents(subject.id, newIds[..j])
        invariant subject.visibleOpponentIds == base + newIds[..j]
      {
        EventsSnoc(subject.id, newIds, j);
        events := events + [NewVisibleOpponent(subject.id, newIds[j])];
        subject.visibleOpponentIds := subject.visibleOpponentIds + [newIds[j]];
        assert newIds[..j + 1] == newIds[..j] + [newIds[j]];
        j := j + 1;
      }
      assert newIds[..j] == newIds;
    }
  }

  // ---------------------------------------------------------------------
  // EngageOpponent

  /** What `EngageOpponent.run` hands to `action`. */
  datatype EngageDecision = EngageDecision(kill: bool, targetSubjectId: SubjectId, targetPosition: Position)

  /** The result of `EngageOpponent.run`. */
  datatype EngageRunResult =
    | Disabled             // placement mode: the behaviour does not run
    | NoDecision           // nothing visible: `run` returns None
    | Abstain              // the "decided to fail" branch: `run` returns False
    | Engage(decision: EngageDecision)

  /** Lowest kill draw (out of 0..100) that makes the shot kill. */
  const KillThreshold: int := 75

  /**
   * `EngageOpponent.run` with its random draws as parameters: `abstainDraw`
   * stands for `randint(1, 3)`, `targetIndex` for the choice among the
   * visible subjects and `killDraw` for `randint(0, 100)`.
   */
  function EngageRun(placementMode: bool, visible: seq<VisibleSubject>,
                     abstainDraw: int, targetIndex: nat, killDraw: int): (r: EngageRunResult)
    requires 1 <= abstainDraw <= 3
    requires visible != [] ==> targetIndex < |visible|
    requires 0 <= killDraw <= 100
    ensures r.Disabled? <==> placementMode
    ensures !placementMode ==> (r.NoDecision? <==> visible == [])
    ensures !placementMode && visible != [] ==> r.Engage?
    ensures r.Engage? ==> VisibleSubject(r.decision.targetSubjectId, r.decision.targetPosition) in visible
    ensures r.Engage? ==> (r.decision.kill <==> killDraw >= KillThreshold)
  {
    if placementMode then Disabled
    else if visible == [] then NoDecision
    else if abstainDraw == -1 then Abstain
    else
      var target := visible[targetIndex];
      Engage(EngageDecision(killDraw >= KillThreshold, target.id, target.position))
  }

  /**
   * The events `EngageOpponent.action` returns: always the FireEvent, then a
   * DieEvent exactly when the shot kills a target that is still alive.
   */
  function EngageEvents(shooter: SubjectId, d: EngageDecision, targetAlive: bool): (r: seq<Event>)
    ensures 1 <= |r| <= 2
    ensures r[0] == FireEvent(shooter, d.targetPosition)
    ensures |r| == 2 <==> d.kill && targetAlive
    ensures |r| == 2 ==> r[1] == DieEvent(shooter, d.targetSubjectId)
  {
    [FireEvent(shooter, d.targetPosition)]
      + (if d.kill && targetAlive then [DieEvent(shooter, d.targetSubjectId)] else [])
  }

  /** A shot: the shooter and the decision its `run` produced. */
  datatype Shot = Shot(shooter: SubjectId, decision: EngageDecision)

  /**
   * Several `action` calls applied one after another within a cycle,
   * tracking the ids of the living subjects: the events they return in
   * order, and who is alive afterwards.
   */
  function ApplyShots(alive: set<SubjectId>, shots: seq<Shot>): (r: (seq<Event>, set<SubjectId>))
    ensures r.1 <= alive
    ensures |shots| <= |r.0| <= 2 * |shots|
  {
    if shots == [] then ([], alive)
    else
      var s := shots[0];
      var targetAlive := s.decision.targetSubjectId in alive;
      var dies := s.decision.kill && targetAlive;
      var aliveAfter := if dies then alive - {s.decision.targetSubjectId} else alive;
      var rest := ApplyShots(aliveAfter, shots[1..]);
      (EngageEvents(s.shooter, s.decision, targetAlive) + rest.0, rest.1)
  }

  /** A subject leaves the alive ids only through a shot that kills it. */
  lemma {:induction false} OnlyKillingShotsRemove(alive: set<SubjectId>, shots: seq<Shot>, id: SubjectId)
    requires id in alive && id !in ApplyShots(alive, shots).1
    ensures exists i :: 0 <= i < |shots| && shots[i].decision.kill && shots[i].decision.targetSubjectId == id
    decreases |shots|
  {
    var s := shots[0];
    if !(s.decision.kill && s.decision.targetSubjectId == id) {
      var aliveAfter := if s.decision.kill && s.decision.targetSubjectId in alive then alive - {s.decision.targetSubjectId} else alive;
      OnlyKillingShotsRemove(aliveAfter, shots[1..], id);
      var i :| 0 <= i < |shots[1..]| && shots[1..][i].decision.kill && shots[1..][i].decision.targetSubjectId == id;
      assert shots[i + 1] == shots[1..][i];
    }
  }

  /** Number of DieEvents for `victim` in `events`. */
  function Deaths(events: seq<Event>, victim: SubjectId): nat
  {
    if events == [] then 0
    else (if events[0].DieEvent? && events[0].shootSubjectId == victim then 1 else 0) + Deaths(events[1..], victim)
  }

  lemma {:induction false} DeathsAppend(a: seq<Event>, b: seq<Event>, victim: SubjectId)
    ensures Deaths(a + b, victim) == Deaths(a, victim) + Deaths(b, victim)
  {
    if a == [] {
      assert a + b == b;
    } else {
      assert (a + b)[0] == a[0] && (a + b)[1..] == a[1..] + b;
      DeathsAppend(a[1..], b, victim);
    }
  }

  /**
   * Killing is idempotent within a cycle: whatever shots are applied, a
   * subject dies at most once, only if it was alive, and the subjects
   * still alive afterwards are exactly those that did not die.
   */
  lemma {:induction false} AtMostOneDeathPerVictim(alive: set<SubjectId>, shots: seq<Shot>, victim: SubjectId)
    ensures Deaths(ApplyShots(alive, shots).0, victim) <= 1
    ensures victim !in alive ==> Deaths(ApplyShots(alive, shots).0, victim) == 0
    ensures victim in alive ==> (victim in ApplyShots(alive, shots).1 <==> Deaths(ApplyShots(alive, shots).0, victim) == 0)
    decreases |shots|
  {
    if shots != [] {
      var s := shots[0];
      var targetAlive := s.decision.targetSubjectId in alive;
      var dies := s.decision.kill && targetAlive;
      var aliveAfter := if dies then alive - {s.decision.targetSubjectId} else alive;
      var head := EngageEvents(s.shooter, s.decision, targetAlive);
      var rest := ApplyShots(aliveAfter, shots[1..]);
      AtMostOneDeathPerVictim(aliveAfter, shots[1..], victim);
      DeathsAppend(head, rest.0, victim);
      if dies {
        assert head == [FireEvent(s.shooter, s.decision.targetPosition)] + [DieEvent(s.shooter, s.decision.targetSubjectId)];
        assert head[1..] == [DieEvent(s.shooter, s.decision.targetSubjectId)];
        assert head[1..][1..] == [];
      } else {
        assert head[1..] == [];
      }
    }
  }

  /** The behaviour that fires at a visible opponent. */
  class EngageOpponent {
    const subject: Subject
    /** Seconds between eligible runs, read from `game.engage.frequency`. */
    const secondsFrequency: real

    constructor (subject: Subject, engageFrequency: real)
      ensures this.subject == subject && secondsFrequency == engageFrequency
    {
      this.subject := subject;
      this.secondsFrequency := engageFrequency;
    }

    /**
     * Fires at the decided target; if the shot kills and the target is still
     * in the alive collection, applies its death and reports it. The target
     * is looked up in the simulation's subject index.
     */
    method Action(d: EngageDecision, subjectsIndex: map<SubjectId, Subject>) returns (events: seq<Event>)
      requires d.targetSubjectId in subjectsIndex
      modifies subjectsIndex[d.targetSubjectId]
      ensures var target := subjectsIndex[d.targetSubjectId];
        var wasAlive := CollectionAlive in old(target.collections);
        && events == EngageEvents(subject.id, d, wasAlive)
        && target.position == old(target.position)
        && target.visibleOpponentIds == old(target.visibleOpponentIds)
        && target.collections == if d.kill && wasAlive then old(target.collections) - {CollectionAlive}
                                 else old(target.collections)
    {
      var target := subjectsIndex[d.targetSubjectId];
      events := [FireEvent(subject.id, d.targetPosition)];
      // Must be checked: the target may already have died this cycle.
      if d.kill && CollectionAlive in target.collections {
        ApplySubjectDeath(target);
        events := events + [DieEvent(subject.id, d.targetSubjectId)];
      }
    }
  }

  /** `DieEvent.apply_subject_death`: the subject leaves the alive collection. */
  method ApplySubjectDeath(target: Subject)
    modifies target`collections
    ensures target.collections == old(target.collections) - {CollectionAlive}
  {
    target.collections := target.collections - {CollectionAlive};
  }


  /** `ApplyShots` from the i-th shot on: that shot's events, then the rest from the alive ids after it. */
  lemma ApplyShotsStep(alive: set<SubjectId>, after: set<SubjectId>, shots: seq<Shot>, i: nat)
    requires i < |shots|
    requires after == if shots[i].decision.kill && shots[i].decision.targetSubjectId in alive
                       then alive - {shots[i].decision.targetSubjectId} else alive
    ensures ApplyShots(alive, shots[i..]).0
      == EngageEvents(shots[i].shooter, shots[i].decision, shots[i].decision.targetSubjectId in alive)
         + ApplyShots(after, shots[i + 1..]).0
    ensures ApplyShots(alive, shots[i..]).1 == ApplyShots(after, shots[i + 1..]).1
  {
    assert shots[i..][1..] == shots[i + 1..];
  }

  /** Ids of the indexed subjects that are in the alive collection. */
  ghost function AliveIds(index: map<SubjectId, Subject>): set<SubjectId>
    reads index.Values
  {
    set id | id in index && CollectionAlive in index[id].collections
  }

  /** The shots of the i-th behaviour firing with the i-th decision. */
  function Shots(behaviours: seq<EngageOpponent>, decisions: seq<EngageDecision>): (r: seq<Shot>)
    requires |behaviours| == |decisions|
    ensures |r| == |decisions|
    ensures forall i :: 0 <= i < |r| ==> r[i].shooter == behaviours[i].subject.id && r[i].decision == decisions[i]
  {
    seq(|decisions|, i requires 0 <= i < |decisions| => Shot(behaviours[i].subject.id, decisions[i]))
  }

  /**
   * One `action` call seen through the alive ids of an index that maps
   * distinct ids to distinct subjects: the target leaves the alive ids
   * exactly when the shot kills it while it is alive.
   */
  method EngageAlive(b: EngageOpponent, d: EngageDecision, index: map<SubjectId, Subject>)
    returns (events: seq<Event>)
    requires d.targetSubjectId in index
    requires forall x, y :: x in index && y in index && x != y ==> index[x] != index[y]
    modifies index.Values
    ensures events == EngageEvents(b.subject.id, d, d.targetSubjectId in old(AliveIds(index)))
    ensures AliveIds(index) == if d.kill && d.targetSubjectId in old(AliveIds(index))
                               then old(AliveIds(index)) - {d.targetSubjectId}
                               else old(AliveIds(index))
  {
    events := b.Action(d, index);
    forall id | id in index && id != d.targetSubjectId
      ensures index[id].collections == old(index[id].collections)
    {
    }
  }

  /**
   * The `action` calls of one cycle run one after another, the i-th
   * behaviour firing with the i-th decision against a subject index that
   * maps distinct ids to distinct subjects. The events returned and the
   * alive subjects afterwards are those of `ApplyShots`.
   */
  method ApplyEngagements(behaviours: seq<EngageOpponent>, decisions: seq<EngageDecision>,
                          index: map<SubjectId, Subject>) returns (events: seq<Event>)
    requires |behaviours| == |decisions|
    requires forall i :: 0 <= i < |decisions| ==> decisions[i].targetSubjectId in index
    requires forall x, y :: x in index && y in index && x != y ==> index[x] != index[y]
    modifies index.Values
    ensures events == ApplyShots(old(AliveIds(index)), Shots(behaviours, decisions)).0
    ensures AliveIds(index) == ApplyShots(old(AliveIds(index)), Shots(behaviours, decisions)).1
  {
    ghost var shots := Shots(behaviours, decisions);
    ghost var alive0 := AliveIds(index);
    ghost var alive := alive0;
    events := [];
    var i := 0;
    while i < |decisions|
      invariant 0 <= i <= |decisions|
      invariant alive == AliveIds(index)
      invariant events + ApplyShots(alive, shots[i..]).0 == ApplyShots(alive0, shots).0
      invariant ApplyShots(alive, shots[i..]).1 == ApplyShots(alive0, shots).1
    {
      var e := EngageAlive(behaviours[i], decisions[i], index);
      ghost var after := AliveIds(index);
      ApplyShotsStep(alive, after, shots, i);
      assert (events + e) + ApplyShots(after, shots[i + 1..]).0 == events + ApplyShots(alive, shots[i..]).0;
      events := events + e;
      alive := after;
      i := i + 1;
    }
  }
}
