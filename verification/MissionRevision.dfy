/** Which revision of a recording is safely on disk, over edits, resets and save completions in any order. */
module MissionRevision {
  import opened Domain

  datatype Snapshot = Snapshot(session: nat, revision: nat)

  datatype State = State(state: Snapshot, saved: nat)

  const START: State := State(Snapshot(0, 0), 0)

  function ResetState(s: State): State {
    State(Snapshot(s.state.session + 1, 0), 0)
  }

  function ChangedState(s: State): State {
    s.(state := s.state.(revision := s.state.revision + 1))
  }

  /** A finished save counts for the current session, forwards only, and not beyond the current revision. */
  function SavedState(s: State, snapshot: Snapshot): State {
    if snapshot.session == s.state.session && snapshot.revision > s.saved && snapshot.revision <= s.state.revision
    then s.(saved := snapshot.revision) else s
  }

  predicate Dirty(s: State) {
    s.state.revision != s.saved
  }

  // ---------------------------------------------------------------------------------------------
  // Every interleaving
  // ---------------------------------------------------------------------------------------------

  /** `Complete(k)` reports that the k-th captured snapshot was written; reports come in any order, or never. */
  datatype Op = Reset | Edit | Capture | Complete(k: nat)

  /** The tracker, the snapshots captured so far, and those written. */
  datatype World = World(s: State, captured: seq<Snapshot>, written: seq<Snapshot>)

  function Do(w: World, op: Op): World {
    match op
    case Reset => w.(s := ResetState(w.s))
    case Edit => w.(s := ChangedState(w.s))
    case Capture => w.(captured := w.captured + [w.s.state])
    case Complete(k) =>
      if k < |w.captured| then World(SavedState(w.s, w.captured[k]), w.captured, w.written + [w.captured[k]]) else w
  }

  function After(ops: seq<Op>): World {
    if ops == [] then World(START, [], []) else Do(After(ops[..|ops| - 1]), ops[|ops| - 1])
  }

  /** The largest revision of a session among the written snapshots; zero when there is none. */
  function Mark(written: seq<Snapshot>, session: nat): nat {
    if written == [] then 0
    else
      var before, last := Mark(written[..|written| - 1], session), written[|written| - 1];
      if last.session == session then Max(before, last.revision) else before
  }

  lemma {:induction false} MarkIsLargest(written: seq<Snapshot>, session: nat)
    ensures forall k :: 0 <= k < |written| && written[k].session == session ==> written[k].revision <= Mark(written, session)
    ensures Mark(written, session) > 0 ==> Snapshot(session, Mark(written, session)) in written
    decreases |written|
  {
    if written != [] {
      MarkIsLargest(written[..|written| - 1], session);
      assert forall v :: v in written[..|written| - 1] ==> v in written;
    }
  }

  /** Nothing was captured that is newer than the present. */
  ghost predicate FromThePast(w: World) {
    && (forall k :: 0 <= k < |w.captured| ==>
          w.captured[k].session <= w.s.state.session
          && (w.captured[k].session == w.s.state.session ==> w.captured[k].revision <= w.s.state.revision))
    && (forall k :: 0 <= k < |w.written| ==> w.written[k] in w.captured)
  }

  lemma {:induction false} UnwrittenSession(written: seq<Snapshot>, session: nat)
    requires forall k :: 0 <= k < |written| ==> written[k].session < session
    ensures Mark(written, session) == 0
    decreases |written|
  {
    if written != [] {
      UnwrittenSession(written[..|written| - 1], session);
    }
  }

  ghost predicate Consistent(w: World) {
    FromThePast(w) && w.s.saved == Mark(w.written, w.s.state.session) && w.s.saved <= w.s.state.revision
  }

  lemma DoConsistent(w: World, op: Op)
    requires Consistent(w)
    ensures Consistent(Do(w, op))
  {
    hide Mark;
    match op
    case Reset =>
      forall k | 0 <= k < |w.written| ensures w.written[k].session < w.s.state.session + 1 {
        assert w.written[k] in w.captured;
      }
      UnwrittenSession(w.written, w.s.state.session + 1);
    case Edit =>
    case Capture =>
    case Complete(k) =>
      if k < |w.captured| {
        MarkSnoc(w.written, w.captured[k], w.s.state.session);
      }
  }

  lemma MarkSnoc(written: seq<Snapshot>, last: Snapshot, session: nat)
    ensures Mark(written + [last], session)
         == if last.session == session then Max(Mark(written, session), last.revision) else Mark(written, session)
  {
    assert (written + [last])[..|written|] == written;
  }

  /** The saved mark is the largest revision of the current session that was written, over every run. */
  lemma {:induction false} SavedIsMark(ops: seq<Op>)
    ensures Consistent(After(ops))
    decreases |ops|
  {
    hide Consistent, Do;
    if ops == [] {
      StartConsistent();
    } else {
      SavedIsMark(ops[..|ops| - 1]);
      DoConsistent(After(ops[..|ops| - 1]), ops[|ops| - 1]);
    }
  }

  lemma StartConsistent()
    ensures Consistent(World(START, [], []))
  {
  }

  /** The number of edits behind the last reset. */
  function EditsSinceReset(ops: seq<Op>): nat {
    if ops == [] then 0
    else
      match ops[|ops| - 1]
      case Reset => 0
      case Edit => EditsSinceReset(ops[..|ops| - 1]) + 1
      case _ => EditsSinceReset(ops[..|ops| - 1])
  }

  function Resets(ops: seq<Op>): nat {
    if ops == [] then 0 else Resets(ops[..|ops| - 1]) + (if ops[|ops| - 1].Reset? then 1 else 0)
  }

  /** The revision is the number of edits behind the last reset, the session the number of resets. */
  lemma {:induction false} RevisionCountsEdits(ops: seq<Op>)
    ensures After(ops).s.state == Snapshot(Resets(ops), EditsSinceReset(ops))
    decreases |ops|
  {
    if ops != [] {
      RevisionCountsEdits(ops[..|ops| - 1]);
    }
  }

  /** Some edit has no reset behind it. */
  ghost predicate Edited(ops: seq<Op>) {
    exists k :: EditedAt(ops, k)
  }

  ghost predicate EditedAt(ops: seq<Op>, k: int) {
    0 <= k < |ops| && ops[k] == Edit && forall j :: k < j < |ops| ==> ops[j] != Reset
  }

  lemma {:induction false} EditedIsCounted(ops: seq<Op>)
    ensures Edited(ops) <==> EditsSinceReset(ops) > 0
    decreases |ops|
  {
    if ops != [] {
      var init, last := ops[..|ops| - 1], ops[|ops| - 1];
      EditedIsCounted(init);
      if last == Edit {
        assert EditedAt(ops, |init|);
      } else if last != Reset && Edited(init) {
        var k :| EditedAt(init, k);
        assert EditedAt(ops, k);
      } else if Edited(ops) {
        var k :| EditedAt(ops, k);
        assert EditedAt(init, k);
      }
    }
  }

  /**
   * The recording counts as clean exactly when nothing was edited since the last reset or a snapshot of exactly the
   * present revision was written.
   */
  lemma CleanMeansWritten(ops: seq<Op>)
    ensures var w := After(ops);
            !Dirty(w.s) <==> !Edited(ops) || w.s.state in w.written
  {
    var w := After(ops);
    SavedIsMark(ops);
    RevisionCountsEdits(ops);
    EditedIsCounted(ops);
    MarkIsLargest(w.written, w.s.state.session);
    if w.s.state in w.written {
      var k :| 0 <= k < |w.written| && w.written[k] == w.s.state;
      assert w.s.state.revision <= Mark(w.written, w.s.state.session);
    }
  }

  /** After an edit there is always something to save, whatever was saved before. */
  lemma EditMakesDirty(ops: seq<Op>)
    ensures Dirty(After(ops + [Edit]).s)
  {
    hide After, Mark, FromThePast;
    AfterOne(ops, Edit);
    SavedIsMark(ops);
  }

  lemma AfterOne(ops: seq<Op>, op: Op)
    ensures After(ops + [op]) == Do(After(ops), op)
  {
    hide Do;
    assert (ops + [op])[..|ops|] == ops;
  }

  /** Saving the present and nothing else cleans; so does a reset. */
  lemma SavingCleans(ops: seq<Op>)
    ensures !Dirty(After(ops + [Capture, Complete(|After(ops).captured|)]).s)
    ensures !Dirty(After(ops + [Reset]).s)
  {
    hide After, Mark, FromThePast;
    var last := Complete(|After(ops).captured|);
    AfterOne(ops, Capture);
    AfterOne(ops + [Capture], last);
    assert ops + [Capture] + [last] == ops + [Capture, last];
    AfterOne(ops, Reset);
    SavedIsMark(ops);
  }

  /** A completed save of an earlier revision or session never makes changed data look saved. */
  lemma StaleSaveKeepsDirty(s: State, snapshot: Snapshot)
    requires Dirty(s) && snapshot != s.state
    ensures Dirty(SavedState(s, snapshot))
  {
  }

  class RecordingRevision {
    var state: Snapshot
    var savedRevision: nat

    function View(): State
      reads this
    {
      State(state, savedRevision)
    }

    constructor ()
      ensures View() == START
    {
      state, savedRevision := Snapshot(0, 0), 0;
    }

    method Restart()
      modifies this
      ensures View() == ResetState(old(View()))
      ensures state == Snapshot(old(state.session) + 1, 0) && savedRevision == 0
    {
      state := state.(session := state.session + 1);
      savedRevision := 0;
      state := state.(revision := 0);
    }

    method Changed()
      modifies this
      ensures View() == ChangedState(old(View()))
      ensures state == Snapshot(old(state.session), old(state.revision) + 1) && savedRevision == old(savedRevision)
    {
      state := state.(revision := state.revision + 1);
    }

    method TakeSnapshot() returns (snapshot: Snapshot)
      ensures snapshot == View().state
    {
      snapshot := state;
    }

    method Saved(snapshot: Snapshot)
      modifies this
      ensures View() == SavedState(old(View()), snapshot)
      ensures state == old(state) && savedRevision >= old(savedRevision)
    {
      if snapshot.session == state.session && snapshot.revision > savedRevision && snapshot.revision <= state.revision {
        savedRevision := snapshot.revision;
      }
    }
  }
}
