/**
 The asynchronous writer of transferred zones (secondary-persistent/persist.go), for
 one origin: every table it keeps is keyed by origin and every step touches one key.
 Steps are cut where the code takes or releases the lock.
 */
module PersistQueue {
  import opened Collections
  import opened Serials

  /** A zone snapshot: its serial and what it holds. */
  datatype Snapshot = Snapshot(serial: Serial, data: string)

  /** Where a writer goroutine is: started; writing to the store; back from the store;
      or on its way into `finishPersist`. */
  datatype Writer = Starting(snap: Snapshot) | Saving(snap: Snapshot) | Returned(snap: Snapshot, ok: bool) | Finishing

  /** `saves` lists the serials saved so far, the one loaded at start included. */
  datatype Queue = Queue(
    writing: bool, pending: Option<Snapshot>, written: Option<Serial>, writers: seq<Writer>,
    stored: Option<Snapshot>, saves: seq<Serial>, stopped: bool)

  datatype Step = Enqueue(snap: Snapshot) | Begin(w: nat) | Save(w: nat, ok: bool) | Tail(w: nat) | Finish(w: nat) | Close

  predicate Enabled(q: Queue, s: Step) {
    match s
    case Enqueue(_) => true
    case Close => true
    case Begin(w) => w < |q.writers| && q.writers[w].Starting?
    case Save(w, _) => w < |q.writers| && q.writers[w].Saving?
    case Tail(w) => w < |q.writers| && q.writers[w].Returned?
    case Finish(w) => w < |q.writers| && q.writers[w].Finishing?
  }

  function Without(ws: seq<Writer>, w: nat): seq<Writer>
    requires w < |ws|
  {
    ws[..w] + ws[w + 1..]
  }

  /** Already written with this very serial. */
  predicate Dropped(q: Queue, snap: Snapshot) {
    q.written == Some(snap.serial)
  }

  function Take(q: Queue, s: Step): Queue
    requires Enabled(q, s)
  {
    match s
    case Enqueue(snap) =>
      if Dropped(q, snap) then q
      else if q.writing then q.(pending := Some(snap))
      else q.(writing := true, writers := q.writers + [Starting(snap)])
    case Close => q.(stopped := true)
    case Begin(w) =>
      if q.stopped then q.(writing := false, pending := None, writers := Without(q.writers, w))
      else
        var snap := q.writers[w].snap;
        var stale := q.written.Some? && !Less(q.written.value, snap.serial);
        q.(writers := q.writers[w := if stale then Finishing else Saving(snap)])
    case Save(w, ok) =>
      var snap := q.writers[w].snap;
      if ok then q.(stored := Some(snap), saves := q.saves + [snap.serial], writers := q.writers[w := Returned(snap, true)])
      else q.(writers := q.writers[w := Returned(snap, false)])
    case Tail(w) =>
      var r := q.writers[w];
      q.(writing := false, written := if r.ok then Some(r.snap.serial) else q.written, writers := q.writers[w := Finishing])
    case Finish(w) =>
      var rest := Without(q.writers, w);
      if q.pending.Some? && (q.written.None? || Less(q.written.value, q.pending.value.serial)) then
        q.(writing := true, pending := None, writers := rest + [Starting(q.pending.value)])
      else
        q.(writing := false, pending := None, writers := rest)
  }

  /** Nothing in flight, and what was written is what is stored. */
  predicate Quiet(q: Queue) {
    && !q.writing && q.pending.None? && q.writers == []
    && (if q.written.None? then q.saves == [] else q.saves == [q.written.value] && q.stored.Some? && q.stored.value.serial == q.written.value)
  }

  // ---------------------------------------------------------------- at most one writer

  /** The lock was released between the end of `runPersist` and `finishPersist`. */
  predicate InGap(q: Queue) {
    !q.writing && q.writers == [Finishing]
  }

  predicate OneWriter(q: Queue) {
    && |q.writers| <= 1
    && (q.writers == [] ==> !q.writing && q.pending.None?)
    && (|q.writers| == 1 && !q.writers[0].Finishing? ==> q.writing)
  }

  /** An enqueue that comes in the gap, of anything but what has just been written. */
  predicate EnqueuesInGap(q: Queue, s: Step) {
    s.Enqueue? && InGap(q) && q.written != Some(s.snap.serial)
  }

  /** Step by step, exactly: there stays at most one writer unless, and only unless, a
      snapshot is enqueued in the gap. */
  lemma OneWriterIff(q: Queue, s: Step)
    requires OneWriter(q) && Enabled(q, s)
    ensures OneWriter(Take(q, s)) <==> !EnqueuesInGap(q, s)
  {
    if q.writers != [] {
      assert q.writers == [q.writers[0]];
      assert Without(q.writers, 0) == [];
    }
    if s.Enqueue? && !Dropped(q, s.snap) && !q.writing {
      assert |Take(q, s).writers| == |q.writers| + 1;
    }
  }

  // ---------------------------------------------------------------- saves move forward

  predicate Forward(saves: seq<Serial>) {
    forall k :: 0 <= k < |saves| - 1 ==> Less(saves[k], saves[k + 1])
  }

  /** What has been saved: the last save is recorded as written, or its writer is about
      to record it. */
  predicate Recorded(q: Queue) {
    && Forward(q.saves)
    && (if |q.writers| == 1 && q.writers[0].Returned? && q.writers[0].ok
        then q.saves != [] && Last(q.saves) == q.writers[0].snap.serial && q.stored == Some(q.writers[0].snap)
        else (q.written.None? ==> q.saves == [])
             && (q.written.Some? ==>
                   q.saves != [] && Last(q.saves) == q.written.value && q.stored.Some? && q.stored.value.serial == q.written.value))
    && (|q.writers| == 1 && q.writers[0].Saving? && q.written.Some? ==> Less(q.written.value, q.writers[0].snap.serial))
  }

  predicate Sound(q: Queue) {
    OneWriter(q) && Recorded(q)
  }

  lemma SoundStep(q: Queue, s: Step)
    requires Sound(q) && Enabled(q, s) && !EnqueuesInGap(q, s)
    ensures Sound(Take(q, s))
  {
    OneWriterIff(q, s);
    if s.Save? {
      SaveStep(q, s.ok);
    } else if q.writers != [] {
      assert q.writers == [q.writers[0]] && Without(q.writers, 0) == [];
    }
  }

  lemma ForwardSnoc(saves: seq<Serial>, s: Serial)
    requires Forward(saves) && (saves != [] ==> Less(Last(saves), s))
    ensures Forward(saves + [s])
  {
  }

  lemma SaveStep(q: Queue, ok: bool)
    requires Sound(q) && Enabled(q, Save(0, ok))
    ensures Recorded(Take(q, Save(0, ok)))
  {
    assert q.writers == [q.writers[0]];
    ForwardSnoc(q.saves, q.writers[0].snap.serial);
  }

  /** `run` is a run under `steps`, starting quiet. */
  predicate IsRun(run: seq<Queue>, steps: seq<Step>) {
    && |run| == |steps| + 1 && Quiet(run[0])
    && forall k :: 0 <= k < |steps| ==> Enabled(run[k], steps[k]) && run[k + 1] == Take(run[k], steps[k])
  }

  predicate AvoidsGap(run: seq<Queue>, steps: seq<Step>)
    requires IsRun(run, steps)
  {
    forall k :: 0 <= k < |steps| ==> !EnqueuesInGap(run[k], steps[k])
  }

  /** Over every interleaving in which no snapshot is enqueued in the gap, at most one
      writer is in flight and every save is newer than the one before it. */
  lemma {:induction false} RunsAreSound(run: seq<Queue>, steps: seq<Step>, k: nat)
    requires IsRun(run, steps) && AvoidsGap(run, steps) && k < |run|
    ensures |run[k].writers| <= 1 && Forward(run[k].saves) && Sound(run[k])
  {
    if k > 0 {
      RunsAreSound(run, steps, k - 1);
      SoundStep(run[k - 1], steps[k - 1]);
      assert run[k - 1 + 1] == Take(run[k - 1], steps[k - 1]);
    }
  }

  // ---------------------------------------------------------------- the last snapshot gets stored

  /** Runs in which saves succeed, nothing closes, and each snapshot is newer than every
      one before it and than what was written at the start. */
  predicate Calm(q: Queue, past: seq<Serial>, s: Step) {
    match s
    case Enqueue(snap) => forall k :: 0 <= k < |past| ==> Less(past[k], snap.serial)
    case Save(_, ok) => ok
    case Close => false
    case _ => true
  }

  function Seen(past: seq<Serial>, s: Step): seq<Serial> {
    if s.Enqueue? then past + [s.snap.serial] else past
  }

  function Newest(newest: Option<Snapshot>, s: Step): Option<Snapshot> {
    if s.Enqueue? then Some(s.snap) else newest
  }

  predicate Holds(w: Writer) {
    !w.Finishing?
  }

  /** The newest snapshot is pending, or in the writer's hands, or stored; and the
      serials still to come are later than those before them. */
  ghost predicate Tracked(q: Queue, past: seq<Serial>, newest: Option<Snapshot>) {
    && Sound(q) && !q.stopped
    && (q.written.Some? ==> q.written.value in past)
    && (q.pending.Some? ==> q.pending == newest && q.pending.value.serial in past)
    && (q.pending.Some? && q.written.Some? ==> Less(q.written.value, q.pending.value.serial))
    && (|q.writers| == 1 && Holds(q.writers[0]) ==>
          var snap := q.writers[0].snap;
          && snap.serial in past
          && (q.pending.None? ==> newest == Some(snap))
          && (q.pending.Some? ==> Less(snap.serial, q.pending.value.serial))
          && (q.written.Some? ==> Less(q.written.value, snap.serial))
          && (q.writers[0].Returned? ==> q.writers[0].ok))
    && (newest.Some? && q.pending.None? && (q.writers == [] || q.writers[0].Finishing?) ==>
          q.written == Some(newest.value.serial) && q.stored == newest)
  }

  lemma LessIrreflexive(s: Serial)
    ensures !Less(s, s)
  {
  }

  lemma TrackedEnqueue(q: Queue, past: seq<Serial>, newest: Option<Snapshot>, snap: Snapshot)
    requires Tracked(q, past, newest) && Calm(q, past, Enqueue(snap)) && !EnqueuesInGap(q, Enqueue(snap))
    ensures Tracked(Take(q, Enqueue(snap)), past + [snap.serial], Some(snap))
  {
    SoundStep(q, Enqueue(snap));
    var past' := past + [snap.serial];
    assert forall x :: x in past ==> x in past';
    assert snap.serial == past'[|past|];
    NotDropped(q, past, newest, snap);
    assert !q.writing ==> q.writers == [];
  }

  lemma NotDropped(q: Queue, past: seq<Serial>, newest: Option<Snapshot>, snap: Snapshot)
    requires Tracked(q, past, newest) && Calm(q, past, Enqueue(snap))
    ensures !Dropped(q, snap)
  {
    LessIrreflexive(snap.serial);
    if q.written.Some? {
      assert q.written.value in past && Less(q.written.value, snap.serial);
    }
  }

  lemma TrackedOther(q: Queue, past: seq<Serial>, newest: Option<Snapshot>, s: Step)
    requires Tracked(q, past, newest) && Enabled(q, s) && Calm(q, past, s) && !s.Enqueue?
    ensures Tracked(Take(q, s), past, newest)
  {
    SoundStep(q, s);
    assert q.writers == [q.writers[0]] && Without(q.writers, 0) == [];
  }

  predicate IsCalm(run: seq<Queue>, steps: seq<Step>, past: seq<seq<Serial>>)
    requires IsRun(run, steps)
  {
    && |past| == |run| && past[0] == (if run[0].written.Some? then [run[0].written.value] else []) && !run[0].stopped
    && forall k :: 0 <= k < |steps| ==> Calm(run[k], past[k], steps[k]) && past[k + 1] == Seen(past[k], steps[k])
  }

  /** The snapshot enqueued last among the first k steps. */
  function LastEnqueued(steps: seq<Step>, k: nat): Option<Snapshot>
    requires k <= |steps|
  {
    if k == 0 then None else Newest(LastEnqueued(steps, k - 1), steps[k - 1])
  }

  lemma {:induction false} RunIsTracked(run: seq<Queue>, steps: seq<Step>, past: seq<seq<Serial>>, k: nat)
    requires IsRun(run, steps) && AvoidsGap(run, steps) && IsCalm(run, steps, past) && k < |run|
    ensures Tracked(run[k], past[k], LastEnqueued(steps, k))
  {
    if k > 0 {
      RunIsTracked(run, steps, past, k - 1);
      var q, s := run[k - 1], steps[k - 1];
      assert run[k - 1 + 1] == Take(q, s) && past[k - 1 + 1] == Seen(past[k - 1], s);
      if s.Enqueue? {
        TrackedEnqueue(q, past[k - 1], LastEnqueued(steps, k - 1), s.snap);
      } else {
        TrackedOther(q, past[k - 1], LastEnqueued(steps, k - 1), s);
      }
    }
  }

  /** Whenever such a run comes to rest, the snapshot enqueued last is the one stored. */
  lemma LastSnapshotIsStored(run: seq<Queue>, steps: seq<Step>, past: seq<seq<Serial>>, k: nat)
    requires IsRun(run, steps) && AvoidsGap(run, steps) && IsCalm(run, steps, past) && k < |run|
    requires run[k].writers == [] && LastEnqueued(steps, k).Some?
    ensures run[k].stored == LastEnqueued(steps, k)
  {
    RunIsTracked(run, steps, past, k);
  }

  // ---------------------------------------------------------------- closing

  /** How many writers are writing to the store. */
  function Savings(ws: seq<Writer>): nat {
    if ws == [] then 0 else (if ws[0].Saving? then 1 else 0) + Savings(ws[1..])
  }

  lemma {:induction false} SavingsConcat(a: seq<Writer>, b: seq<Writer>)
    ensures Savings(a + b) == Savings(a) + Savings(b)
  {
    if a == [] {
      assert [] + b == b;
    } else {
      assert (a + b)[1..] == a[1..] + b;
      SavingsConcat(a[1..], b);
    }
  }

  lemma SavingsAt(ws: seq<Writer>, w: nat, x: Writer)
    requires w < |ws|
    ensures Savings(ws) == Savings(Without(ws, w)) + if ws[w].Saving? then 1 else 0
    ensures Savings(ws[w := x]) == Savings(Without(ws, w)) + if x.Saving? then 1 else 0
  {
    var a, b := ws[..w], ws[w + 1..];
    assert ws == a + ([ws[w]] + b) && ws[w := x] == a + ([x] + b);
    SavingsConcat(a, b);
    SavingsConcat(a, [ws[w]] + b);
    SavingsConcat(a, [x] + b);
    assert ([ws[w]] + b)[1..] == b && ([x] + b)[1..] == b;
  }

  lemma StoppedStep(q: Queue, s: Step)
    requires q.stopped && Enabled(q, s)
    ensures var q' := Take(q, s);
            q'.stopped && |q'.saves| + Savings(q'.writers) <= |q.saves| + Savings(q.writers)
  {
    match s
    case Enqueue(snap) => SavingsConcat(q.writers, [Starting(snap)]);
    case Close =>
    case Begin(w) => SavingsAt(q.writers, w, q.writers[w]);
    case Save(w, ok) => SavingsAt(q.writers, w, Returned(q.writers[w].snap, ok));
    case Tail(w) => SavingsAt(q.writers, w, Finishing);
    case Finish(w) =>
      SavingsAt(q.writers, w, q.writers[w]);
      if q.pending.Some? {
        SavingsConcat(Without(q.writers, w), [Starting(q.pending.value)]);
      }
  }

  /** Over every interleaving whatsoever, the gap included: once the queue is closed, nothing
      is saved but what was being written at that moment. */
  lemma {:induction false} ClosedSavesNothingNew(run: seq<Queue>, steps: seq<Step>, i: nat, k: nat)
    requires IsRun(run, steps) && i <= k < |run| && run[i].stopped
    ensures run[k].stopped && |run[k].saves| + Savings(run[k].writers) <= |run[i].saves| + Savings(run[i].writers)
    decreases k
  {
    if i < k {
      ClosedSavesNothingNew(run, steps, i, k - 1);
      assert run[k - 1 + 1] == Take(run[k - 1], steps[k - 1]);
      StoppedStep(run[k - 1], steps[k - 1]);
    }
  }

  // ---------------------------------------------------------------- what the gap can do

  const FIRST := Snapshot(1, "first")
  const SECOND := Snapshot(2, "second")
  const THIRD := Snapshot(3, "third")

  const IDLE := Queue(false, None, None, [], None, [], false)

  /** The state after the given steps; None when one of them cannot be taken. */
  function After(q: Queue, steps: seq<Step>): Option<Queue>
    decreases |steps|
  {
    if steps == [] then Some(q)
    else if !Enabled(q, steps[0]) then None
    else After(Take(q, steps[0]), steps[1..])
  }

  lemma {:induction false} AfterConcat(q: Queue, a: seq<Step>, b: seq<Step>)
    requires After(q, a).Some?
    ensures After(q, a + b) == After(After(q, a).value, b)
    decreases |a|
  {
    if a == [] {
      assert [] + b == b;
    } else {
      assert (a + b)[1..] == a[1..] + b;
      AfterConcat(Take(q, a[0]), a[1..], b);
    }
  }

  const INTO_GAP := [Enqueue(FIRST), Begin(0), Save(0, true), Tail(0), Enqueue(SECOND)]
  const TWO_WRITERS := [Finish(0), Enqueue(THIRD), Begin(0), Begin(1), Save(1, true)]
  const OLD_ONE_LAST := [Save(0, true), Tail(1), Finish(1), Tail(0), Finish(0)]

  const GAP := Queue(true, None, Some(1), [Finishing, Starting(SECOND)], Some(FIRST), [1], false)
  const RACE := Queue(true, None, Some(1), [Saving(SECOND), Returned(THIRD, true)], Some(THIRD), [1, 3], false)
  const REST := Queue(false, None, Some(2), [], Some(SECOND), [1, 3, 2], false)

  /** Three snapshots, each newer than the one before, every save successful: the second
      is enqueued in the gap, two writers come to run at once, the older save lands last,
      and the queue comes to rest with the second snapshot stored over the third. */
  lemma GapOverwritesNewest()
    ensures After(IDLE, INTO_GAP) == Some(GAP)
    ensures After(IDLE, INTO_GAP + TWO_WRITERS) == Some(RACE)
    ensures After(IDLE, INTO_GAP + TWO_WRITERS + OLD_ONE_LAST) == Some(REST)
    ensures !OneWriter(GAP) && !Forward(REST.saves) && Less(FIRST.serial, SECOND.serial) && Less(SECOND.serial, THIRD.serial)
  {
    IntoGap();
    FromGapToRace();
    FromRaceToRest();
    AfterConcat(IDLE, INTO_GAP, TWO_WRITERS);
    AfterConcat(IDLE, INTO_GAP + TWO_WRITERS, OLD_ONE_LAST);
    assert REST.saves[1] == 3 && REST.saves[2] == 2;
    assert !Less(REST.saves[1], REST.saves[1 + 1]);
  }

  lemma IntoGap()
    ensures After(IDLE, INTO_GAP) == Some(GAP)
  {
    var q1 := Take(IDLE, Enqueue(FIRST));
    assert q1 == IDLE.(writing := true, writers := [Starting(FIRST)]);
    var q2 := Take(q1, Begin(0));
    assert q2 == q1.(writers := [Saving(FIRST)]);
    var q3 := Take(q2, Save(0, true));
    assert q3 == q2.(stored := Some(FIRST), saves := [1], writers := [Returned(FIRST, true)]);
    var q4 := Take(q3, Tail(0));
    assert q4 == q3.(writing := false, written := Some(1), writers := [Finishing]);
    assert Take(q4, Enqueue(SECOND)) == GAP;
    Unroll(IDLE, INTO_GAP, q1, q2, q3, q4, GAP);
  }

  lemma FromGapToRace()
    ensures After(GAP, TWO_WRITERS) == Some(RACE)
  {
    var q1 := Take(GAP, Finish(0));
    assert q1 == GAP.(writing := false, writers := [Starting(SECOND)]);
    var q2 := Take(q1, Enqueue(THIRD));
    assert q2 == q1.(writing := true, writers := [Starting(SECOND), Starting(THIRD)]);
    var q3 := Take(q2, Begin(0));
    assert q3 == q2.(writers := [Saving(SECOND), Starting(THIRD)]);
    var q4 := Take(q3, Begin(1));
    assert q4 == q3.(writers := [Saving(SECOND), Saving(THIRD)]);
    assert Take(q4, Save(1, true)) == RACE;
    Unroll(GAP, TWO_WRITERS, q1, q2, q3, q4, RACE);
  }

  lemma FromRaceToRest()
    ensures After(RACE, OLD_ONE_LAST) == Some(REST)
  {
    var q1 := Take(RACE, Save(0, true));
    assert q1 == RACE.(stored := Some(SECOND), saves := [1, 3, 2], writers := [Returned(SECOND, true), Returned(THIRD, true)]);
    var q2 := Take(q1, Tail(1));
    assert q2 == q1.(writing := false, written := Some(3), writers := [Returned(SECOND, true), Finishing]);
    var q3 := Take(q2, Finish(1));
    assert q3 == q2.(writers := [Returned(SECOND, true)]);
    var q4 := Take(q3, Tail(0));
    assert q4 == q3.(written := Some(2), writers := [Finishing]);
    assert Take(q4, Finish(0)) == REST;
    Unroll(RACE, OLD_ONE_LAST, q1, q2, q3, q4, REST);
  }

  lemma Unroll(q0: Queue, s: seq<Step>, q1: Queue, q2: Queue, q3: Queue, q4: Queue, q5: Queue)
    requires |s| == 5
    requires Enabled(q0, s[0]) && q1 == Take(q0, s[0]) && Enabled(q1, s[1]) && q2 == Take(q1, s[1])
    requires Enabled(q2, s[2]) && q3 == Take(q2, s[2]) && Enabled(q3, s[3]) && q4 == Take(q3, s[3])
    requires Enabled(q4, s[4]) && q5 == Take(q4, s[4])
    ensures After(q0, s) == Some(q5)
  {
    assert s[1..][1..] == s[2..] && s[2..][1..] == s[3..] && s[3..][1..] == s[4..] && s[4..][1..] == [];
    assert After(q4, s[4..]) == Some(q5);
    assert After(q3, s[3..]) == Some(q5);
    assert After(q2, s[2..]) == Some(q5);
    assert After(q1, s[1..]) == Some(q5);
  }
}
