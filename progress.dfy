/** The boss's progress accounting: how much work there is in total, how
    much has been sent to the destination doer, and how much the doer has
    reported done through the progress markers it echoes back. */
module BossProgress {
  import opened Wrappers
  import opened ProgressCost

  /** The minimum amount of work between two progress markers. */
  const MarkerThreshold: nat := 0x10_0000  // 1024 * 1024

  /** A point in time. Only whether one has been recorded, and which one
      (as given by the caller), matters here. */
  datatype Instant = Instant(ticks: nat)

  /** How far the doer has got: deleting, copying, or finished. The entry ID
      is the one about to be processed. */
  datatype ProgressPhase =
    | Deleting(numEntriesDeleted: nat, currentEntryId: Option<nat>)
    | Copying(numEntriesCopied: nat, numBytesCopied: nat, currentEntryId: Option<nat>)
    | Done

  /** A marker sent to the doer and echoed back when reached. */
  datatype ProgressMarker = ProgressMarker(completedWork: nat, phase: ProgressPhase)
  {
    /** Every number in the marker is within its type (u64 for work and
        bytes, u32 for counts and entry IDs). */
    predicate Fits() {
      && completedWork < U64Limit
      && match phase
         case Deleting(n, id) => n < U32Limit && IdFits(id)
         case Copying(n, b, id) => n < U32Limit && b < U64Limit && IdFits(id)
         case Done => true
    }
  }

  predicate IdFits(id: Option<nat>) {
    id.Some? ==> id.value < U32Limit
  }

  /** The fields of Progress that the accounting reads and writes. */
  datatype Snapshot = Snapshot(
    total: ProgressValues,
    sent: ProgressValues,
    completed: ProgressValues,
    lastProgressMarker: nat,
    firstCopyTime: Option<Instant>,
    currentEntryId: Option<nat>)
  {
    /** The fields keep within their types, and the work sent when the last
        marker went out is never more than the work sent now, so the u64
        subtraction that spaces markers cannot underflow. */
    predicate Valid() {
      && total.Fits() && sent.Fits() && completed.Fits()
      && lastProgressMarker <= sent.work
      && IdFits(currentEntryId)
    }
  }

  /** The state right after construction. */
  const Initial := Snapshot(Zero, Zero, Zero, 0, None, None)

  /** Enough work has been sent since the last marker for a new one. */
  predicate MarkerDue(s: Snapshot): (r: bool)
    ensures r <==> s.sent.work >= s.lastProgressMarker + MarkerThreshold
    ensures r ==> s.lastProgressMarker < s.sent.work
  {
    s.sent.work - s.lastProgressMarker >= MarkerThreshold
  }

  /** The marker that `get_progress_marker` sends: it records the work sent
      so far and is in the Deleting phase exactly while deletes remain to be
      sent; it is never Done. */
  function MarkerFor(sent: ProgressValues, total: ProgressValues, id: Option<nat>): (r: ProgressMarker)
    ensures r.completedWork == sent.work
    ensures r.phase.Deleting? <==> sent.delete < total.delete
    ensures r.phase.Copying? <==> sent.delete >= total.delete
    ensures r.phase.Deleting? ==> r.phase.numEntriesDeleted == sent.delete && r.phase.currentEntryId == id
    ensures r.phase.Copying? ==>
              && r.phase.numEntriesCopied == sent.copy
              && r.phase.numBytesCopied == sent.copyBytes
              && r.phase.currentEntryId == id
  {
    if sent.delete < total.delete then
      ProgressMarker(sent.work, Deleting(sent.delete, id))
    else
      ProgressMarker(sent.work, Copying(sent.copy, sent.copyBytes, id))
  }

  /** A marker that the doer has just started copying. */
  predicate StartsCopying(m: ProgressMarker) {
    m.phase.Copying? && m.phase.numEntriesCopied == 0
  }

  /** `update_completed` on the accounting fields. The completed work is
      always the marker's; a Deleting marker changes only the completed
      deletes and the current entry, a Copying marker only the completed
      copies and bytes and the current entry, and a Done marker nothing
      else. The first-copy time is recorded once, by the first marker that
      starts copying. */
  function AfterMarker(s: Snapshot, m: ProgressMarker, now: Instant): (r: Snapshot)
    ensures r.total == s.total && r.sent == s.sent && r.lastProgressMarker == s.lastProgressMarker
    ensures r.completed.work == m.completedWork
    ensures r.completed.delete == (if m.phase.Deleting? then m.phase.numEntriesDeleted else s.completed.delete)
    ensures r.completed.copy == (if m.phase.Copying? then m.phase.numEntriesCopied else s.completed.copy)
    ensures r.completed.copyBytes == (if m.phase.Copying? then m.phase.numBytesCopied else s.completed.copyBytes)
    ensures r.currentEntryId == (if m.phase.Done? then s.currentEntryId else m.phase.currentEntryId)
    ensures r.firstCopyTime != s.firstCopyTime <==> s.firstCopyTime.None? && StartsCopying(m)
    ensures r.firstCopyTime != s.firstCopyTime ==> r.firstCopyTime == Some(now)
    ensures s.Valid() && m.Fits() ==> r.Valid()
  {
    var c := s.completed.(work := m.completedWork);
    match m.phase
    case Deleting(n, id) =>
      s.(completed := c.(delete := n), currentEntryId := id)
    case Copying(n, b, id) =>
      var t := if s.firstCopyTime.None? && n == 0 then Some(now) else s.firstCopyTime;
      s.(completed := c.(copy := n, copyBytes := b), currentEntryId := id, firstCopyTime := t)
    case Done =>
      s.(completed := c)
  }

  // Properties relating several operations.

  /** After a marker goes out, the next one is due exactly when at least
      MarkerThreshold more work has been sent. */
  lemma MarkerSpacing(s: Snapshot, v: ProgressValues)
    ensures MarkerDue(s.(lastProgressMarker := s.sent.work).(sent := s.sent.Add(v)))
            <==> v.work >= MarkerThreshold
  {
  }

  /** When the doer echoes a marker back, the completed counters take the
      values the sent counters had when it went out. */
  lemma EchoRecordsSent(s: Snapshot, id: Option<nat>, now: Instant)
    ensures var t := AfterMarker(s, MarkerFor(s.sent, s.total, id), now);
      && t.completed.work == s.sent.work
      && t.currentEntryId == id
      && (s.sent.delete < s.total.delete ==> t.completed.delete == s.sent.delete)
      && (s.sent.delete >= s.total.delete ==>
            t.completed.copy == s.sent.copy && t.completed.copyBytes == s.sent.copyBytes)
  {
  }

  /** Once everything has been sent and the Done marker comes back, all of
      the total work is completed. */
  lemma DoneCompletesAllWork(s: Snapshot, now: Instant)
    requires s.total == s.sent
    ensures AfterMarker(s, ProgressMarker(s.sent.work, Done), now).completed.work == s.total.work
  {
  }

  /** The state after the doer echoes `events` back in order, each with the
      time at which it arrives. */
  function Replay(s: Snapshot, events: seq<(ProgressMarker, Instant)>): Snapshot
    decreases |events|
  {
    if events == [] then s
    else Replay(AfterMarker(s, events[0].0, events[0].1), events[1..])
  }

  /** The index of the first event that starts copying. */
  function FirstCopyStart(events: seq<(ProgressMarker, Instant)>): (r: Option<nat>)
    ensures r.None? <==> forall i :: 0 <= i < |events| ==> !StartsCopying(events[i].0)
    ensures r.Some? ==> r.value < |events| && StartsCopying(events[r.value].0)
    ensures r.Some? ==> forall i :: 0 <= i < r.value ==> !StartsCopying(events[i].0)
    decreases |events|
  {
    if events == [] then None
    else if StartsCopying(events[0].0) then Some(0)
    else
      var r := FirstCopyStart(events[1..]);
      assert forall i :: 1 <= i < |events| ==> events[i] == events[1..][i - 1];
      match r
      case None => None
      case Some(k) => Some(k + 1)
  }

  /** A recorded first-copy time is never replaced. */
  lemma {:induction false} FirstCopyTimeKept(s: Snapshot, events: seq<(ProgressMarker, Instant)>)
    requires s.firstCopyTime.Some?
    ensures Replay(s, events).firstCopyTime == s.firstCopyTime
    decreases |events|
  {
    if events != [] {
      FirstCopyTimeKept(AfterMarker(s, events[0].0, events[0].1), events[1..]);
    }
  }

  /** Starting with no first-copy time, the one recorded is the arrival
      time of the first marker that starts copying, and there is none when
      no marker does. */
  lemma {:induction false} FirstCopyTimeOfFirstStart(s: Snapshot, events: seq<(ProgressMarker, Instant)>)
    requires s.firstCopyTime.None?
    ensures Replay(s, events).firstCopyTime ==
              match FirstCopyStart(events)
              case None => None
              case Some(i) => Some(events[i].1)
    decreases |events|
  {
    if events != [] {
      var t := AfterMarker(s, events[0].0, events[0].1);
      if StartsCopying(events[0].0) {
        FirstCopyTimeKept(t, events[1..]);
      } else {
        FirstCopyTimeOfFirstStart(t, events[1..]);
        match FirstCopyStart(events[1..])
        case None =>
        case Some(k) => assert events[1..][k] == events[k + 1];
      }
    }
  }

  /** The boss-side progress state. The progress bar, the background
      thread that redraws it and the entry-name lists are not modelled; the
      calls into them are no-ops. */
  class Progress {
    var total: ProgressValues
    var sent: ProgressValues
    var completed: ProgressValues
    var lastProgressMarker: nat
    var firstCopyTime: Option<Instant>
    var currentEntryId: Option<nat>

    function State(): Snapshot
      reads this
    {
      Snapshot(total, sent, completed, lastProgressMarker, firstCopyTime, currentEntryId)
    }

    ghost predicate Valid()
      reads this
    {
      State().Valid()
    }

    /** The initial counters of `Progress::new`. */
    constructor()
      ensures Valid()
      ensures State() == Initial
    {
      total := Zero;
      sent := Zero;
      completed := Zero;
      lastProgressMarker := 0;
      firstCopyTime := None;
      currentEntryId := None;
    }

    /** `inc_total_for_delete`. */
    method IncTotalForDelete(e: EntryDetails)
      requires Valid()
      requires total.Add(ForDelete(e)).Fits()
      modifies this
      ensures Valid()
      ensures State() == old(State()).(total := old(total).Add(ForDelete(e)))
    {
      total := total.Add(ForDelete(e));
    }

    /** `dec_total_for_delete`. */
    method DecTotalForDelete(e: EntryDetails)
      requires Valid()
      requires total.Covers(ForDelete(e))
      modifies this
      ensures Valid()
      ensures State() == old(State()).(total := old(total).Sub(ForDelete(e)))
    {
      total := total.Sub(ForDelete(e));
    }

    /** `inc_total_for_copy`. */
    method IncTotalForCopy(e: EntryDetails)
      requires Valid()
      requires total.Add(ForCopy(e)).Fits()
      modifies this
      ensures Valid()
      ensures State() == old(State()).(total := old(total).Add(ForCopy(e)))
    {
      total := total.Add(ForCopy(e));
    }

    /** `dec_total_for_copy`. */
    method DecTotalForCopy(e: EntryDetails)
      requires Valid()
      requires total.Covers(ForCopy(e))
      modifies this
      ensures Valid()
      ensures State() == old(State()).(total := old(total).Sub(ForCopy(e)))
    {
      total := total.Sub(ForCopy(e));
    }

    /** `get_progress_marker`: remembers the work sent so far and returns
      the marker for it. The caller must not have sent more deletes or
      copies than the totals hold. */
    method GetProgressMarker(id: Option<nat>) returns (m: ProgressMarker)
      requires Valid()
      requires sent.delete <= total.delete && sent.copy <= total.copy
      modifies this
      ensures Valid()
      ensures m == MarkerFor(old(sent), old(total), id)
      ensures State() == old(State()).(lastProgressMarker := old(sent.work))
    {
      lastProgressMarker := sent.work;
      if sent.delete < total.delete {
        m := ProgressMarker(sent.work, Deleting(sent.delete, id));
      } else {
        m := ProgressMarker(sent.work, Copying(sent.copy, sent.copyBytes, id));
      }
    }

    /** `get_progress_marker_limited`: no marker, and no change, until
      enough work has been sent since the last one. */
    method GetProgressMarkerLimited(id: Option<nat>) returns (r: Option<ProgressMarker>)
      requires Valid()
      requires MarkerDue(State()) ==> sent.delete <= total.delete && sent.copy <= total.copy
      modifies this
      ensures Valid()
      ensures !MarkerDue(old(State())) ==> r.None? && State() == old(State())
      ensures MarkerDue(old(State())) ==>
                && r == Some(MarkerFor(old(sent), old(total), id))
                && State() == old(State()).(lastProgressMarker := old(sent.work))
    {
      var since: nat := sent.work - lastProgressMarker;
      if since < MarkerThreshold {
        return None;
      }
      var m := GetProgressMarker(id);
      r := Some(m);
    }

    /** `delete_sent`. */
    method DeleteSent(e: EntryDetails)
      requires Valid()
      requires sent.Add(ForDelete(e)).Fits()
      modifies this
      ensures Valid()
      ensures State() == old(State()).(sent := old(sent).Add(ForDelete(e)))
    {
      sent := sent.Add(ForDelete(e));
    }

    /** `copy_sent`. */
    method CopySent(e: EntryDetails)
      requires Valid()
      requires sent.Add(ForCopy(e)).Fits()
      modifies this
      ensures Valid()
      ensures State() == old(State()).(sent := old(sent).Add(ForCopy(e)))
    {
      sent := sent.Add(ForCopy(e));
    }

    /** `copy_sent_partial`: the end of the chunk is computed in u64. */
    method CopySentPartial(chunkStart: nat, chunkSize: nat, fileSize: nat)
      requires Valid()
      requires chunkStart + chunkSize < U64Limit
      requires sent.Add(ForCopyPartial(chunkStart, chunkSize, fileSize)).Fits()
      modifies this
      ensures Valid()
      ensures State() == old(State()).(sent := old(sent).Add(ForCopyPartial(chunkStart, chunkSize, fileSize)))
    {
      sent := sent.Add(ForCopyPartial(chunkStart, chunkSize, fileSize));
    }

    /** `all_work_sent`: once the sent counters have reached the totals,
      the Done marker for all of the work. */
    method AllWorkSent() returns (m: ProgressMarker)
      requires total == sent
      ensures m.phase.Done?
      ensures m.completedWork == total.work
    {
      m := ProgressMarker(sent.work, Done);
    }

    /** `update_completed`, with the current time as a parameter. */
    method UpdateCompleted(marker: ProgressMarker, now: Instant)
      requires Valid()
      requires marker.Fits()
      modifies this
      ensures Valid()
      ensures State() == AfterMarker(old(State()), marker, now)
    {
      completed := completed.(work := marker.completedWork);
      match marker.phase {
        case Deleting(n, id) =>
          completed := completed.(delete := n);
          currentEntryId := id;
        case Copying(n, b, id) =>
          if firstCopyTime.None? && n == 0 {
            firstCopyTime := Some(now);
          }
          completed := completed.(copy := n, copyBytes := b);
          currentEntryId := id;
        case Done =>
      }
    }
  }

  /** Counting an entry into the totals and then taking it out again leaves
      the progress state as it was, for copies and for deletes. */
  method IncThenDecRestores(p: Progress, e: EntryDetails)
    requires p.Valid()
    requires p.total.Add(ForCopy(e)).Add(ForDelete(e)).Fits()
    modifies p
    ensures p.Valid()
    ensures p.State() == old(p.State())
  {
    p.IncTotalForCopy(e);
    SubUndoesAdd(old(p.total), ForCopy(e));
    p.DecTotalForCopy(e);
    p.IncTotalForDelete(e);
    SubUndoesAdd(old(p.total), ForDelete(e));
    p.DecTotalForDelete(e);
  }
}
