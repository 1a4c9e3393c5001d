/**
 What resumable upload is for, proved of every network: the adversary of a run is any `Net`, so each
 theorem ranges over all broken connections, partial writes, refusals, lost answers, late handlers,
 closed tabs and unreadable files.
 */
module UploadTheorems {
  import opened Wrappers
  import opened UploadServer
  import opened UploadClient

  // ---- the progress bar ------------------------------------------------------------------------

  /** More bytes never show a smaller percentage, however floating-point results are rounded. */
  lemma PercentIsMonotone(fl: real -> real, a: nat, b: nat, size: nat)
    requires IsRounding(fl) && a <= b <= size && size > 0
    ensures 0 <= Percent(fl, a, size) <= Percent(fl, b, size) <= 100
  {
    var x, y := a as real / size as real, b as real / size as real;
    DivisionIsMonotone(0.0, a as real, size as real);
    DivisionIsMonotone(a as real, b as real, size as real);
    DivisionIsMonotone(b as real, size as real, size as real);
    assert 0.0 <= fl(x) <= fl(y) <= 1.0;
    assert 0.0 <= fl(fl(x) * 100.0) <= fl(fl(y) * 100.0) <= 100.0;
  }

  lemma DivisionIsMonotone(a: real, b: real, d: real)
    requires a <= b && d > 0.0
    ensures a / d <= b / d
    ensures 0.0 / d == 0.0 && d / d == 1.0
  {
  }

  /**
   Nothing sent shows 0, everything shows 100; and where floating-point results are exact, what is shown is the nearest
   whole percentage, halves up.
   */
  lemma PercentIsNearest(fl: real -> real, offset: nat, size: nat)
    requires IsRounding(fl) && offset <= size && size > 0
    ensures Percent(fl, 0, size) == 0 && Percent(fl, size, size) == 100
    ensures (forall x :: fl(x) == x) ==>
              var p := Percent(fl, offset, size) as real;
              p - 0.5 <= offset as real / size as real * 100.0 < p + 0.5
  {
    DivisionIsMonotone(0.0, size as real, size as real);
  }

  function Percentages(fl: real -> real, shown: seq<nat>, size: nat): seq<int> {
    seq(|shown|, i requires 0 <= i < |shown| => Percent(fl, shown[i], size))
  }

  predicate Ascending(numbers: seq<int>) {
    forall i, j :: 0 <= i < j < |numbers| ==> numbers[i] <= numbers[j]
  }

  // ---- the record of a run ---------------------------------------------------------------------

  /** Offsets shown so far never went down, and none is beyond where the client stands. */
  ghost predicate ShowsTheTruth(shown: seq<nat>, offset: nat) {
    Ascending(shown) && forall i :: 0 <= i < |shown| ==> shown[i] <= offset
  }

  predicate Misaligned(sent: Reply) {
    sent.Answer? && sent.status == 409 && !sent.NameTaken()
  }

  /** A PATCH that did not get through: no answer, or "not now". */
  predicate Failure(sent: Reply) {
    sent.NoAnswer? || TryAgainLater(sent.status)
  }

  /** Failures since the last chunk that got through; a realignment neither counts nor forgives. */
  function FailuresInARow(log: seq<Reply>): nat {
    if log == [] then 0
    else
      var last := log[|log| - 1];
      if last.Ok() then 0
      else FailuresInARow(log[..|log| - 1]) + if Failure(last) then 1 else 0
  }

  /** A header naming an offset the file has: a whole number from 0 up to the size. */
  predicate Usable(header: Option<HeaderNumber>, size: nat) {
    header.Some? && header.value.Finite? && IsSafeInteger(header.value.value) && 0.0 <= header.value.value <= size as real
  }

  /** An answer after which the loop goes on. */
  predicate GoesOn(sent: Reply, size: nat) {
    sent.Ok() || Failure(sent) || (Misaligned(sent) && Usable(sent.offset, size))
  }

  /** What holds of the record whenever the loop starts a turn. */
  ghost predicate RecordHolds(size: nat, st: State)
  {
    && ShowsTheTruth(st.record.shown, st.offset)
    && (forall i :: 0 <= i < |st.record.waits| ==> 0.0 < st.record.waits[i] <= RETRY_CEILING_MS)
    && (forall i :: 0 <= i < |st.record.log| ==> GoesOn(st.record.log[i], size))
    && (forall i :: 0 <= i <= |st.record.log| ==> FailuresInARow(st.record.log[..i]) <= BROKEN_CHUNK_RETRIES)
    && FailuresInARow(st.record.log) == st.broken
    && (st.offset >= size ==>
          && st.record.log != []
          && (st.session.published <==> st.record.log[|st.record.log| - 1].Ok()))
  }

  lemma LogGrows(log: seq<Reply>, sent: Reply)
    requires forall i :: 0 <= i <= |log| ==> FailuresInARow(log[..i]) <= BROKEN_CHUNK_RETRIES
    ensures FailuresInARow(log + [sent]) == if sent.Ok() then 0 else FailuresInARow(log) + if Failure(sent) then 1 else 0
    ensures FailuresInARow(log + [sent]) <= BROKEN_CHUNK_RETRIES ==>
              forall i :: 0 <= i <= |log| + 1 ==> FailuresInARow((log + [sent])[..i]) <= BROKEN_CHUNK_RETRIES
  {
    var all := log + [sent];
    assert all[..|log|] == log && all[|log|] == sent;
    assert FailuresInARow(all) == if sent.Ok() then 0 else FailuresInARow(all[..|log|]) + if Failure(sent) then 1 else 0;
    hide FailuresInARow;
    if FailuresInARow(all) <= BROKEN_CHUNK_RETRIES {
      forall i | 0 <= i <= |log| + 1 ensures FailuresInARow(all[..i]) <= BROKEN_CHUNK_RETRIES {
        assert all[..i] == if i <= |log| then log[..i] else all;
      }
    }
  }

  lemma TurnKeepsRecord(file: seq<byte>, location: nat, st: State, net: Net, n: nat)
    requires |file| > 0 && Ready(file, st) && RecordHolds(|file|, st)
    ensures var turn := SendChunk(file, location, st, net, n);
            turn.Go? ==> RecordHolds(|file|, turn.next)
  {
    hide SendChunk, FailuresInARow;
    var turn := SendChunk(file, location, st, net, n);
    if turn.Go? {
      var log, next := st.record.log, turn.next;
      TurnKeepsReady(file, location, st, net, n);
      TurnIsOneOfThree(file, location, st, net, n);
      var sent := next.record.log[|log|];
      LogGrows(log, sent);
      assert log[..|log|] == log;
      assert next.record.log == log + [sent];
    }
  }

  /** What holds of every finished run, whatever the network did. */
  ghost predicate RunHolds(file: seq<byte>, location: nat, run: Run) {
    var log := run.record.log;
    && ShowsTheTruth(run.record.shown, |file|)
    && (forall i :: 0 <= i < |run.record.waits| ==> 0.0 < run.record.waits[i] <= RETRY_CEILING_MS)
    // only the last answer can end the run, and it does so in its own way
    && (forall i :: 0 <= i < |log| - 1 ==> GoesOn(log[i], |file|))
    && (forall i :: 0 <= i < |log| ==> FailuresInARow(log[..i]) <= BROKEN_CHUNK_RETRIES)
    && (run.outcome.NameClash? <==> log != [] && log[|log| - 1].NameTaken())
    && (log != [] && Misaligned(log[|log| - 1]) && !Usable(log[|log| - 1].offset, |file|) ==>
          run.outcome == Failed(ServerRefused(409)))
    // a clash names this session, which holds every byte, although the answer carried the full offset
    && (run.outcome.NameClash? ==>
          && run.outcome.location == location
          && run.session.staged == file && run.session.recorded == |file| && !run.session.published
          && log[|log| - 1].offset == Some(Finite(|file| as real)))
    // a normal return means every byte is stored; it means a published file exactly after an OK
    && (run.outcome.Done? ==>
          && run.session.staged == file && run.session.recorded == |file|
          && log != []
          && (run.session.published <==> log[|log| - 1].Ok()))
  }

  /** After a clash the bytes are still in the staging file exactly when it was the agent that found the name held. */
  ghost predicate ClashHolds(run: Run, last: PatchFate) {
    run.outcome.NameClash? ==>
      && last.work.Kept?
      && (run.session.moved <==> last.work.publication.RowHeld?)
      && (!run.session.moved <==> last.work.publication.NameHeld?)
  }

  lemma AnswerEndsRun(file: seq<byte>, location: nat, st: State, end: nat, after: Session, sent: Reply, probe: HeadFate)
    requires |file| > 0 && Ready(file, st) && RecordHolds(|file|, st) && st.offset < end <= |file|
    requires Sound(after, file)
    requires sent.NameTaken() ==>
               && after.staged == file && after.recorded == |file| && !after.published
               && sent.offset == Some(Finite(|file| as real))
    requires Misaligned(sent) && sent.offset.Some? ==> sent.offset == Some(Finite(after.recorded as real))
    ensures var turn := TakeAnswer(|file|, location, st.broken, end, after, sent, st.record.Heard(sent), probe);
            && (turn.Stop? ==> RunHolds(file, location, turn.run))
            && (turn.Stop? && turn.run.outcome.NameClash? ==>
                  sent.NameTaken() && turn.run == Run(after, NameClash(location), st.record.Heard(sent)))
  {
    var log := st.record.log;
    ProbeResumes(after, file, probe);
    assert forall i :: 0 <= i <= |log| ==> (log + [sent])[..i] == log[..i];
    if sent.Answer? {
      HeaderRoundTrip(sent.code, after.recorded);
    }
  }

  lemma StopHolds(file: seq<byte>, location: nat, st: State, net: Net, n: nat)
    requires |file| > 0 && Ready(file, st) && RecordHolds(|file|, st)
    ensures var turn := SendChunk(file, location, st, net, n);
            && (turn.Stop? ==> RunHolds(file, location, turn.run) && ClashHolds(turn.run, net.patches(n)))
            && (turn.Stop? && turn.run.outcome.NameClash? ==> |turn.run.record.log| == |st.record.log| + 1)
  {
    hide Patch, TakeAnswer, RecordHolds, RunHolds;
    UntouchedRunHolds(file, location, st);
    if st.offset < |file| {
      var end := Min(st.offset + CHUNK_BYTES, |file|);
      var (after, sent) := Patch(st.session, st.offset, file[st.offset..end], net.patches(n));
      PatchKeepsSound(st.session, file, st.offset, end, net.patches(n));
      AnswersTellTheTruth(st.session, file, end, net.patches(n));
      AnswerEndsRun(file, location, st, end, after, sent, net.probes(n));
    }
  }

  /** A run that ends without another PATCH: at the end of the file, in a tab closed, or over a file that cannot be read. */
  lemma UntouchedRunHolds(file: seq<byte>, location: nat, st: State)
    requires |file| > 0 && Ready(file, st) && RecordHolds(|file|, st)
    ensures st.offset >= |file| ==> RunHolds(file, location, Run(st.session, Done, st.record))
    ensures RunHolds(file, location, Run(st.session, Abandoned, st.record))
    ensures RunHolds(file, location, Run(st.session, Failed(FileUnreadable), st.record))
  {
    hide FailuresInARow;
    var log := st.record.log;
    if log != [] {
      assert GoesOn(log[|log| - 1], |file|);
    }
    if st.offset >= |file| {
      assert st.session.staged == file;
    }
  }

  /** In a run that holds, every percentage is from 0 to 100 and none is smaller than the one before. */
  lemma RunShowsProgress(file: seq<byte>, location: nat, run: Run, fl: real -> real)
    requires |file| > 0 && RunHolds(file, location, run) && IsRounding(fl)
    ensures var percentages := Percentages(fl, run.record.shown, |file|);
            Ascending(percentages) && forall i :: 0 <= i < |percentages| ==> 0 <= percentages[i] <= 100
  {
    hide Percent, IsRounding;
    var shown := run.record.shown;
    forall i | 0 <= i < |shown| ensures 0 <= Percent(fl, shown[i], |file|) <= 100 {
      PercentIsMonotone(fl, shown[i], shown[i], |file|);
    }
    forall i, j | 0 <= i < j < |shown| ensures Percent(fl, shown[i], |file|) <= Percent(fl, shown[j], |file|) {
      PercentIsMonotone(fl, shown[i], shown[j], |file|);
    }
  }

  /** The loop, for every network. */
  lemma {:induction false} DriveHolds(file: seq<byte>, location: nat, st: State, net: Net, n: nat)
    requires |file| > 0 && Ready(file, st) && RecordHolds(|file|, st)
    ensures var run := Drive(file, location, st, net, n);
            && RunHolds(file, location, run)
            && Sound(run.session, file) && Extends(st.session, run.session)
    decreases Potential(|file|, st)
  {
    DriveUnfolds(file, location, st, net, n);
    TurnKeepsReady(file, location, st, net, n);
    hide SendChunk, Drive, RecordHolds, RunHolds, ClashHolds;
    var turn := SendChunk(file, location, st, net, n);
    if turn.Stop? {
      StopHolds(file, location, st, net, n);
    } else {
      TurnKeepsRecord(file, location, st, net, n);
      DriveHolds(file, location, turn.next, net, n + 1);
    }
  }

  /** The same of a whole run: the answer to its k-th PATCH is the k-th of its log, `base` turns on. */
  ghost predicate ClashTold(run: Run, net: Net, base: int) {
    run.outcome.NameClash? ==>
      0 < base + |run.record.log| && ClashHolds(run, net.patches(base + |run.record.log| - 1))
  }

  lemma {:induction false} DriveClashHolds(file: seq<byte>, location: nat, st: State, net: Net, n: nat)
    requires |file| > 0 && Ready(file, st) && RecordHolds(|file|, st)
    ensures ClashTold(Drive(file, location, st, net, n), net, n - |st.record.log|)
    decreases Potential(|file|, st)
  {
    hide SendChunk, Drive, RecordHolds, ClashTold;
    DriveUnfolds(file, location, st, net, n);
    var turn := SendChunk(file, location, st, net, n);
    if turn.Go? {
      TurnKeepsRecord(file, location, st, net, n);
      LogGrowsByOne(file, location, st, net, n);
      DriveClashHolds(file, location, turn.next, net, n + 1);
      assert n + 1 - |turn.next.record.log| == n - |st.record.log|;
    } else {
      StopClashTold(file, location, st, net, n);
    }
  }

  lemma StopClashTold(file: seq<byte>, location: nat, st: State, net: Net, n: nat)
    requires |file| > 0 && Ready(file, st) && RecordHolds(|file|, st)
    ensures var turn := SendChunk(file, location, st, net, n);
            turn.Stop? ==> ClashTold(turn.run, net, n - |st.record.log|)
  {
    hide SendChunk, RecordHolds, RunHolds, ClashHolds, Sound;
    StopHolds(file, location, st, net, n);
    var turn := SendChunk(file, location, st, net, n);
    if turn.Stop? && turn.run.outcome.NameClash? {
      assert n - |st.record.log| + |turn.run.record.log| - 1 == n;
    }
  }

  lemma LogGrowsByOne(file: seq<byte>, location: nat, st: State, net: Net, n: nat)
    requires Ready(file, st)
    ensures var turn := SendChunk(file, location, st, net, n);
            turn.Go? ==> |turn.next.record.log| == |st.record.log| + 1
  {
    TurnIsOneOfThree(file, location, st, net, n);
  }

  function Failures(log: seq<Reply>): nat {
    if log == [] then 0 else Failures(log[..|log| - 1]) + if Failure(log[|log| - 1]) then 1 else 0
  }

  lemma FailuresGrow(log: seq<Reply>, sent: Reply)
    ensures Failures(log + [sent]) == Failures(log) + if Failure(sent) then 1 else 0
  {
    assert (log + [sent])[..|log|] == log;
  }

  /** A turn sends one PATCH at most, and asks where the server stands only after a failed one. */
  lemma TurnAsks(file: seq<byte>, location: nat, st: State, net: Net, n: nat)
    requires Ready(file, st)
    ensures var turn := SendChunk(file, location, st, net, n);
            var record := if turn.Go? then turn.next.record else turn.run.record;
            && st.record.heads <= record.heads
            && (record.log == st.record.log ==> record.heads == st.record.heads)
            && (record.log != st.record.log ==>
                  && |record.log| == |st.record.log| + 1
                  && record.log == st.record.log + [record.log[|st.record.log|]]
                  && record.heads <= st.record.heads + if Failure(record.log[|st.record.log|]) then 1 else 0)
  {
    hide Patch, Probe, ReadConflict, BackoffMs;
  }

  /** The loop asks where the server stands at most once for every failed PATCH. */
  lemma {:induction false} DriveAsks(file: seq<byte>, location: nat, st: State, net: Net, n: nat)
    requires Ready(file, st)
    ensures var run := Drive(file, location, st, net, n);
            run.record.heads - st.record.heads <= Failures(run.record.log) - Failures(st.record.log)
    decreases Potential(|file|, st)
  {
    DriveUnfolds(file, location, st, net, n);
    TurnAsks(file, location, st, net, n);
    hide Drive, SendChunk, Failures;
    var turn := SendChunk(file, location, st, net, n);
    var record := if turn.Go? then turn.next.record else turn.run.record;
    if record.log != st.record.log {
      FailuresGrow(st.record.log, record.log[|st.record.log|]);
    }
    if turn.Go? {
      DriveAsks(file, location, turn.next, net, n + 1);
    }
  }

  /**
   How many PATCHes a run can cost: seven for a chunk, one more when the staging file was ahead of the row; and never
   more pauses than PATCHes.
   */
  lemma {:induction false} DriveRequests(file: seq<byte>, location: nat, st: State, net: Net, n: nat)
    requires |file| > 0 && Ready(file, st)
    ensures var run := Drive(file, location, st, net, n);
            && |run.record.log| <= |st.record.log| + (if st.offset < |file| then Potential(|file|, st) - 6 else 0)
            && |st.record.log| <= |run.record.log|
            && |run.record.waits| - |st.record.waits| <= |run.record.log| - |st.record.log|
    decreases Potential(|file|, st)
  {
    DriveUnfolds(file, location, st, net, n);
    TurnIsOneOfThree(file, location, st, net, n);
    hide SendChunk, Drive;
    var turn := SendChunk(file, location, st, net, n);
    if turn.Go? {
      DriveRequests(file, location, turn.next, net, n + 1);
    } else {
      StopCostsOne(file, location, st, net, n);
    }
  }

  lemma StopCostsOne(file: seq<byte>, location: nat, st: State, net: Net, n: nat)
    requires Ready(file, st)
    ensures var turn := SendChunk(file, location, st, net, n);
            turn.Stop? ==>
              && |st.record.log| <= |turn.run.record.log| <= |st.record.log| + (if st.offset < |file| then 1 else 0)
              && |turn.run.record.waits| - |st.record.waits| <= |turn.run.record.log| - |st.record.log|
  {
    hide Patch, Probe, ReadConflict, BackoffMs;
  }

  lemma {:induction false} FailuresAtMost(log: seq<Reply>)
    ensures Failures(log) <= |log|
  {
    if log != [] {
      FailuresAtMost(log[..|log| - 1]);
    }
  }

  // ---- a failed PATCH -------------------------------------------------------------------------

  /**
   A failed PATCH is followed up exactly when it is at most the third in a row, the server answers, and it has
   recorded something but not everything. So a first chunk that breaks is not retried: nothing is recorded yet.
   */
  lemma FailureIsFollowedUpIff(file: seq<byte>, location: nat, st: State, net: Net, n: nat)
    requires Ready(file, st) && st.offset < |file| && net.tab(n).Reads?
    requires Failure(Patch(st.session, st.offset, file[st.offset..Min(st.offset + CHUNK_BYTES, |file|)], net.patches(n)).1)
    ensures var left := Patch(st.session, st.offset, file[st.offset..Min(st.offset + CHUNK_BYTES, |file|)], net.patches(n)).0;
            SendChunk(file, location, st, net, n).Go? <==>
              && st.broken < BROKEN_CHUNK_RETRIES
              && net.probes(n).answer.HeadOk?
              && 0 < Settle(left, net.probes(n).late).recorded < |file|
  {
    var end := Min(st.offset + CHUNK_BYTES, |file|);
    var (left, sent) := Patch(st.session, st.offset, file[st.offset..end], net.patches(n));
    PatchKeepsSound(st.session, file, st.offset, end, net.patches(n));
    ProbeResumes(left, file, net.probes(n));
  }

  /** A first chunk cut off on the wire ends the upload, although three more tries are allowed and HEAD answers. */
  lemma FirstBreakIsFinal(file: seq<byte>, location: nat, kept: nat)
    requires |file| > 0
    ensures var net := FirstChunkBreaks(kept);
            Drive(file, location, State(0, 0, Fresh(|file|), Record([], [], 0, [])), net, 0).outcome == Failed(NetworkError)
  {
  }

  function FirstChunkBreaks(kept: nat): Net {
    Net(HeadFate(Still, HeadOk), n => PostCreated(true), n => Reads,
        n => if n == 0 then PatchFate(Still, Torn(kept, None), false) else PatchFate(Still, Kept(Publishes), false),
        n => HeadFate(Still, HeadOk))
  }

  // ---- whole runs ------------------------------------------------------------------------------

  /** Which session a run sent its chunks to: the remembered one, or the one it opened last. */
  function SentTo(file: seq<byte>, w: World, net: Net): nat
    requires WorldSound(file, w)
  {
    if Recall(file, w, net).1.Some? then w.memory.value else |w.sessions|
  }

  /**
   One upload, for every network. The sessions stay sound and only grow; a normal return means the session it
   used holds the whole file; it has published it exactly when the last PATCH was answered with an OK; a clash
   means that the last PATCH was answered "name taken", and names the session that holds the whole file, in its
   staging file exactly when it was the agent that found the name held.
   */
  lemma UploadHolds(file: seq<byte>, w: World, net: Net)
    requires WorldSound(file, w)
    ensures var report := Upload(file, w, net);
            var at := SentTo(file, w, net);
            var log := report.record.log;
            && WorldSound(file, report.world)
            && |w.sessions| <= |report.world.sessions|
            && (forall i :: 0 <= i < |w.sessions| ==> Extends(w.sessions[i], report.world.sessions[i]))
            && (log != [] || report.outcome.Done? || report.outcome.NameClash? ==>
                  && at < |report.world.sessions|
                  && RunHolds(file, at, Run(report.world.sessions[at], report.outcome, report.record)))
            && (report.outcome.NameClash? ==>
                  ClashTold(Run(report.world.sessions[at], report.outcome, report.record), net, 0))
  {
    hide ClashTold;
    if |file| > 0 {
      RecallIsSound(file, w, net);
      var (recalled, where) := Recall(file, w, net);
      if where.Some? {
        SendHolds(file, recalled, recalled.memory.value, where.value, Record([where.value], [], 1, []), 0, net);
        SendClashHolds(file, recalled, recalled.memory.value, where.value, Record([where.value], [], 1, []), 0, net);
      } else {
        OpenIsSound(file, recalled, net, 1);
        var opening := Open(|file|, recalled, net, 1);
        if opening.at.Some? {
          var record := Record([], opening.waits, if w.memory.Some? then 1 else 0, []);
          SendHolds(file, opening.world, opening.at.value, 0, record, opening.posts, net);
          SendClashHolds(file, opening.world, opening.at.value, 0, record, opening.posts, net);
        }
      }
    }
  }

  lemma SendHolds(file: seq<byte>, w: World, at: nat, offset: nat, record: Record, posts: nat, net: Net)
    requires |file| > 0 && WorldSound(file, w) && at < |w.sessions|
    requires Ready(file, State(offset, 0, w.sessions[at], record)) && offset < |file|
    requires (record.shown == [] || record.shown == [offset]) && record.log == []
    requires forall i :: 0 <= i < |record.waits| ==> 0.0 < record.waits[i] <= RETRY_CEILING_MS
    ensures var report := Send(file, w, at, offset, record, posts, net);
            && WorldSound(file, report.world)
            && |report.world.sessions| == |w.sessions|
            && (forall i :: 0 <= i < |w.sessions| ==> Extends(w.sessions[i], report.world.sessions[i]))
            && (forall i :: 0 <= i < |w.sessions| && i != at ==> report.world.sessions[i] == w.sessions[i])
            && report.world.memory == (if report.outcome.Done? then None else w.memory)
            && RunHolds(file, at, Run(report.world.sessions[at], report.outcome, report.record))
  {
    var st := State(offset, 0, w.sessions[at], record);
    assert RecordHolds(|file|, st);
    DriveHolds(file, at, st, net, 0);
  }

  lemma SendClashHolds(file: seq<byte>, w: World, at: nat, offset: nat, record: Record, posts: nat, net: Net)
    requires |file| > 0 && WorldSound(file, w) && at < |w.sessions|
    requires Ready(file, State(offset, 0, w.sessions[at], record)) && offset < |file|
    requires (record.shown == [] || record.shown == [offset]) && record.log == []
    requires forall i :: 0 <= i < |record.waits| ==> 0.0 < record.waits[i] <= RETRY_CEILING_MS
    ensures var report := Send(file, w, at, offset, record, posts, net);
            && |report.world.sessions| == |w.sessions|
            && ClashTold(Run(report.world.sessions[at], report.outcome, report.record), net, 0)
  {
    var st := State(offset, 0, w.sessions[at], record);
    assert RecordHolds(|file|, st);
    hide RecordHolds, ClashTold, Drive, WorldSound;
    DriveClashHolds(file, at, st, net, 0);
  }

  /** The server still vouches for the remembered session: it answers, and holds part of the file but not all. */
  predicate Vouched(file: seq<byte>, w: World, net: Net)
    requires WorldSound(file, w)
  {
    && w.memory.Some?
    && net.resume.answer.HeadOk?
    && 0 < Settle(w.sessions[w.memory.value], net.resume.late).recorded < |file|
  }

  /**
   The memory of an unfinished upload is dropped only when the server no longer vouches for the session, or when
   the loop reached the end of the file; any session that was sent something is remembered until then.
   */
  lemma MemoryIsKept(file: seq<byte>, w: World, net: Net)
    requires WorldSound(file, w) && |file| > 0
    ensures var report := Upload(file, w, net);
            && (report.outcome.Done? ==> report.world.memory == None)
            && (w.memory.Some? && report.world.memory != w.memory ==> report.outcome.Done? || !Vouched(file, w, net))
            && (report.record.log != [] && !report.outcome.Done? ==> report.world.memory == Some(SentTo(file, w, net)))
            && (report.record.log != [] ==> (SentTo(file, w, net) < |w.sessions| <==> Vouched(file, w, net)))
  {
    RecallIsSound(file, w, net);
    OpenIsSound(file, Recall(file, w, net).0, net, 1);
    if w.memory.Some? {
      ProbeResumes(w.sessions[w.memory.value], file, net.resume);
    }
  }

  /**
   An upload costs at most four POSTs, seven PATCHes for each chunk of the file and one over, and one HEAD more than
   it has failed PATCHes.
   */
  lemma UploadRequests(file: seq<byte>, w: World, net: Net)
    requires WorldSound(file, w)
    ensures var report := Upload(file, w, net);
            && report.posts <= BROKEN_CHUNK_RETRIES + 1
            && |report.record.log| <= 7 * ChunksLeft(|file|, 0) + 1
            && report.record.heads <= 1 + Failures(report.record.log) <= 1 + |report.record.log|
            && |report.record.waits| <= report.posts + |report.record.log|
  {
    FailuresAtMost(Upload(file, w, net).record.log);
    if |file| > 0 {
      RecallIsSound(file, w, net);
      var (recalled, where) := Recall(file, w, net);
      if where.Some? {
        var st := State(where.value, 0, recalled.sessions[w.memory.value], Record([where.value], [], 1, []));
        DriveRequests(file, w.memory.value, st, net, 0);
        DriveAsks(file, w.memory.value, st, net, 0);
        ChunksFall(|file|, 0, where.value);
      } else {
        OpenIsSound(file, recalled, net, 1);
        var opening := Open(|file|, recalled, net, 1);
        if opening.at.Some? {
          var record := Record([], opening.waits, if w.memory.Some? then 1 else 0, []);
          DriveRequests(file, opening.at.value, State(0, 0, Fresh(|file|), record), net, 0);
          DriveAsks(file, opening.at.value, State(0, 0, Fresh(|file|), record), net, 0);
        }
      }
    }
  }

  /** An empty file is refused before anything is asked or forgotten. */
  lemma EmptyFileIsRefused(w: World, net: Net)
    requires WorldSound([], w)
    ensures Upload([], w, net) == Report(w, Failed(EmptyFile), Record([], [], 0, []), 0)
  {
  }

  // ---- any number of runs ----------------------------------------------------------------------

  function Runs(file: seq<byte>, w: World, nets: seq<Net>): World
    requires WorldSound(file, w)
    decreases |nets|
  {
    if nets == [] then w
    else
      UploadHolds(file, w, nets[0]);
      Runs(file, Upload(file, w, nets[0]).world, nets[1..])
  }

  /**
   However many runs an upload takes, each cut short in its own way: every session holds the file's own bytes in
   order from the first, none of them is ever stored twice or rewritten, and nothing published is withdrawn.
   */
  lemma {:induction false} EveryByteOnceAndInOrder(file: seq<byte>, w: World, nets: seq<Net>)
    requires WorldSound(file, w)
    ensures var after := Runs(file, w, nets);
            && WorldSound(file, after)
            && |w.sessions| <= |after.sessions|
            && (forall i :: 0 <= i < |w.sessions| ==> Extends(w.sessions[i], after.sessions[i]))
            && (forall i, k :: 0 <= i < |after.sessions| && 0 <= k < |after.sessions[i].staged| ==>
                  after.sessions[i].staged[k] == file[k])
    decreases |nets|
  {
    if nets != [] {
      UploadHolds(file, w, nets[0]);
      EveryByteOnceAndInOrder(file, Upload(file, w, nets[0]).world, nets[1..]);
    }
  }
}
