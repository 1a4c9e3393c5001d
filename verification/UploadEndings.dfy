/**
 How the sending loop ends: exactly when it returns normally with nothing published, and under which networks it ends
 with the file published.
 */
module UploadEndings {
  import opened Wrappers
  import opened UploadServer
  import opened UploadClient
  import opened UploadTheorems

  /** The state at the head of turn `m`, if the loop gets there. */
  function Reached(file: seq<byte>, location: nat, st: State, net: Net, n: nat, m: nat): Option<State>
    requires Ready(file, st) && n <= m
    decreases m - n
  {
    if m == n then Some(st)
    else
      match SendChunk(file, location, st, net, n)
      case Stop(_) => None
      case Go(next) =>
        TurnKeepsReady(file, location, st, net, n);
        Reached(file, location, next, net, n + 1, m)
  }

  // ---- a normal return with nothing published --------------------------------------------------

  /** A publication refused with a 409 that does not say the name is taken, before or after the rename. */
  predicate RefusedPlainly(publication: Publication) {
    (publication.PublicationFails? || publication.RowFails?) && publication.refusal.status == 409
  }

  /**
   A PATCH after which the loop takes the upload for finished although nothing is published. Its answer must come
   through; and either every byte is in the staging file already, so that the handler only corrects the offset, or this
   chunk is the last and its publication is refused with a 409 other than "name taken".
   */
  predicate SlipsThrough(file: seq<byte>, st: State, tab: Tab, fate: PatchFate) {
    var settled := Settle(st.session, fate.late);
    && st.offset < |file| && tab.Reads? && |file| as real <= MAX_SAFE_INTEGER
    && !fate.lost && (fate.work.Torn? || fate.work.Kept?)
    && !settled.published
    && (|settled.staged| == |file|
        || (&& |settled.staged| == st.offset && |file| - st.offset <= CHUNK_BYTES
            && fate.work.Kept? && RefusedPlainly(fate.work.publication)))
  }

  /** One turn leaves the loop at its end with nothing published exactly under that condition on what goes into it. */
  lemma TurnSlipsIff(file: seq<byte>, location: nat, st: State, net: Net, n: nat)
    requires Ready(file, st)
    ensures var turn := SendChunk(file, location, st, net, n);
            turn.Go? && turn.next.offset >= |file| && !turn.next.session.published
            <==> SlipsThrough(file, st, net.tab(n), net.patches(n))
  {
    if st.offset < |file| {
      var end := Min(st.offset + CHUNK_BYTES, |file|);
      var (after, sent) := Patch(st.session, st.offset, file[st.offset..end], net.patches(n));
      PatchKeepsSound(st.session, file, st.offset, end, net.patches(n));
      ProbeResumes(after, file, net.probes(n));
      PatchSlipsIff(file, st, end, net.patches(n));
      hide Patch, Handle, Probe, BackoffMs, Settle;
      if sent.Answer? {
        HeaderRoundTrip(sent.code, after.recorded);
      }
      AnswersTellTheTruth(st.session, file, end, net.patches(n));
    }
  }

  /** The same of the server's half: a usable full offset on a 409 that is not "name taken". */
  lemma PatchSlipsIff(file: seq<byte>, st: State, end: nat, fate: PatchFate)
    requires Ready(file, st) && st.offset < |file| && end == Min(st.offset + CHUNK_BYTES, |file|)
    ensures var (after, sent) := Patch(st.session, st.offset, file[st.offset..end], fate);
            sent.Answer? && sent.status == 409 && !sent.NameTaken() && sent.offset.Some?
            && after.recorded >= |file| && !after.published && |file| as real <= MAX_SAFE_INTEGER
            <==> SlipsThrough(file, st, Reads, fate)
  {
    PatchKeepsSound(st.session, file, st.offset, end, fate);
  }

  ghost predicate SlipsAt(file: seq<byte>, location: nat, st: State, net: Net, n: nat, m: nat)
    requires Ready(file, st) && n <= m
  {
    var at := Reached(file, location, st, net, n, m);
    at.Some? && SlipsThrough(file, at.value, net.tab(m), net.patches(m))
  }

  lemma StopIsNotDone(file: seq<byte>, location: nat, st: State, net: Net, n: nat)
    requires Ready(file, st) && st.offset < |file|
    ensures var turn := SendChunk(file, location, st, net, n); turn.Stop? ==> !turn.run.outcome.Done?
  {
    hide Patch, Probe, ReadConflict, BackoffMs;
  }

  lemma NothingSlipsAtTheEnd(file: seq<byte>, location: nat, st: State, net: Net, n: nat)
    requires Ready(file, st) && st.offset >= |file|
    ensures Drive(file, location, st, net, n) == Run(st.session, Done, st.record)
    ensures forall m :: n <= m ==> !SlipsAt(file, location, st, net, n, m)
  {
  }

  /**
   The whole loop, for every network: it returns normally with nothing published exactly when at some turn it gets to,
   the PATCH slips through. Nothing about how the run came out is asked.
   */
  lemma {:induction false} DriveSlipsIff(file: seq<byte>, location: nat, st: State, net: Net, n: nat)
    requires Ready(file, st) && st.offset < |file|
    ensures var run := Drive(file, location, st, net, n);
            run.outcome.Done? && !run.session.published
            <==> exists m :: n <= m && SlipsAt(file, location, st, net, n, m)
    decreases Potential(|file|, st)
  {
    DriveUnfolds(file, location, st, net, n);
    TurnSlipsIff(file, location, st, net, n);
    StopIsNotDone(file, location, st, net, n);
    var run, turn := Drive(file, location, st, net, n), SendChunk(file, location, st, net, n);
    assert SlipsAt(file, location, st, net, n, n) <==> SlipsThrough(file, st, net.tab(n), net.patches(n));
    if turn.Go? {
      forall m | n + 1 <= m
        ensures SlipsAt(file, location, st, net, n, m) <==> SlipsAt(file, location, turn.next, net, n + 1, m)
      {
      }
    }
    hide SendChunk, Drive, SlipsThrough, SlipsAt;
    if turn.Go? {
      if turn.next.offset < |file| {
        var on := n + 1;
        DriveSlipsIff(file, location, turn.next, net, on);
        if m :| on <= m && SlipsAt(file, location, turn.next, net, on, m) {
          assert SlipsAt(file, location, st, net, n, m);
        }
      } else {
        NothingSlipsAtTheEnd(file, location, turn.next, net, n + 1);
      }
    } else {
      forall m | n + 1 <= m ensures !SlipsAt(file, location, st, net, n, m) {
        StoppedIsNotReached(file, location, st, net, n, m);
      }
    }
  }

  lemma StoppedIsNotReached(file: seq<byte>, location: nat, st: State, net: Net, n: nat, m: nat)
    requires Ready(file, st) && n < m && SendChunk(file, location, st, net, n).Stop?
    ensures !SlipsAt(file, location, st, net, n, m)
  {
  }

  /** The state in which an upload's sending loop begins, if it begins. */
  function LoopStart(file: seq<byte>, w: World, net: Net): Option<State>
    requires WorldSound(file, w)
  {
    if |file| == 0 then None
    else
      var (recalled, where) := Recall(file, w, net);
      if where.Some? then
        RecallIsSound(file, w, net);
        Some(State(where.value, 0, recalled.sessions[w.memory.value], Record([where.value], [], 1, [])))
      else
        var opening := Open(|file|, recalled, net, 1);
        if opening.at.None? then None
        else Some(State(0, 0, Fresh(|file|), Record([], opening.waits, if w.memory.Some? then 1 else 0, [])))
  }

  /** So an upload returns normally without its session published exactly when some PATCH of it slips through. */
  lemma UploadSlipsIff(file: seq<byte>, w: World, net: Net)
    requires WorldSound(file, w)
    ensures var report := Upload(file, w, net);
            var at, start := SentTo(file, w, net), LoopStart(file, w, net);
            && (start.Some? ==> Ready(file, start.value) && start.value.offset < |file|)
            && (report.outcome.Done? ==> at < |report.world.sessions|)
            && (report.outcome.Done? && !report.world.sessions[at].published
                <==> start.Some? && exists m :: 0 <= m && SlipsAt(file, at, start.value, net, 0, m))
  {
    hide SlipsAt, Drive;
    if |file| > 0 {
      RecallIsSound(file, w, net);
      OpenIsSound(file, Recall(file, w, net).0, net, 1);
      var start := LoopStart(file, w, net);
      if start.Some? {
        DriveSlipsIff(file, SentTo(file, w, net), start.value, net, 0);
      }
    }
  }

  /** An upload for which no session can be opened sends nothing and ends with the cause the opening gives. */
  lemma NothingIsSentUnopened(file: seq<byte>, w: World, net: Net)
    requires WorldSound(file, w) && |file| > 0 && LoopStart(file, w, net).None?
    ensures var report, opening := Upload(file, w, net), Open(|file|, Recall(file, w, net).0, net, 1);
            && opening.at.None? && report.outcome == Failed(opening.why)
            && report.world == opening.world && report.posts == opening.posts
            && report.record == Record([], opening.waits, if w.memory.Some? then 1 else 0, [])
  {
  }

  // ---- inputs that slip through ----------------------------------------------------------------

  function PublicationIsRefused(): Net {
    Net(HeadFate(Still, HeadOk), n => PostCreated(true), n => Reads,
        n => PatchFate(Still, Kept(PublicationFails(Refusal(409, None))), false),
        n => HeadFate(Still, HeadOk))
  }

  /** The last chunk is stored, and its publication refused with a 409 that is not "name taken". */
  lemma RefusedPublicationSlips(file: seq<byte>, location: nat)
    requires 0 < |file| <= CHUNK_BYTES
    ensures var net := PublicationIsRefused();
            var run := Drive(file, location, State(0, 0, Fresh(|file|), Record([], [], 0, [])), net, 0);
            run.outcome.Done? && run.session.staged == file && !run.session.published
  {
    var net, st := PublicationIsRefused(), State(0, 0, Fresh(|file|), Record([], [], 0, []));
    assert SlipsAt(file, location, st, net, 0, 0);
    DriveSlipsIff(file, location, st, net, 0);
    assert RecordHolds(|file|, st);
    DriveHolds(file, location, st, net, 0);
  }

  /** The first chunk gets through; the connection breaks on the second, which the server keeps; then all is well. */
  function SecondChunkIsTorn(): Net {
    Net(HeadFate(Still, HeadOk), n => PostCreated(true), n => Reads,
        n => PatchFate(Still, if n == 1 then Torn(CHUNK_BYTES, None) else Kept(Publishes), false),
        n => HeadFate(Still, HeadOk))
  }

  /** One plain break on the last chunk, and no refusal at all: the probe tells the old offset, and the next PATCH slips. */
  lemma TornLastChunkSlips(file: seq<byte>, location: nat)
    requires CHUNK_BYTES < |file| <= 2 * CHUNK_BYTES
    ensures var net := SecondChunkIsTorn();
            var run := Drive(file, location, State(0, 0, Fresh(|file|), Record([], [], 0, [])), net, 0);
            run.outcome.Done? && run.session.staged == file && !run.session.published
  {
    var net, st := SecondChunkIsTorn(), State(0, 0, Fresh(|file|), Record([], [], 0, []));
    var one := SendChunk(file, location, st, net, 0);
    assert one.Go? && one.next.session == Session(|file|, CHUNK_BYTES, file[..CHUNK_BYTES], false, false);
    DriveUnfolds(file, location, st, net, 0);
    hide SendChunk, Drive;
    TornThenSlips(file, location, one.next, net, 1);
    assert RecordHolds(|file|, st);
    DriveHolds(file, location, st, net, 0);
  }

  lemma TornThenSlips(file: seq<byte>, location: nat, st: State, net: Net, n: nat)
    requires CHUNK_BYTES < |file| <= 2 * CHUNK_BYTES && Ready(file, st) && st.broken < BROKEN_CHUNK_RETRIES
    requires st.session == Session(|file|, CHUNK_BYTES, file[..CHUNK_BYTES], false, false)
    requires net.tab(n).Reads? && net.tab(n + 1).Reads? && net.probes(n) == HeadFate(Still, HeadOk)
    requires net.patches(n) == PatchFate(Still, Torn(CHUNK_BYTES, None), false)
    requires net.patches(n + 1) == PatchFate(Still, Kept(Publishes), false)
    ensures var run := Drive(file, location, st, net, n); run.outcome.Done? && !run.session.published
  {
    DriveUnfolds(file, location, st, net, n);
    var turn := SendChunk(file, location, st, net, n);
    assert file[..CHUNK_BYTES] + file[CHUNK_BYTES..|file|] == file;
    assert turn.Go? && turn.next.session == Session(|file|, CHUNK_BYTES, file, false, false);
    hide SendChunk, Drive;
    assert SlipsAt(file, location, turn.next, net, n + 1, n + 1);
    DriveSlipsIff(file, location, turn.next, net, n + 1);
  }

  // ---- what a name clash leaves ----------------------------------------------------------------

  /**
   After an upload ends as a name clash, some later decision can publish its bytes exactly when it was the agent that
   found the name held. When a row held it, the answer is "staged bytes gone" and the session is deleted.
   */
  lemma ClashResolvesIff(file: seq<byte>, w: World, net: Net, publication: Publication)
    requires WorldSound(file, w) && Upload(file, w, net).outcome.NameClash?
    ensures var report := Upload(file, w, net);
            var at := report.outcome.location;
            && report.record.log != [] && at < |report.world.sessions|
            && var last := net.patches(|report.record.log| - 1);
               var resolved := Resolve(report.world.sessions[at], publication);
               && last.work.Kept? && (last.work.publication.NameHeld? || last.work.publication.RowHeld?)
               && (resolved.1.Ok() <==> last.work.publication.NameHeld? && publication.Publishes?)
               && (last.work.publication.RowHeld? ==>
                     resolved == (None, Answer(410, Some("staged-bytes-gone"), None, None)))
  {
    UploadHolds(file, w, net);
    var report, at := Upload(file, w, net), SentTo(file, w, net);
    assert RunHolds(file, at, Run(report.world.sessions[at], report.outcome, report.record));
    hide Upload;
  }

  function NameIsARows(): Net {
    Net(HeadFate(Still, HeadOk), n => PostCreated(true), n => Reads,
        n => PatchFate(Still, Kept(RowHeld), false), n => HeadFate(Still, HeadOk))
  }

  /** For every file of one chunk whose folded name another row has: a clash that no decision can publish. */
  lemma RowClashLosesTheBytes(file: seq<byte>, publication: Publication)
    requires 0 < |file| <= CHUNK_BYTES
    ensures var report := Upload(file, World(None, []), NameIsARows());
            && report.outcome == NameClash(0)
            && Resolve(report.world.sessions[0], publication).1 == Answer(410, Some("staged-bytes-gone"), None, None)
  {
    var net, st := NameIsARows(), State(0, 0, Fresh(|file|), Record([], [], 0, []));
    DriveUnfolds(file, 0, st, net, 0);
    assert file[0..|file|] == file && [] + file == file;
    assert SendChunk(file, 0, st, net, 0).Stop?;
  }

  // ---- networks under which a normal return means a published file -----------------------------

  /** An interrupted write is rolled back, and no publication is refused with a 409 other than "name taken". */
  predicate RollsBack(fate: PatchFate) {
    && (fate.work.Torn? ==> fate.work.kept == 0)
    && (fate.work.Kept? ==> !RefusedPlainly(fate.work.publication))
  }

  /** Under such a network the staging file is whole only when the loop is at its end. */
  lemma {:induction false} ReachedHasRoom(file: seq<byte>, location: nat, st: State, net: Net, n: nat, m: nat)
    requires Ready(file, st) && n <= m && |st.session.staged| < |file|
    requires forall k :: n <= k ==> RollsBack(net.patches(k))
    ensures var at := Reached(file, location, st, net, n, m);
            at.Some? && at.value.offset < |file| ==> |at.value.session.staged| < |file|
    decreases m - n
  {
    if n < m {
      TurnLeavesRoom(file, location, st, net, n);
      TurnKeepsReady(file, location, st, net, n);
      var turn := SendChunk(file, location, st, net, n);
      if turn.Go? {
        if turn.next.offset < |file| {
          ReachedHasRoom(file, location, turn.next, net, n + 1, m);
        } else {
          assert SendChunk(file, location, turn.next, net, n + 1).Stop?;
        }
      }
    }
  }

  lemma TurnLeavesRoom(file: seq<byte>, location: nat, st: State, net: Net, n: nat)
    requires Ready(file, st) && |st.session.staged| < |file| && RollsBack(net.patches(n))
    ensures var turn := SendChunk(file, location, st, net, n);
            turn.Go? && turn.next.offset < |file| ==> |turn.next.session.staged| < |file|
  {
    var end := Min(st.offset + CHUNK_BYTES, |file|);
    if st.offset < |file| {
      var (after, sent) := Patch(st.session, st.offset, file[st.offset..end], net.patches(n));
      PatchKeepsSound(st.session, file, st.offset, end, net.patches(n));
      ProbeResumes(after, file, net.probes(n));
    }
  }

  /** Where interrupted writes are rolled back, as the agent does, and no publication is so refused, nothing slips through. */
  lemma NothingSlips(file: seq<byte>, location: nat, st: State, net: Net, n: nat)
    requires Ready(file, st) && |st.session.staged| < |file|
    requires forall k :: n <= k ==> RollsBack(net.patches(k))
    ensures var run := Drive(file, location, st, net, n); run.outcome.Done? ==> run.session.published
  {
    DriveSlipsIff(file, location, st, net, n);
    forall m | n <= m ensures !SlipsAt(file, location, st, net, n, m) {
      ReachedHasRoom(file, location, st, net, n, m);
      assert RollsBack(net.patches(m));
    }
  }

  // ---- a network that is only sometimes broken -------------------------------------------------

  /** A PATCH that arrives whole, is answered, and would publish. */
  predicate Good(fate: PatchFate) {
    fate == PatchFate(Still, Kept(Publishes), false)
  }

  /** No answer, or "not now". */
  predicate NotNow(lost: bool, told: Option<Refusal>) {
    lost || told.None? || TryAgainLater(told.value.status)
  }

  /**
   A PATCH that goes wrong without completing the staging file: it never arrives, is told to come back later, is torn
   before the file's last byte, or is kept whole in the middle of the file and its answer lost.
   */
  predicate Hitch(file: seq<byte>, st: State, fate: PatchFate) {
    && fate.late.Still?
    && match fate.work
       case Unreached => true
       case TurnedAway(refusal) => NotNow(fate.lost, Some(refusal))
       case Torn(kept, told) => NotNow(fate.lost, told) && |st.session.staged| + kept < |file|
       case Kept(_) => fate.lost && st.offset + CHUNK_BYTES < |file|
  }

  /** Turn `m` or one of the next three begins two good turns. */
  ghost predicate PairSoon(net: Net, m: nat) {
    exists j :: m <= j <= m + BROKEN_CHUNK_RETRIES && Good(net.patches(j)) && Good(net.patches(j + 1))
  }

  ghost predicate FairAt(file: seq<byte>, location: nat, st: State, net: Net, n: nat, m: nat)
    requires Ready(file, st) && n <= m
  {
    var at := Reached(file, location, st, net, n, m);
    && net.tab(m).Reads? && net.probes(m) == HeadFate(Still, HeadOk)
    && (at.Some? ==> Good(net.patches(m)) || Hitch(file, at.value, net.patches(m)))
  }

  /** From turn `n` on every PATCH is good or a hitch, never four hitches before two good turns, and probes are answered. */
  ghost predicate Steady(file: seq<byte>, location: nat, st: State, net: Net, n: nat)
    requires Ready(file, st)
  {
    && (forall m :: n <= m ==> FairAt(file, location, st, net, n, m))
    && (forall m :: n <= m ==> PairSoon(net, m))
  }

  /** Part of the file is recorded, and the staging file is not whole. */
  ghost predicate OnTheWay(file: seq<byte>, st: State) {
    && Ready(file, st) && 0 < st.offset && |st.session.staged| < |file| && !st.session.published
    && |file| as real <= MAX_SAFE_INTEGER
  }

  /** With the staging file no further than the row, a good turn sends its chunk. */
  lemma GoodTurn(file: seq<byte>, location: nat, st: State, net: Net, n: nat) returns (next: State)
    requires Ready(file, st) && st.offset < |file| && |st.session.staged| == st.offset && !st.session.published
    requires net.tab(n).Reads? && Good(net.patches(n))
    ensures SendChunk(file, location, st, net, n) == Go(next)
    ensures next.offset == Min(st.offset + CHUNK_BYTES, |file|) && next.broken == 0
    ensures next.session == Session(|file|, next.offset, file[..next.offset], next.offset == |file|, next.offset == |file|)
  {
    next := SendChunk(file, location, st, net, n).next;
    assert st.session.staged + file[st.offset..next.offset] == file[..next.offset];
  }

  /** With the staging file ahead, it corrects the offset. */
  lemma AheadTurn(file: seq<byte>, location: nat, st: State, net: Net, n: nat) returns (next: State)
    requires OnTheWay(file, st) && |st.session.staged| > st.offset
    requires net.tab(n).Reads? && Good(net.patches(n))
    ensures SendChunk(file, location, st, net, n) == Go(next)
    ensures OnTheWay(file, next) && next.broken == st.broken && next.offset == |next.session.staged|
  {
    TurnKeepsReady(file, location, st, net, n);
    HeaderRoundTrip(Some("conflict"), |st.session.staged|);
    next := SendChunk(file, location, st, net, n).next;
  }

  /** A hitch costs one retry at most, and takes nothing back. */
  lemma HitchTurn(file: seq<byte>, location: nat, st: State, net: Net, n: nat) returns (next: State)
    requires OnTheWay(file, st) && st.broken < BROKEN_CHUNK_RETRIES
    requires net.tab(n).Reads? && Hitch(file, st, net.patches(n)) && net.probes(n) == HeadFate(Still, HeadOk)
    ensures SendChunk(file, location, st, net, n) == Go(next)
    ensures OnTheWay(file, next) && next.broken <= st.broken + 1
  {
    TurnKeepsReady(file, location, st, net, n);
    HeaderRoundTrip(Some("conflict"), |st.session.staged|);
    next := SendChunk(file, location, st, net, n).next;
  }

  lemma StaysSteady(file: seq<byte>, location: nat, st: State, net: Net, n: nat, next: State)
    requires Ready(file, st) && Ready(file, next) && Steady(file, location, st, net, n)
    requires SendChunk(file, location, st, net, n) == Go(next)
    ensures Steady(file, location, next, net, n + 1)
  {
    hide SendChunk, Hitch, PairSoon;
    var on := n + 1;
    forall m | on <= m ensures FairAt(file, location, next, net, on, m) {
      assert FairAt(file, location, st, net, n, m);
      assert Reached(file, location, st, net, n, m) == Reached(file, location, next, net, on, m);
    }
  }

  /** Two good turns begin at `j`, within the retries left; one is enough if it is now and nothing has to be corrected. */
  predicate WithinReach(st: State, net: Net, n: nat, j: nat) {
    && n <= j <= n + BROKEN_CHUNK_RETRIES - st.broken
    && Good(net.patches(j))
    && (Good(net.patches(j + 1)) || (j == n && |st.session.staged| == st.offset))
  }

  /**
   Three hitches in a row cost nothing anywhere in the file, however often they come: the upload still ends published.
   This needs the counter to be reset by every chunk that gets through.
   */
  lemma {:induction false} SteadyNetworkFinishes(file: seq<byte>, location: nat, st: State, net: Net, n: nat, j: nat)
    requires OnTheWay(file, st) && Steady(file, location, st, net, n) && WithinReach(st, net, n, j)
    ensures var run := Drive(file, location, st, net, n);
            run.outcome.Done? && run.session == Session(|file|, |file|, file, true, true)
    decreases Potential(|file|, st)
  {
    DriveUnfolds(file, location, st, net, n);
    hide SendChunk, Drive, Hitch, Reached;
    assert FairAt(file, location, st, net, n, n) && (Good(net.patches(n)) || Hitch(file, st, net.patches(n))) by {
      AtTheHead(file, location, st, net, n);
    }
    if !Good(net.patches(n)) {
      var next := HitchTurn(file, location, st, net, n);
      StaysSteady(file, location, st, net, n, next);
      SteadyNetworkFinishes(file, location, next, net, n + 1, j);
    } else if |st.session.staged| > st.offset {
      var next := AheadTurn(file, location, st, net, n);
      StaysSteady(file, location, st, net, n, next);
      SteadyNetworkFinishes(file, location, next, net, n + 1, if j == n then n + 1 else j);
    } else {
      GoodTurnFinishes(file, location, st, net, n);
    }
  }

  lemma AtTheHead(file: seq<byte>, location: nat, st: State, net: Net, n: nat)
    requires Ready(file, st)
    ensures Reached(file, location, st, net, n, n) == Some(st)
  {
  }

  /** The same from a good turn on, which may be the very first of a fresh session. */
  lemma {:induction false} GoodTurnFinishes(file: seq<byte>, location: nat, st: State, net: Net, n: nat)
    requires Ready(file, st) && st.offset < |file| && |st.session.staged| == st.offset && !st.session.published
    requires |file| as real <= MAX_SAFE_INTEGER
    requires Steady(file, location, st, net, n) && Good(net.patches(n))
    ensures var run := Drive(file, location, st, net, n);
            run.outcome.Done? && run.session == Session(|file|, |file|, file, true, true)
    decreases Potential(|file|, st), 0
  {
    assert FairAt(file, location, st, net, n, n);
    DriveUnfolds(file, location, st, net, n);
    var next := GoodTurn(file, location, st, net, n);
    StaysSteady(file, location, st, net, n, next);
    hide SendChunk, Reached;
    if next.offset < |file| {
      assert PairSoon(net, n + 1);
      var k :| n + 1 <= k <= n + 1 + BROKEN_CHUNK_RETRIES && Good(net.patches(k)) && Good(net.patches(k + 1));
      SteadyNetworkFinishes(file, location, next, net, n + 1, k);
    } else {
      assert file[..|file|] == file;
      NothingSlipsAtTheEnd(file, location, next, net, n + 1);
    }
  }

  /**
   So does a whole upload: a remembered session that the server vouches for, or else a new one whose first PATCH gets
   through, under a steady network, returns normally with the session published and its memory cleared.
   */
  lemma SteadyUploadPublishes(file: seq<byte>, w: World, net: Net, j: nat)
    requires WorldSound(file, w) && LoopStart(file, w, net).Some? && |file| as real <= MAX_SAFE_INTEGER
    requires var start := LoopStart(file, w, net).value;
             && Ready(file, start)
             && Steady(file, SentTo(file, w, net), start, net, 0)
             && if Vouched(file, w, net) then |start.session.staged| < |file| && WithinReach(start, net, 0, j)
                else Good(net.patches(0))
    ensures var report, at := Upload(file, w, net), SentTo(file, w, net);
            && report.outcome.Done? && report.world.memory.None? && at < |report.world.sessions|
            && report.world.sessions[at] == Session(|file|, |file|, file, true, true)
  {
    hide Steady, WithinReach, Drive;
    RecallIsSound(file, w, net);
    OpenIsSound(file, Recall(file, w, net).0, net, 1);
    if w.memory.Some? {
      ProbeResumes(w.sessions[w.memory.value], file, net.resume);
    }
    var start := LoopStart(file, w, net).value;
    if Vouched(file, w, net) {
      SteadyNetworkFinishes(file, SentTo(file, w, net), start, net, 0, j);
    } else {
      GoodTurnFinishes(file, SentTo(file, w, net), start, net, 0);
    }
  }
}
