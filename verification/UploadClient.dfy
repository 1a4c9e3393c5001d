/**
 The browser half of a resumable upload: `uploadFile` with its helpers, and what a tab remembers of an
 unfinished upload. `UploadFile` is the loop as the program runs it; `Upload` is the function it computes,
 which the theorems in `UploadTheorems` are about.
 */
module UploadClient {
  import opened Wrappers
  import opened UploadServer

  const CHUNK_BYTES := 5 * 1024 * 1024
  const BROKEN_CHUNK_RETRIES := 3
  const RETRY_CEILING_MS := 10_000.0
  const MAX_SAFE_INTEGER := 9007199254740991.0

  datatype Why = EmptyFile | NetworkError | FileUnreadable | NoLocation | ServerRefused(status: nat)

  /** How a run ends. `Abandoned` is a tab closed in the middle. */
  datatype Outcome = Done | NameClash(location: nat) | Failed(why: Why) | Abandoned

  /** What the tab itself does before a chunk goes out. */
  datatype Tab = Reads | CannotRead | Closes

  /** The adversary of one run: a fate for every request the run can make, by number. */
  datatype Net = Net(
    resume: HeadFate,
    posts: nat -> PostFate,
    tab: nat -> Tab,
    patches: nat -> PatchFate,
    probes: nat -> HeadFate)

  /** Every session ever opened for one file at one destination, and the address the browser remembers. */
  datatype World = World(memory: Option<nat>, sessions: seq<Session>)

  // ---- small decisions -------------------------------------------------------------------------

  datatype Conflict = NameIsTaken | Realign(offset: nat) | Other

  predicate IsSafeInteger(value: real) {
    value == value.Floor as real && -MAX_SAFE_INTEGER <= value <= MAX_SAFE_INTEGER
  }

  function ReadConflict(code: Option<string>, header: Option<HeaderNumber>): Conflict {
    if code == Some("name-taken") then NameIsTaken
    else if header.None? || header.value.Unusable? then Other
    else if !IsSafeInteger(header.value.value) || header.value.value < 0.0 then Other
    else Realign(header.value.value.Floor)
  }

  predicate TryAgainLater(status: nat) {
    status == 429 || status == 503
  }

  function Min(a: int, b: int): int {
    if a < b then a else b
  }

  function Doubled(attempt: nat): (r: nat)
    ensures r >= 1
  {
    if attempt == 0 then 1 else 2 * Doubled(attempt - 1)
  }

  /** The pause before attempt number `attempt` is repeated: `Retry-After` when given, else 1s, 2s, 4s. */
  function BackoffMs(retryAfter: Option<real>, attempt: nat): (ms: real)
    requires attempt >= 1
    ensures 0.0 < ms <= RETRY_CEILING_MS
  {
    var wanted := if retryAfter.Some? && retryAfter.value > 0.0 then retryAfter.value * 1000.0
                  else 1000.0 * Doubled(attempt - 1) as real;
    if wanted < RETRY_CEILING_MS then wanted else RETRY_CEILING_MS
  }

  /** The rounding of floating-point results: monotone, and exact at the numbers that matter here. */
  ghost predicate IsRounding(fl: real -> real) {
    && (forall x, y :: x <= y ==> fl(x) <= fl(y))
    && fl(0.0) == 0.0 && fl(1.0) == 1.0 && fl(100.0) == 100.0
  }

  /** `Math.round((offset / Math.max(1, size)) * 100)`: two rounded operations, then halves up. */
  function Percent(fl: real -> real, offset: nat, size: nat): int {
    (fl(fl(offset as real / (if size < 1 then 1 else size) as real) * 100.0) + 0.5).Floor
  }

  function ResumeOffset(head: HeadReply, size: nat): Option<nat> {
    if head.status != 200 then None
    else if head.length != Some(size) then None
    else if head.offset.None? then None
    else if head.offset.value <= 0 || head.offset.value >= size then None
    else Some(head.offset.value)
  }

  /** What a HEAD must say for the upload to go on from there. */
  lemma ResumesIff(head: HeadReply, size: nat, n: nat)
    ensures ResumeOffset(head, size) == Some(n) <==> head == HeadReply(200, Some(n), Some(size)) && 0 < n < size
  {
  }

  function Probe(s: Session, size: nat, fate: HeadFate): (Session, Option<nat>) {
    var (after, head) := Head(s, fate);
    (after, if head.None? then None else ResumeOffset(head.value, size))
  }

  /** A HEAD lets the upload go on exactly when it is answered and something, but not all, is recorded. */
  lemma ProbeResumes(s: Session, file: seq<byte>, fate: HeadFate)
    requires Sound(s, file)
    ensures var (after, where) := Probe(s, |file|, fate);
            && Sound(after, file) && Extends(s, after)
            && (where.Some? <==> fate.answer.HeadOk? && 0 < after.recorded < |file|)
            && (where.Some? ==> where.value == after.recorded)
  {
    HeadKeepsSound(s, file, fate);
  }

  // ---- one turn of the sending loop ------------------------------------------------------------

  /** What a run leaves behind: the offset behind each percentage shown, the pauses, the HEADs, the answer to each PATCH. */
  datatype Record = Record(shown: seq<nat>, waits: seq<real>, heads: nat, log: seq<Reply>) {
    function Show(offset: nat): Record {
      this.(shown := shown + [offset])
    }

    function Asked(): Record {
      this.(heads := heads + 1)
    }

    function Wait(ms: real): Record {
      this.(waits := waits + [ms])
    }

    function Heard(sent: Reply): Record {
      this.(log := log + [sent])
    }
  }

  datatype State = State(offset: nat, broken: nat, session: Session, record: Record)

  /** At the head of the loop the client's offset is the one the server has recorded. */
  ghost predicate Ready(file: seq<byte>, st: State) {
    Sound(st.session, file) && st.offset == st.session.recorded && st.broken <= BROKEN_CHUNK_RETRIES
  }

  datatype Turn = Go(next: State) | Stop(run: Run)

  /** Everything one run of the loop leaves behind. */
  datatype Run = Run(session: Session, outcome: Outcome, record: Record)

  /** The session stays sound and never moves back; a turn that goes on keeps the loop's invariant. */
  ghost predicate KeepsReady(file: seq<byte>, st: State, turn: Turn) {
    match turn
    case Go(next) => Ready(file, next) && Extends(st.session, next.session)
    case Stop(run) => Sound(run.session, file) && Extends(st.session, run.session)
  }

  function SendChunk(file: seq<byte>, location: nat, st: State, net: Net, n: nat): Turn
    requires Ready(file, st)
  {
    if st.offset >= |file| then Stop(Run(st.session, Done, st.record))
    else if net.tab(n).Closes? then Stop(Run(st.session, Abandoned, st.record))
    else if net.tab(n).CannotRead? then Stop(Run(st.session, Failed(FileUnreadable), st.record))
    else
      var end := Min(st.offset + CHUNK_BYTES, |file|);
      var (after, sent) := Patch(st.session, st.offset, file[st.offset..end], net.patches(n));
      TakeAnswer(|file|, location, st.broken, end, after, sent, st.record.Heard(sent), net.probes(n))
  }

  /** What the client makes of the answer to a chunk that would have brought it to `end`. */
  function TakeAnswer(size: nat, location: nat, broken: nat, end: nat, after: Session, sent: Reply,
                      record: Record, probe: HeadFate): Turn
  {
    if sent.NoAnswer? then
      AskWhere(size, broken + 1, after, NetworkError, record, record, probe)
    else if sent.status == 409 then
      match ReadConflict(sent.code, sent.offset)
      case NameIsTaken => Stop(Run(after, NameClash(location), record))
      case Realign(where) => Go(State(where, broken, after, record))
      case Other => Stop(Run(after, Failed(ServerRefused(409)), record))
    else if TryAgainLater(sent.status) then
      AskWhere(size, broken + 1, after, ServerRefused(sent.status),
               record, record.Wait(BackoffMs(sent.retryAfter, broken + 1)), probe)
    else if !sent.Ok() then
      Stop(Run(after, Failed(ServerRefused(sent.status)), record))
    else
      Go(State(end, 0, after, record.Show(end)))
  }

  /** A chunk did not get through for the `broken`-th time: give up, or pause and ask the server where it stands. */
  function AskWhere(size: nat, broken: nat, s: Session, why: Why, record: Record, paused: Record, probe: HeadFate): Turn
  {
    if broken > BROKEN_CHUNK_RETRIES then Stop(Run(s, Failed(why), record))
    else
      var (after, where) := Probe(s, size, probe);
      if where.None? then Stop(Run(after, Failed(why), paused.Asked()))
      else Go(State(where.value, broken, after, paused.Asked().Show(where.value)))
  }

  /** An offset the server wrote is read back exactly, up to the largest safe integer, unless the name is taken. */
  lemma HeaderRoundTrip(code: Option<string>, offset: nat)
    ensures code == Some("name-taken") ==> ReadConflict(code, Some(Finite(offset as real))) == NameIsTaken
    ensures code != Some("name-taken") ==>
              ReadConflict(code, Some(Finite(offset as real))) ==
                if offset as real <= MAX_SAFE_INTEGER then Realign(offset) else Other
  {
  }

  /** The header says this number, and it is not beyond the largest safe integer. */
  predicate NamesOffset(header: Option<HeaderNumber>, n: nat) {
    header == Some(Finite(n as real)) && n <= 9007199254740991
  }

  /** A 409 realigns exactly when its offset is a whole number from 0 to the largest safe integer and the name is not taken. */
  lemma RealignsIff(code: Option<string>, header: Option<HeaderNumber>, n: nat)
    ensures ReadConflict(code, header) == Realign(n) <==> code != Some("name-taken") && NamesOffset(header, n)
    ensures ReadConflict(code, header) == NameIsTaken <==> code == Some("name-taken")
  {
  }

  /** Taking the answer keeps the loop's invariant, for any answer that told the truth. */
  lemma AnswerKeepsReady(file: seq<byte>, location: nat, st: State, end: nat, after: Session, sent: Reply,
                         record: Record, probe: HeadFate)
    requires Ready(file, st) && st.offset < end <= |file|
    requires Sound(after, file) && Extends(st.session, after)
    requires sent.Ok() ==> after.recorded == end
    requires sent.Answer? && sent.status == 409 && !sent.NameTaken() && sent.offset.Some? ==>
               sent.offset == Some(Finite(after.recorded as real))
    ensures KeepsReady(file, st, TakeAnswer(|file|, location, st.broken, end, after, sent, record, probe))
  {
    ProbeResumes(after, file, probe);
    if sent.Answer? {
      HeaderRoundTrip(sent.code, after.recorded);
    }
  }

  lemma TurnKeepsReady(file: seq<byte>, location: nat, st: State, net: Net, n: nat)
    requires Ready(file, st)
    ensures KeepsReady(file, st, SendChunk(file, location, st, net, n))
  {
    if st.offset < |file| {
      var end := Min(st.offset + CHUNK_BYTES, |file|);
      var (after, sent) := Patch(st.session, st.offset, file[st.offset..end], net.patches(n));
      PatchKeepsSound(st.session, file, st.offset, end, net.patches(n));
      AnswersTellTheTruth(st.session, file, end, net.patches(n));
      AnswerKeepsReady(file, location, st, end, after, sent, st.record.Heard(sent), net.probes(n));
    }
  }

  // ---- the whole loop --------------------------------------------------------------------------

  function ChunksLeft(size: nat, offset: nat): nat {
    if offset >= size then 0 else (size - offset + CHUNK_BYTES - 1) / CHUNK_BYTES
  }

  /**
   What every turn uses up: seven for a chunk still to send, two for a failure still allowed, one while
   the staging file is ahead of the row.
   */
  ghost function Potential(size: nat, st: State): nat
    requires st.broken <= BROKEN_CHUNK_RETRIES
  {
    7 * ChunksLeft(size, st.session.recorded) + 2 * (BROKEN_CHUNK_RETRIES - st.broken)
    + if st.session.recorded < |st.session.staged| then 1 else 0
  }

  /** Sending a chunk to its end leaves one chunk fewer; nothing the server reports ever adds one. */
  lemma ChunksFall(size: nat, from: nat, to: nat)
    requires from <= to <= size
    ensures ChunksLeft(size, to) <= ChunksLeft(size, from)
    ensures from < size && to == Min(from + CHUNK_BYTES, size) ==> ChunksLeft(size, to) == ChunksLeft(size, from) - 1
    ensures from < size == to ==> ChunksLeft(size, from) > ChunksLeft(size, to)
  {
  }

  /** A turn that goes on has sent a chunk, has counted a failure, or has been realigned forward. */
  lemma TurnIsOneOfThree(file: seq<byte>, location: nat, st: State, net: Net, n: nat)
    requires Ready(file, st)
    ensures var turn := SendChunk(file, location, st, net, n);
            turn.Go? ==>
              var next := turn.next;
              && st.offset < |file| && |next.record.log| == |st.record.log| + 1
              && st.record.log == next.record.log[..|st.record.log|]
              && var sent := next.record.log[|st.record.log|];
                 if sent.Ok() then
                   && next.offset == Min(st.offset + CHUNK_BYTES, |file|) == |next.session.staged|
                   && next.broken == 0
                   && next.session.published == (next.offset == |file|)
                   && next.record.waits == st.record.waits
                   && next.record.shown == st.record.shown + [next.offset]
                   && next.record.heads == st.record.heads
                 else if sent.Answer? && sent.status == 409 then
                   && !sent.NameTaken()
                   && sent.offset == Some(Finite(next.offset as real)) && IsSafeInteger(next.offset as real)
                   && st.offset < next.offset == |next.session.staged|
                   && next.broken == st.broken
                   && !next.session.published
                   && (st.offset < |st.session.staged| || next.offset == |file|)
                   && next.record == st.record.Heard(sent)
                 else
                   && (sent.NoAnswer? || TryAgainLater(sent.status))
                   && next.broken == st.broken + 1
                   && 0 < next.offset < |file|
                   && next.record.shown == st.record.shown + [next.offset]
                   && next.record.heads == st.record.heads + 1
                   && (if sent.NoAnswer? then next.record.waits == st.record.waits
                       else next.record.waits == st.record.waits + [BackoffMs(sent.retryAfter, next.broken)])
  {
    if st.offset < |file| {
      var end := Min(st.offset + CHUNK_BYTES, |file|);
      var (after, sent) := Patch(st.session, st.offset, file[st.offset..end], net.patches(n));
      PatchKeepsSound(st.session, file, st.offset, end, net.patches(n));
      AnswersTellTheTruth(st.session, file, end, net.patches(n));
      AnswerIsOneOfThree(file, location, st, end, after, sent, net.probes(n));
    }
  }

  lemma AnswerIsOneOfThree(file: seq<byte>, location: nat, st: State, end: nat, after: Session, sent: Reply, probe: HeadFate)
    requires Ready(file, st) && st.offset < end <= |file| && Sound(after, file)
    requires sent.Answer? && sent.status == 409 && !sent.NameTaken() && sent.offset.Some? ==>
               sent.offset == Some(Finite(after.recorded as real))
    ensures var record := st.record.Heard(sent);
            var turn := TakeAnswer(|file|, location, st.broken, end, after, sent, record, probe);
            turn.Go? ==>
              var next := turn.next;
              if sent.Ok() then
                next == State(end, 0, after, record.Show(end))
              else if sent.Answer? && sent.status == 409 then
                && !sent.NameTaken() && sent.offset.Some? && IsSafeInteger(after.recorded as real)
                && next == State(after.recorded, st.broken, after, record)
              else
                && (sent.NoAnswer? || TryAgainLater(sent.status))
                && next.broken == st.broken + 1
                && 0 < next.offset < |file|
                && next.record.log == record.log
                && next.record.shown == record.shown + [next.offset]
                && next.record.heads == record.heads + 1
                && (if sent.NoAnswer? then next.record.waits == record.waits
                    else next.record.waits == record.waits + [BackoffMs(sent.retryAfter, next.broken)])
  {
    ProbeResumes(after, file, probe);
    if sent.Answer? {
      HeaderRoundTrip(sent.code, after.recorded);
    }
  }

  /** The chunks left are just enough for the bytes left. */
  lemma ChunksLeftIs(size: nat, offset: nat)
    requires offset <= size
    ensures 5242880 * ChunksLeft(size, offset) >= size - offset
    ensures offset < size ==> 5242880 * (ChunksLeft(size, offset) - 1) < size - offset
    ensures offset == size ==> ChunksLeft(size, offset) == 0
  {
  }

  /**
   Why a turn ends the run: the tab closed, the file could not be read, or else the answer to its PATCH, which says
   which of the causes it is. Where the server stands is asked after a failure that could still be retried, after the
   pause it asked for.
   */
  lemma StopReason(file: seq<byte>, location: nat, st: State, net: Net, n: nat)
    requires Ready(file, st) && st.offset < |file|
    ensures var turn := SendChunk(file, location, st, net, n);
            && (net.tab(n).Closes? ==> turn == Stop(Run(st.session, Abandoned, st.record)))
            && (net.tab(n).CannotRead? ==> turn == Stop(Run(st.session, Failed(FileUnreadable), st.record)))
            && (net.tab(n).Reads? && turn.Stop? ==>
                  var sent := Patch(st.session, st.offset, file[st.offset..Min(st.offset + CHUNK_BYTES, |file|)], net.patches(n)).1;
                  var asked := st.broken < 3 && (sent.NoAnswer? || sent.status == 429 || sent.status == 503);
                  && turn.run.record.log == st.record.log + [sent]
                  && turn.run.record.shown == st.record.shown
                  && turn.run.record.heads == st.record.heads + (if asked then 1 else 0)
                  && turn.run.record.waits ==
                     (if asked && sent.Answer? then st.record.waits + [BackoffMs(sent.retryAfter, st.broken + 1)]
                      else st.record.waits)
                  && turn.run.outcome ==
                     if sent.NoAnswer? then Failed(NetworkError)
                     else if sent.NameTaken() then NameClash(location)
                     else Failed(ServerRefused(sent.status)))
  {
    hide Patch, Probe, BackoffMs;
  }

  /** When an answered PATCH lets the loop go on: on an OK, a usable offset, or an answered question after "not now". */
  lemma AnswerGoesOnIff(size: nat, location: nat, broken: nat, end: nat, after: Session, sent: Reply, record: Record, probe: HeadFate)
    ensures TakeAnswer(size, location, broken, end, after, sent, record, probe).Go? <==>
              || (sent.Answer? && 200 <= sent.status < 300)
              || (&& sent.Answer? && sent.status == 409 && sent.code != Some("name-taken")
                  && exists n: nat :: NamesOffset(sent.offset, n))
              || (&& (sent.NoAnswer? || sent.status == 429 || sent.status == 503)
                  && broken < 3 && Probe(after, size, probe).1.Some?)
  {
    hide Probe, BackoffMs;
    if sent.Answer? && sent.status == 409 {
      if ReadConflict(sent.code, sent.offset).Realign? {
        RealignsIff(sent.code, sent.offset, ReadConflict(sent.code, sent.offset).offset);
      }
      forall n: nat | NamesOffset(sent.offset, n) && sent.code != Some("name-taken")
        ensures ReadConflict(sent.code, sent.offset) == Realign(n)
      {
        RealignsIff(sent.code, sent.offset, n);
      }
    }
  }

  /** A turn that goes on uses up potential, so the loop ends whatever the network does. */
  lemma TurnUsesPotential(file: seq<byte>, location: nat, st: State, net: Net, n: nat)
    requires Ready(file, st)
    ensures var turn := SendChunk(file, location, st, net, n);
            turn.Go? ==> turn.next.broken <= BROKEN_CHUNK_RETRIES && Potential(|file|, turn.next) < Potential(|file|, st)
  {
    var turn := SendChunk(file, location, st, net, n);
    if turn.Go? {
      TurnKeepsReady(file, location, st, net, n);
      TurnIsOneOfThree(file, location, st, net, n);
      ChunksFall(|file|, st.offset, turn.next.offset);
    }
  }

  function Drive(file: seq<byte>, location: nat, st: State, net: Net, n: nat): Run
    requires Ready(file, st)
    decreases Potential(|file|, st)
  {
    match SendChunk(file, location, st, net, n)
    case Stop(run) => run
    case Go(next) =>
      TurnKeepsReady(file, location, st, net, n);
      TurnUsesPotential(file, location, st, net, n);
      Drive(file, location, next, net, n + 1)
  }

  lemma DriveUnfolds(file: seq<byte>, location: nat, st: State, net: Net, n: nat)
    requires Ready(file, st)
    ensures var turn := SendChunk(file, location, st, net, n);
            && (turn.Stop? ==> Drive(file, location, st, net, n) == turn.run)
            && (turn.Go? ==>
                  && Ready(file, turn.next) && Potential(|file|, turn.next) < Potential(|file|, st)
                  && Drive(file, location, st, net, n) == Drive(file, location, turn.next, net, n + 1))
  {
    TurnKeepsReady(file, location, st, net, n);
    TurnUsesPotential(file, location, st, net, n);
  }

  // ---- opening a session, and a whole run ------------------------------------------------------

  ghost predicate WorldSound(file: seq<byte>, w: World) {
    && (forall i :: 0 <= i < |w.sessions| ==> Sound(w.sessions[i], file))
    && (w.memory.Some? ==> w.memory.value < |w.sessions|)
  }

  datatype Opening = Opening(world: World, at: Option<nat>, why: Why, waits: seq<real>, posts: nat)

  /** POST /uploads, repeated while the server says "not now". A session opened without an address is orphaned. */
  function Open(size: nat, w: World, net: Net, attempt: nat): Opening
    requires 1 <= attempt <= BROKEN_CHUNK_RETRIES + 1
    decreases BROKEN_CHUNK_RETRIES + 1 - attempt
  {
    match net.posts(attempt)
    case PostUnreached => Opening(w, None, NetworkError, [], 1)
    case PostRefused(refusal) =>
      if !TryAgainLater(refusal.status) || attempt > BROKEN_CHUNK_RETRIES then
        Opening(w, None, ServerRefused(refusal.status), [], 1)
      else
        var rest := Open(size, w, net, attempt + 1);
        rest.(waits := [BackoffMs(refusal.retryAfter, attempt)] + rest.waits, posts := 1 + rest.posts)
    case PostCreated(located) =>
      var grown := w.(sessions := w.sessions + [Fresh(size)]);
      if !located then Opening(grown, None, NoLocation, [], 1)
      else Opening(grown.(memory := Some(|w.sessions|)), Some(|w.sessions|), NoLocation, [], 1)
  }

  /** The remembered session, when the server still vouches for it; otherwise the memory is dropped. */
  function Recall(file: seq<byte>, w: World, net: Net): (World, Option<nat>)
    requires WorldSound(file, w)
  {
    if w.memory.None? then (w, None)
    else
      var (s, where) := Probe(w.sessions[w.memory.value], |file|, net.resume);
      var seen := w.(sessions := w.sessions[w.memory.value := s]);
      if where.None? then (seen.(memory := None), None) else (seen, where)
  }

  datatype Report = Report(world: World, outcome: Outcome, record: Record, posts: nat)

  function Upload(file: seq<byte>, w: World, net: Net): Report
    requires WorldSound(file, w)
  {
    if |file| == 0 then Report(w, Failed(EmptyFile), Record([], [], 0, []), 0)
    else
      RecallIsSound(file, w, net);
      var (recalled, where) := Recall(file, w, net);
      if where.Some? then
        Send(file, recalled, recalled.memory.value, where.value, Record([where.value], [], 1, []), 0, net)
      else
        var opening := Open(|file|, recalled, net, 1);
        var record := Record([], opening.waits, if w.memory.Some? then 1 else 0, []);
        if opening.at.None? then
          Report(opening.world, Failed(opening.why), record, opening.posts)
        else
          OpenIsSound(file, recalled, net, 1);
          Send(file, opening.world, opening.at.value, 0, record, opening.posts, net)
  }

  /** The sending loop, then the memory: it goes only when the loop ran to the end of the file. */
  function Send(file: seq<byte>, w: World, location: nat, offset: nat, record: Record, posts: nat, net: Net): Report
    requires location < |w.sessions| && Ready(file, State(offset, 0, w.sessions[location], record))
  {
    var run := Drive(file, location, State(offset, 0, w.sessions[location], record), net, 0);
    var left := w.(sessions := w.sessions[location := run.session]);
    Report(if run.outcome.Done? then left.(memory := None) else left, run.outcome, run.record, posts)
  }

  lemma RecallIsSound(file: seq<byte>, w: World, net: Net)
    requires WorldSound(file, w)
    ensures var (recalled, where) := Recall(file, w, net);
            && WorldSound(file, recalled)
            && |recalled.sessions| == |w.sessions|
            && (forall i :: 0 <= i < |w.sessions| ==> Extends(w.sessions[i], recalled.sessions[i]))
            && (where.Some? ==>
                  && recalled.memory == w.memory && w.memory.Some?
                  && Ready(file, State(where.value, 0, recalled.sessions[w.memory.value], Record([], [], 0, [])))
                  && 0 < where.value < |file|)
            && (where.None? ==> recalled.memory == None)
  {
    if w.memory.Some? {
      ProbeResumes(w.sessions[w.memory.value], file, net.resume);
    }
  }

  lemma {:induction false} OpenIsSound(file: seq<byte>, w: World, net: Net, attempt: nat)
    requires WorldSound(file, w) && 1 <= attempt <= BROKEN_CHUNK_RETRIES + 1
    ensures var opening := Open(|file|, w, net, attempt);
            && WorldSound(file, opening.world)
            && w.sessions <= opening.world.sessions
            && (opening.at.Some? ==>
                  && opening.at == Some(|w.sessions|) && opening.world.memory == opening.at
                  && opening.world.sessions == w.sessions + [Fresh(|file|)])
            && (opening.at.None? ==> opening.world.memory == w.memory)
            && opening.posts <= BROKEN_CHUNK_RETRIES + 2 - attempt
            && |opening.waits| < opening.posts
            && (forall i :: 0 <= i < |opening.waits| ==> 0.0 < opening.waits[i] <= RETRY_CEILING_MS)
    decreases BROKEN_CHUNK_RETRIES + 1 - attempt
  {
    hide BackoffMs;
    match net.posts(attempt)
    case PostUnreached =>
    case PostRefused(refusal) =>
      if TryAgainLater(refusal.status) && attempt <= BROKEN_CHUNK_RETRIES {
        OpenIsSound(file, w, net, attempt + 1);
      }
    case PostCreated(_) =>
  }

  /** A POST that is repeated, if it is not the fourth. */
  predicate AskedToWait(post: PostFate) {
    post.PostRefused? && (post.refusal.status == 429 || post.refusal.status == 503)
  }

  /** The POST that settles the matter: every one before it was told to wait, and it was not, or is the fourth. */
  predicate Settles(net: Net, first: nat, k: nat) {
    && first <= k <= 4
    && (forall j :: first <= j < k ==> AskedToWait(net.posts(j)))
    && (k == 4 || !AskedToWait(net.posts(k)))
  }

  /** The pause after the j-th POST: what the server asked for, in seconds, else 1, 2, 4; never more than ten. */
  function PauseAfter(net: Net, j: nat): real {
    match net.posts(j)
    case PostRefused(Refusal(_, Some(seconds))) =>
      if seconds >= 10.0 then 10_000.0 else if seconds > 0.0 then seconds * 1000.0 else Unasked(j)
    case _ => Unasked(j)
  }

  function Unasked(j: nat): real {
    if j == 1 then 1000.0 else if j == 2 then 2000.0 else if j == 3 then 4000.0 else 8000.0
  }

  /** The pause is what the server asked for in seconds, else 1, 2, 4, 8 seconds; never more than ten. */
  lemma BackoffIs(retryAfter: Option<real>, attempt: nat)
    requires 1 <= attempt <= 4
    ensures retryAfter.Some? && retryAfter.value > 0.0 ==>
              BackoffMs(retryAfter, attempt) == if retryAfter.value >= 10.0 then 10_000.0 else retryAfter.value * 1000.0
    ensures retryAfter.None? || retryAfter.value <= 0.0 ==> BackoffMs(retryAfter, attempt) == Unasked(attempt)
  {
    assert Doubled(0) == 1 && Doubled(1) == 2 && Doubled(2) == 4 && Doubled(3) == 8;
  }

  /** How an opening ends is decided by the POST that settles it, and by nothing else. */
  lemma {:induction false} OpeningIs(size: nat, w: World, net: Net, first: nat, k: nat)
    requires 1 <= first && Settles(net, first, k)
    ensures var opening := Open(size, w, net, first);
            && opening.posts == k - first + 1
            && |opening.waits| == k - first
            && (forall j :: 0 <= j < k - first ==> opening.waits[j] == PauseAfter(net, first + j))
            && match net.posts(k)
               case PostUnreached => opening.at.None? && opening.why == NetworkError && opening.world == w
               case PostRefused(refusal) =>
                 opening.at.None? && opening.why == ServerRefused(refusal.status) && opening.world == w
               case PostCreated(located) =>
                 && opening.world == World(if located then Some(|w.sessions|) else w.memory, w.sessions + [Fresh(size)])
                 && (if located then opening.at == Some(|w.sessions|) else opening.at.None? && opening.why == NoLocation)
    decreases k - first
  {
    if first < k {
      assert AskedToWait(net.posts(first));
      BackoffIs(net.posts(first).refusal.retryAfter, first);
      OpeningIs(size, w, net, first + 1, k);
      hide BackoffMs, PauseAfter;
    }
  }

  /** There is always such a POST. */
  lemma SomePostSettles(net: Net) returns (k: nat)
    ensures 1 <= k && Settles(net, 1, k)
  {
    k := if !AskedToWait(net.posts(1)) then 1
         else if !AskedToWait(net.posts(2)) then 2
         else if !AskedToWait(net.posts(3)) then 3 else 4;
  }

  /** A session is opened exactly when one of four POSTs is answered with its address and all before it were told to wait. */
  lemma OpensIff(size: nat, w: World, net: Net)
    ensures Open(size, w, net, 1).at.Some?
            <==> exists k :: 1 <= k && Settles(net, 1, k) && net.posts(k) == PostCreated(true)
  {
    var k := SomePostSettles(net);
    OpeningIs(size, w, net, 1, k);
    forall other | 1 <= other && Settles(net, 1, other) ensures other == k {
      assert other < k ==> AskedToWait(net.posts(other));
      assert k < other ==> AskedToWait(net.posts(k));
    }
  }

  // ---- the program -----------------------------------------------------------------------------

  /** `uploadFile`: resume or open, then send chunk by chunk until the file's end. */
  method UploadFile(file: seq<byte>, w: World, net: Net) returns (report: Report)
    requires WorldSound(file, w)
    ensures report == Upload(file, w, net)
  {
    if |file| == 0 {
      return Report(w, Failed(EmptyFile), Record([], [], 0, []), 0);
    }
    RecallIsSound(file, w, net);
    var (world, resumed) := Recall(file, w, net);
    var offset, record, posts := 0, Record([], [], if w.memory.Some? then 1 else 0, []), 0;
    if resumed.Some? {
      offset := resumed.value;
      record := record.Show(offset);
      assert record == Record([offset], [], 1, []);
    } else {
      OpenIsSound(file, world, net, 1);
      var opening := OpenSession(|file|, world, net);
      world, record, posts := opening.world, record.(waits := opening.waits), opening.posts;
      if opening.at.None? {
        return Report(world, Failed(opening.why), record, posts);
      }
    }
    var location := world.memory.value;
    assert Upload(file, w, net) == Send(file, world, location, offset, record, posts, net);
    ghost var before := world;
    var run := SendChunks(file, location, State(offset, 0, world.sessions[location], record), net);
    world := world.(sessions := world.sessions[location := run.session]);
    if run.outcome.Done? {
      world := world.(memory := None);
    }
    report := Report(world, run.outcome, run.record, posts);
    assert report == Send(file, before, location, offset, record, posts, net);
  }

  /** The loop of `uploadFile` that opens a session. */
  method OpenSession(size: nat, w: World, net: Net) returns (opening: Opening)
    ensures opening == Open(size, w, net, 1)
  {
    var waits, attempt := [], 1;
    while true
      invariant 1 <= attempt <= BROKEN_CHUNK_RETRIES + 1
      invariant var rest := Open(size, w, net, attempt);
                Open(size, w, net, 1) == rest.(waits := waits + rest.waits, posts := attempt - 1 + rest.posts)
      decreases BROKEN_CHUNK_RETRIES + 1 - attempt
    {
      var answer := net.posts(attempt);
      if answer.PostUnreached? {
        return Opening(w, None, NetworkError, waits, attempt);
      }
      if answer.PostCreated? {
        var grown := w.(sessions := w.sessions + [Fresh(size)]);
        if !answer.located {
          return Opening(grown, None, NoLocation, waits, attempt);
        }
        return Opening(grown.(memory := Some(|w.sessions|)), Some(|w.sessions|), NoLocation, waits, attempt);
      }
      if !TryAgainLater(answer.refusal.status) || attempt > BROKEN_CHUNK_RETRIES {
        return Opening(w, None, ServerRefused(answer.refusal.status), waits, attempt);
      }
      waits := waits + [BackoffMs(answer.refusal.retryAfter, attempt)];
      attempt := attempt + 1;
    }
  }

  /** The loop of `uploadFile` that sends the chunks. */
  method SendChunks(file: seq<byte>, location: nat, start: State, net: Net) returns (run: Run)
    requires Ready(file, start)
    ensures run == Drive(file, location, start, net, 0)
  {
    var st, n: nat := start, 0;
    while st.offset < |file|
      invariant Ready(file, st)
      invariant Drive(file, location, start, net, 0) == Drive(file, location, st, net, n)
      decreases Potential(|file|, st)
    {
      DriveUnfolds(file, location, st, net, n);
      var tab := net.tab(n);
      if tab.Closes? {
        return Run(st.session, Abandoned, st.record);
      }
      if tab.CannotRead? {
        return Run(st.session, Failed(FileUnreadable), st.record);
      }
      var end := Min(st.offset + CHUNK_BYTES, |file|);
      var (after, sent) := Patch(st.session, st.offset, file[st.offset..end], net.patches(n));
      var turn := DecideNext(|file|, location, st, end, after, sent, net.probes(n));
      if turn.Stop? {
        return turn.run;
      }
      st, n := turn.next, n + 1;
    }
    run := Run(st.session, Done, st.record);
  }

  /** The rest of the loop's body: what the answer to one PATCH does to the loop's variables. */
  method DecideNext(size: nat, location: nat, st: State, end: nat, after: Session, sent: Reply, probe: HeadFate)
    returns (turn: Turn)
    ensures turn == TakeAnswer(size, location, st.broken, end, after, sent, st.record.Heard(sent), probe)
  {
    var offset, broken, session, record := st.offset, st.broken, after, st.record.Heard(sent);
    if sent.NoAnswer? {
      broken := broken + 1;
      if broken > BROKEN_CHUNK_RETRIES {
        return Stop(Run(session, Failed(NetworkError), record));
      }
      var (asked, where) := Probe(session, size, probe);
      session, record := asked, record.Asked();
      if where.None? {
        return Stop(Run(session, Failed(NetworkError), record));
      }
      offset := where.value;
      record := record.Show(offset);
    } else if sent.status == 409 {
      var what := ReadConflict(sent.code, sent.offset);
      if what.NameIsTaken? {
        return Stop(Run(session, NameClash(location), record));
      }
      if what.Other? {
        return Stop(Run(session, Failed(ServerRefused(409)), record));
      }
      offset := what.offset;
    } else if TryAgainLater(sent.status) {
      broken := broken + 1;
      if broken > BROKEN_CHUNK_RETRIES {
        return Stop(Run(session, Failed(ServerRefused(sent.status)), record));
      }
      record := record.Wait(BackoffMs(sent.retryAfter, broken));
      var (asked, where) := Probe(session, size, probe);
      session, record := asked, record.Asked();
      if where.None? {
        return Stop(Run(session, Failed(ServerRefused(sent.status)), record));
      }
      offset := where.value;
      record := record.Show(offset);
    } else if !sent.Ok() {
      return Stop(Run(session, Failed(ServerRefused(sent.status)), record));
    } else {
      offset := end;
      broken := 0;
      record := record.Show(offset);
    }
    turn := Go(State(offset, broken, session, record));
  }
}
