/**
 The server half of a resumable upload: one row of `upload_sessions` and the staging file behind it.

 Two numbers say how far an upload has come. `recorded` is the row's `offset_bytes`, which HEAD reports;
 the length of `staged` is what the storage agent measures when it opens the staging file. They drift
 apart when a request dies between the write and the row, and the agent's number wins.

 Everything outside the client's control is a fate chosen by an adversary: a fate says how far a request
 gets and whether its answer comes back.
 */
module UploadServer {
  import opened Wrappers

  newtype byte = b: int | 0 <= b < 0x100

  /**
   `staged` are the bytes stored so far. Publication takes three steps: the agent renames the staging file into the tree
   (`moved`), the file gets its row, and the session is marked with it (`published`).
   */
  datatype Session = Session(length: nat, recorded: nat, staged: seq<byte>, moved: bool, published: bool)

  /** A header after JavaScript's `Number(...)`: NaN and the infinities are all `Unusable`. */
  datatype HeaderNumber = Unusable | Finite(value: real)

  /** What the client sees of a request; `NoAnswer` is a network error. */
  datatype Reply =
    | NoAnswer
    | Answer(status: nat, code: Option<string>, offset: Option<HeaderNumber>, retryAfter: Option<real>)
  {
    predicate Ok() {
      Answer? && 200 <= status < 300
    }

    predicate NameTaken() {
      Answer? && status == 409 && code == Some("name-taken")
    }
  }

  type RefusalStatus = s: nat | s >= 300 witness 503

  /** Any refusal: rate limit, agent down, no permission, no space. It never carries an offset. */
  datatype Refusal = Refusal(status: RefusalStatus, retryAfter: Option<real>)

  /**
   What a publication comes to, once every byte is staged and recorded. `NameHeld` and `PublicationFails` are the agent's:
   the staging file stays. `RowHeld` and `RowFails` come after the rename: another row has the folded name, or anything
   else goes wrong before the session is marked.
   */
  datatype Publication =
    | Publishes
    | NameHeld
    | PublicationFails(refusal: Refusal)
    | RowHeld
    | RowFails(refusal: Refusal)

  /** How far the handler of one PATCH gets. `Torn` leaves any prefix of the chunk in the staging file. */
  datatype Work =
    | Unreached
    | TurnedAway(refusal: Refusal)
    | Torn(kept: nat, told: Option<Refusal>)
    | Kept(publication: Publication)

  /** What an earlier handler, still running after its client gave up, does before this request. */
  datatype Late = Still | Records | Moves | Finishes

  datatype PatchFate = PatchFate(late: Late, work: Work, lost: bool)

  datatype HeadAnswer = HeadUnreached | HeadRefused(status: RefusalStatus) | HeadOk

  datatype HeadFate = HeadFate(late: Late, answer: HeadAnswer)

  datatype HeadReply = HeadReply(status: nat, offset: Option<int>, length: Option<int>)

  datatype PostFate = PostUnreached | PostRefused(refusal: Refusal) | PostCreated(located: bool)

  function Fresh(length: nat): Session {
    Session(length, 0, [], false, false)
  }

  function Settle(s: Session, late: Late): Session {
    match late
    case Still => s
    case Records => s.(recorded := |s.staged|)
    case Moves =>
      if |s.staged| == s.length then s.(recorded := |s.staged|, moved := true) else s
    case Finishes =>
      if |s.staged| == s.length then s.(recorded := |s.staged|, moved := true, published := true) else s
  }

  function Refuse(refusal: Refusal): Reply {
    Answer(refusal.status, Some("conflict"), None, refusal.retryAfter)
  }

  function Mismatch(offset: nat): Reply {
    Answer(409, Some("conflict"), Some(Finite(offset as real)), None)
  }

  function Patch(s: Session, offset: nat, body: seq<byte>, fate: PatchFate): (Session, Reply) {
    var (after, reply) := Handle(Settle(s, fate.late), offset, body, fate.work);
    (after, if fate.lost then NoAnswer else reply)
  }

  /** `sendChunk`, branch by branch. */
  function Handle(s: Session, offset: nat, body: seq<byte>, work: Work): (Session, Reply) {
    if work.Unreached? then
      (s, NoAnswer)
    else if work.TurnedAway? then
      (s, Refuse(work.refusal))
    else if s.published then
      (s, Answer(409, Some("conflict"), None, None))
    else if offset != s.recorded then
      (s, Mismatch(s.recorded))
    else if |body| == 0 || offset + |body| > s.length then
      (s, Answer(400, Some("bad-request"), None, None))
    else if |s.staged| != offset then
      (s.(recorded := |s.staged|), Mismatch(|s.staged|))
    else
      match work
      case Torn(kept, told) =>
        (s.(staged := s.staged + body[..if kept < |body| then kept else |body|]),
         if told.None? then NoAnswer else Refuse(told.value))
      case Kept(publication) =>
        Publish(s.(staged := s.staged + body, recorded := offset + |body|), publication)
  }

  /** The tail of `sendChunk`: the `Upload-Offset` header is already set when publication is tried. */
  function Publish(s: Session, publication: Publication): (Session, Reply) {
    var reached := Some(Finite(s.recorded as real));
    if s.recorded < s.length then
      (s, Answer(204, None, reached, None))
    else
      match publication
      case Publishes => (s.(moved := true, published := true), Answer(204, None, reached, None))
      case NameHeld => (s, Answer(409, Some("name-taken"), reached, None))
      case PublicationFails(refusal) => (s, Answer(refusal.status, Some("conflict"), reached, refusal.retryAfter))
      case RowHeld => (s.(moved := true), Answer(409, Some("name-taken"), reached, None))
      case RowFails(refusal) =>
        (s.(moved := true), Answer(refusal.status, Some("conflict"), reached, refusal.retryAfter))
  }

  /**
   `POST /uploads/{id}/resolve`, let in and with its folder in place: the staging file is published under the name
   decided on. Without a staging file there is nothing to publish, and the session itself is deleted.
   */
  function Resolve(s: Session, publication: Publication): (Option<Session>, Reply) {
    if s.published || s.recorded != s.length then (Some(s), Answer(409, Some("conflict"), None, None))
    else if s.moved then (None, Answer(410, Some("staged-bytes-gone"), None, None))
    else
      var (after, reply) := Publish(s, publication);
      (Some(after), if reply.Ok() then Answer(200, None, None, None) else reply.(offset := None))
  }

  /** HEAD reports the row, not the staging file. */
  function Head(s: Session, fate: HeadFate): (Session, Option<HeadReply>) {
    var settled := Settle(s, fate.late);
    match fate.answer
    case HeadUnreached => (settled, None)
    case HeadRefused(status) => (settled, Some(HeadReply(status, None, None)))
    case HeadOk => (settled, Some(HeadReply(200, Some(settled.recorded), Some(settled.length))))
  }

  /** The session holds a prefix of this file, in order, and never records, moves or publishes more than it holds. */
  ghost predicate Sound(s: Session, file: seq<byte>) {
    && s.length == |file|
    && s.recorded <= |s.staged|
    && s.staged <= file
    && (s.moved ==> s.staged == file && s.recorded == |file|)
    && (s.published ==> s.moved)
  }

  /** Nothing stored is taken back or rewritten. */
  ghost predicate Extends(before: Session, after: Session) {
    && before.staged <= after.staged
    && before.recorded <= after.recorded
    && (before.moved ==> after.moved)
    && (before.published ==> after.published)
  }

  /** Whatever slice of the file any client sends, at whatever offset it claims, the session stays sound. */
  lemma PatchKeepsSound(s: Session, file: seq<byte>, start: nat, end: nat, fate: PatchFate)
    requires Sound(s, file) && start <= end <= |file|
    ensures Sound(Patch(s, start, file[start..end], fate).0, file)
    ensures Extends(s, Patch(s, start, file[start..end], fate).0)
  {
    var body := file[start..end];
    var settled := Settle(s, fate.late);
    if |settled.staged| == start {
      forall k | 0 <= k <= |body| ensures settled.staged + body[..k] <= file {
        assert settled.staged + body[..k] == file[..start + k];
      }
      assert body[..|body|] == body;
    }
  }

  lemma HeadKeepsSound(s: Session, file: seq<byte>, fate: HeadFate)
    requires Sound(s, file)
    ensures Sound(Head(s, fate).0, file) && Extends(s, Head(s, fate).0)
  {
  }

  /**
   Whatever bytes any client sends at whatever offset: something is stored only when the row, the staging file and the
   client agree on the offset and the chunk stays within the declared length; then it is a first part of the chunk, at
   the end of what was stored.
   */
  lemma StoresOnlyInPlace(s: Session, offset: nat, body: seq<byte>, fate: PatchFate)
    ensures var after := Patch(s, offset, body, fate).0;
            after.staged != s.staged ==>
              && offset == Settle(s, fate.late).recorded == |s.staged| && 0 < |body| <= s.length - offset
              && !Settle(s, fate.late).published
              && s.staged <= after.staged <= s.staged + body
  {
  }

  /** The file leaves staging in every publication that gets past the agent, and is published only by one that gets to the end. */
  lemma PublicationStages(s: Session, publication: Publication)
    requires s.recorded == s.length && !s.moved && !s.published
    ensures var (after, reply) := Publish(s, publication);
            && after == s.(moved := after.moved, published := after.published)
            && (after.moved <==> !publication.NameHeld? && !publication.PublicationFails?)
            && (after.published <==> publication.Publishes?)
            && (reply.Ok() <==> publication.Publishes?)
            && (reply.NameTaken() <==> publication.NameHeld? || publication.RowHeld?)
            && reply.Answer? && reply.offset == Some(Finite(s.length as real))
  {
  }

  /** A decision publishes only a session whose whole file is still staged, and under a name that is free. */
  lemma ResolvesOnlyWhole(s: Session, publication: Publication)
    ensures Resolve(s, publication).1.Ok() <==>
              s.recorded == s.length && !s.moved && !s.published && publication.Publishes?
    ensures Resolve(s, publication).1.Ok() ==> Resolve(s, publication).0 == Some(s.(moved := true, published := true))
  {
  }

  /**
   What each answer to the session's own next chunk proves about the server. An OK means the whole chunk
   is stored, and published when it was the last; "name taken" means every byte is stored, unpublished, under an
   offset equal to the size, and still in the staging file exactly when it was the agent that found the name held; a
   usable offset on any other 409 is the length stored, and it is strictly ahead of the client.
   */
  lemma AnswersTellTheTruth(s: Session, file: seq<byte>, end: nat, fate: PatchFate)
    requires Sound(s, file) && s.recorded < end <= |file|
    ensures var (after, reply) := Patch(s, s.recorded, file[s.recorded..end], fate);
            && (reply.Ok() ==> after.staged == file[..end] && after.recorded == end && (after.published <==> end == |file|))
            && (reply.NameTaken() ==>
                  && after.staged == file && after.recorded == |file| && !after.published
                  && reply.offset == Some(Finite(|file| as real))
                  && fate.work.Kept? && (after.moved <==> fate.work.publication.RowHeld?)
                  && (!after.moved <==> fate.work.publication.NameHeld?))
            && (reply.Answer? && reply.status == 409 && !reply.NameTaken() && reply.offset.Some? ==>
                  && !after.published && after.recorded == |after.staged|
                  && reply.offset == Some(Finite(after.recorded as real))
                  && s.recorded < after.recorded
                  && (s.recorded < |s.staged| || after.staged == file))
  {
    var body := file[s.recorded..end];
    PatchKeepsSound(s, file, s.recorded, end, fate);
    if |s.staged| == s.recorded {
      assert s.staged + body == file[..end];
      assert file[..|file|] == file;
    }
  }
}
