/** The read chain that `Session` and `Client` share: read a header, read a body, allocate a
    fresh message, read the next header. One function per completion. */
module ReadChain {
  import opened CText
  import opened Framing

  /** The outstanding `async_read`. `Stopped` remembers how many bytes of the array are stream
      bytes, and whether the chain stopped because a header was rejected. */
  datatype Pending = Idle | Header | Body(length: nat) | Stopped(held: nat, rejected: bool)

  /** A frame that was read to its end, and what `isHeartbeat` said about it. */
  datatype Seen = Seen(frame: string, heartbeat: bool)

  /** `got` counts the bytes that the outstanding read has stored; `buffer` is the array of
      `message_`; `seen` is the history of the chain. */
  datatype Reader = Reader(pending: Pending, got: nat, buffer: Buffer, seen: seq<Seen>)

  /** The size of the outstanding read. */
  function Wanted(r: Reader): nat {
    match r.pending
    case Header => HEADER_SIZE
    case Body(length) => length
    case _ => 0
  }

  /** How many bytes at the front of the array came from the stream. */
  function Held(r: Reader): nat {
    match r.pending
    case Idle => 0
    case Header => r.got
    case Body(_) => HEADER_SIZE + r.got
    case Stopped(held, _) => held
  }

  predicate Bounded(r: Reader) {
    && (r.pending.Header? || r.pending.Body? ==> r.got <= Wanted(r))
    && Held(r) <= BUFFER_SIZE
    && (r.pending.Body? ==> r.pending.length <= MAX_BODY_SIZE)
  }

  predicate Reading(r: Reader) {
    r.pending.Header? || r.pending.Body?
  }

  predicate Complete(r: Reader) {
    Reading(r) && r.got == Wanted(r)
  }

  /** What the five header bytes and the four bytes behind them say. */
  predicate HeaderAccepted(r: Reader) {
    Atoi(UpToNul(r.buffer[..5])) >= 0
  }

  predicate HoldsPing(r: Reader) {
    r.buffer[5..9] == "PING"
  }

  // ----- what the completions do -----

  function Begin(r: Reader, memory: Buffer): Reader {
    r.(pending := Header, got := 0, buffer := memory)
  }

  /** The transport stores the next bytes of the stream in the array. */
  function Receive(r: Reader, bytes: string): Reader
    requires Bounded(r) && Reading(r) && r.got + |bytes| <= Wanted(r)
  {
    r.(buffer := Splice(r.buffer, Held(r), bytes), got := r.got + |bytes|)
  }

  function HeaderDone(r: Reader): Reader
    requires Bounded(r) && r.pending.Header? && Complete(r)
  {
    var (length, ok) := DecodeHeader(r.buffer[..HEADER_SIZE]);
    if ok then r.(pending := Body(length), got := 0)
    else r.(pending := Stopped(HEADER_SIZE, true))
  }

  function BodyDone(r: Reader, memory: Buffer): Reader
    requires Bounded(r) && r.pending.Body? && Complete(r)
  {
    var frame := r.buffer[..HEADER_SIZE + r.pending.length];
    Begin(r.(seen := r.seen + [Seen(frame, IsHeartbeat(r.buffer))]), memory)
  }

  function ReadFailed(r: Reader): Reader {
    r.(pending := Stopped(Held(r), false))
  }

  // ----- the invariant -----

  /** The contents that the memory of the i-th message object has before it is used. */
  type Supply = nat -> Buffer

  function Frames(seen: seq<Seen>): (r: seq<string>)
    ensures |r| == |seen| && forall i :: 0 <= i < |r| ==> r[i] == seen[i].frame
  {
    seq(|seen|, i requires 0 <= i < |seen| => seen[i].frame)
  }

  function Partial(r: Reader): string
    requires Bounded(r)
  {
    r.buffer[..Held(r)]
  }

  /** All the stream bytes that the reader ever took. */
  function Consumed(r: Reader): string
    requires Bounded(r)
  {
    Concat(Frames(r.seen)) + Partial(r)
  }

  predicate SeenRight(s: Seen, left: Buffer) {
    Framed(s.frame) && |s.frame| <= BUFFER_SIZE && s.heartbeat == IsHeartbeat(Overlay(s.frame, left))
  }

  ghost predicate Inv(r: Reader, supply: Supply) {
    && Bounded(r)
    && (r.pending.Idle? ==> r.seen == [])
    && (Reading(r) || Held(r) > 0 ==> r.buffer == Overlay(Partial(r), supply(|r.seen|)))
    && (r.pending.Body? ==> DecodeHeader(r.buffer[..HEADER_SIZE]) == (r.pending.length, true))
    && (r.pending.Stopped? && r.pending.rejected ==>
          r.pending.held == HEADER_SIZE && !DecodeHeader(r.buffer[..HEADER_SIZE]).1)
    && forall i :: 0 <= i < |r.seen| ==> SeenRight(r.seen[i], supply(i))
  }

  lemma BeginKeeps(r: Reader, supply: Supply)
    requires r.pending.Idle? && Inv(r, supply)
    ensures Inv(Begin(r, supply(0)), supply) && Consumed(Begin(r, supply(0))) == Consumed(r) == []
  {
  }

  lemma ReceiveKeeps(r: Reader, bytes: string, supply: Supply)
    requires Inv(r, supply) && Reading(r) && r.got + |bytes| <= Wanted(r)
    ensures Inv(Receive(r, bytes), supply) && Reading(Receive(r, bytes))
    ensures Consumed(Receive(r, bytes)) == Consumed(r) + bytes
  {
    hide DecodeHeader, SeenRight, Splice;
    var q := Receive(r, bytes);
    SpliceExtends(r.buffer, Held(r), bytes, supply(|r.seen|));
    Assoc(Concat(Frames(r.seen)), Partial(r), bytes);
    if r.pending.Body? {
      assert q.buffer[..HEADER_SIZE] == r.buffer[..HEADER_SIZE];
    }
  }

  lemma HeaderDoneKeeps(r: Reader, supply: Supply)
    requires Inv(r, supply) && r.pending.Header? && Complete(r)
    ensures Inv(HeaderDone(r), supply)
    ensures Consumed(HeaderDone(r)) == Consumed(r)
  {
    hide HeaderValue, SeenRight;
  }

  lemma BodyDoneKeeps(r: Reader, supply: Supply)
    requires Inv(r, supply) && r.pending.Body? && Complete(r)
    ensures Inv(BodyDone(r, supply(|r.seen| + 1)), supply)
    ensures Consumed(BodyDone(r, supply(|r.seen| + 1))) == Consumed(r)
  {
    hide DecodeHeader;
    var q := BodyDone(r, supply(|r.seen| + 1));
    var frame := Partial(r);
    assert frame[..HEADER_SIZE] == r.buffer[..HEADER_SIZE];
    assert SeenRight(q.seen[|r.seen|], supply(|r.seen|));
    assert Frames(q.seen) == Frames(r.seen) + [frame];
    ConcatSnoc(Frames(r.seen), frame);
    assert Partial(q) == [];
  }

  lemma ReadFailedKeeps(r: Reader, supply: Supply)
    requires Inv(r, supply) && Reading(r)
    ensures Inv(ReadFailed(r), supply)
    ensures Consumed(ReadFailed(r)) == Consumed(r)
  {
  }

  // ----- chunk independence -----

  /** No completion is waiting to be handled and no I/O error ended the chain. */
  predicate Settled(r: Reader) {
    (Reading(r) && !Complete(r)) || (r.pending.Stopped? && r.pending.rejected)
  }

  /** The reader is a one-shot parser of what it consumed, whatever the bytes are. */
  lemma ReaderIsParser(r: Reader, supply: Supply)
    requires Inv(r, supply) && Settled(r)
    ensures Parse(Consumed(r)) == Parsed(Frames(r.seen), r.pending.Stopped?, Partial(r))
  {
    hide HeaderValue;
    assert AllFramed(Frames(r.seen));
    ParseFrames(Frames(r.seen), Partial(r));
    if r.pending.Body? || r.pending.Stopped? {
      assert Partial(r)[..HEADER_SIZE] == r.buffer[..HEADER_SIZE];
    }
    assert Parse(Partial(r)) == Parsed([], r.pending.Stopped?, Partial(r));
  }
}
