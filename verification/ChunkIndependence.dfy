/** The read chain gives the same result however the stream is cut into pieces. */
module ChunkIndependence {
  import opened CText
  import opened Framing
  import opened ReadChain

  /** One step of the chain: bytes arrive, or a completed read is handled. */
  datatype Step = Bytes(bytes: string) | HandleHeader | HandleBody

  predicate Enabled(r: Reader, step: Step) {
    && Bounded(r)
    && match step
       case Bytes(bytes) => Reading(r) && r.got + |bytes| <= Wanted(r)
       case HandleHeader => r.pending.Header? && Complete(r)
       case HandleBody => r.pending.Body? && Complete(r)
  }

  function Apply(r: Reader, step: Step, supply: Supply): Reader
    requires Enabled(r, step)
  {
    match step
    case Bytes(bytes) => Receive(r, bytes)
    case HandleHeader => HeaderDone(r)
    case HandleBody => BodyDone(r, supply(|r.seen| + 1))
  }

  function Started(supply: Supply): Reader {
    Reader(Header, 0, supply(0), [])
  }

  /** The reader after a run, if every step of the run was possible. */
  function Run(steps: seq<Step>, supply: Supply): Option<Reader> {
    if steps == [] then Some(Started(supply))
    else
      var before := Run(steps[..|steps| - 1], supply);
      var step := steps[|steps| - 1];
      if before.Some? && Enabled(before.value, step) then Some(Apply(before.value, step, supply)) else None
  }

  /** The bytes that arrive during a run. */
  function Arrived(steps: seq<Step>): string {
    if steps == [] then []
    else
      var step := steps[|steps| - 1];
      Arrived(steps[..|steps| - 1]) + if step.Bytes? then step.bytes else []
  }

  lemma {:induction false} RunKeeps(steps: seq<Step>, supply: Supply)
    requires Run(steps, supply).Some?
    ensures Inv(Run(steps, supply).value, supply)
    ensures Consumed(Run(steps, supply).value) == Arrived(steps)
  {
    hide HeaderValue;
    if steps == [] {
      assert Consumed(Started(supply)) == [];
    } else {
      var before, step := steps[..|steps| - 1], steps[|steps| - 1];
      RunKeeps(before, supply);
      var r := Run(before, supply).value;
      match step
      case Bytes(bytes) => ReceiveKeeps(r, bytes, supply);
      case HandleHeader => HeaderDoneKeeps(r, supply);
      case HandleBody => BodyDoneKeeps(r, supply);
    }
  }

  /** A settled reader is determined by the bytes it consumed. */
  lemma SettledUnique(r: Reader, q: Reader, supply: Supply)
    requires Inv(r, supply) && Inv(q, supply) && Settled(r) && Settled(q)
    requires Consumed(r) == Consumed(q)
    ensures r.pending == q.pending && r.buffer == q.buffer && r.seen == q.seen
    ensures r.pending.Stopped? || r == q
  {
    hide HeaderValue, IsHeartbeat;
    ReaderIsParser(r, supply);
    ReaderIsParser(q, supply);
    assert Partial(r) == Partial(q);
    forall i | 0 <= i < |r.seen| ensures r.seen[i] == q.seen[i] {
      assert Frames(r.seen)[i] == Frames(q.seen)[i];
      assert SeenRight(r.seen[i], supply(i)) && SeenRight(q.seen[i], supply(i));
    }
    assert r.seen == q.seen;
    if Held(r) >= HEADER_SIZE {
      assert r.buffer[..HEADER_SIZE] == Partial(r)[..HEADER_SIZE] == q.buffer[..HEADER_SIZE];
    }
  }

  /** However a stream is cut into pieces and however the handlers are scheduled, the chain
      makes the same deliveries with the same classifications and stops at the same point:
      those of the one-shot parser. */
  lemma AnyChunking(steps1: seq<Step>, steps2: seq<Step>, supply: Supply)
    requires Run(steps1, supply).Some? && Settled(Run(steps1, supply).value)
    requires Run(steps2, supply).Some? && Settled(Run(steps2, supply).value)
    requires Arrived(steps1) == Arrived(steps2)
    ensures var (r1, r2) := (Run(steps1, supply).value, Run(steps2, supply).value);
            && r1.pending == r2.pending && r1.buffer == r2.buffer && r1.seen == r2.seen
            && Parse(Arrived(steps1)) == Parsed(Frames(r1.seen), r1.pending.Stopped?, Partial(r1))
  {
    RunKeeps(steps1, supply);
    RunKeeps(steps2, supply);
    ReaderIsParser(Run(steps1, supply).value, supply);
    SettledUnique(Run(steps1, supply).value, Run(steps2, supply).value, supply);
  }

  /** Whatever the memory of the messages held before: the same stream gives the same frames and
      the same stop, and, when no body is a proper prefix of "PING", the same classifications. */
  lemma AnyMemory(steps1: seq<Step>, steps2: seq<Step>, supply1: Supply, supply2: Supply)
    requires Run(steps1, supply1).Some? && Settled(Run(steps1, supply1).value)
    requires Run(steps2, supply2).Some? && Settled(Run(steps2, supply2).value)
    requires Arrived(steps1) == Arrived(steps2)
    ensures var (r1, r2) := (Run(steps1, supply1).value, Run(steps2, supply2).value);
            && Frames(r1.seen) == Frames(r2.seen) && r1.pending.Stopped? == r2.pending.Stopped?
            && ((forall f <- Parse(Arrived(steps1)).frames :: !Ambiguous(f)) ==> r1.seen == r2.seen)
  {
    hide Parse, DecodeHeader, Ambiguous, SeenRight, Overlay, Settled, Run, Arrived;
    RunKeeps(steps1, supply1);
    RunKeeps(steps2, supply2);
    var (r1, r2) := (Run(steps1, supply1).value, Run(steps2, supply2).value);
    ReaderIsParser(r1, supply1);
    ReaderIsParser(r2, supply2);
    if forall f <- Parse(Arrived(steps1)).frames :: !Ambiguous(f) {
      forall i | 0 <= i < |r1.seen| ensures r1.seen[i] == r2.seen[i] {
        assert Frames(r1.seen)[i] == Frames(r2.seen)[i];
        assert Frames(r1.seen)[i] in Parse(Arrived(steps1)).frames;
        SameClass(r1.seen[i], r2.seen[i], supply1(i), supply2(i));
      }
    }
  }

  lemma SameClass(s: Seen, t: Seen, left1: Buffer, left2: Buffer)
    requires SeenRight(s, left1) && SeenRight(t, left2) && s.frame == t.frame && !Ambiguous(s.frame)
    ensures s == t
  {
    ClassifyFrame(s.frame, left1);
    ClassifyFrame(t.frame, left2);
  }

  // ----- feeding a stream -----

  /** Handles the completed reads. */
  function Settle(r: Reader, supply: Supply): Reader
    requires Bounded(r)
    decreases if r.pending.Header? then 2 else 1
  {
    if r.pending.Header? && Complete(r) then
      var q := HeaderDone(r);
      if q.pending.Body? && Complete(q) then BodyDone(q, supply(|q.seen| + 1)) else q
    else if r.pending.Body? && Complete(r) then BodyDone(r, supply(|r.seen| + 1))
    else r
  }

  /** Feeds a stream byte by byte; a stopped reader takes no more. */
  function Feed(r: Reader, s: string, supply: Supply): Reader
    requires Bounded(r)
    decreases |s|
  {
    if s == [] || !Reading(r) || Complete(r) then r
    else
      var q := Settle(Receive(r, s[..1]), supply);
      if Bounded(q) then Feed(q, s[1..], supply) else q
  }

  lemma SettleKeeps(r: Reader, supply: Supply)
    requires Inv(r, supply) && Reading(r)
    ensures Inv(Settle(r, supply), supply) && Settled(Settle(r, supply))
    ensures Consumed(Settle(r, supply)) == Consumed(r)
  {
    hide HeaderValue, SeenRight;
    if r.pending.Header? && Complete(r) {
      HeaderDoneKeeps(r, supply);
      var q := HeaderDone(r);
      if q.pending.Body? && Complete(q) {
        BodyDoneKeeps(q, supply);
      }
    } else if r.pending.Body? && Complete(r) {
      BodyDoneKeeps(r, supply);
    }
  }

  lemma {:induction false} FeedKeeps(r: Reader, s: string, supply: Supply)
    requires Inv(r, supply) && Settled(r)
    ensures var q := Feed(r, s, supply);
            Inv(q, supply) && Settled(q) && Consumed(r) <= Consumed(q) <= Consumed(r) + s
            && (Reading(q) ==> Consumed(q) == Consumed(r) + s)
    decreases |s|
  {
    hide DecodeHeader, SeenRight, Overlay, Consumed, Receive, Settle;
    if s != [] && Reading(r) {
      ReceiveKeeps(r, s[..1], supply);
      SettleKeeps(Receive(r, s[..1]), supply);
      FeedKeeps(Settle(Receive(r, s[..1]), supply), s[1..], supply);
      assert s[..1] + s[1..] == s;
    }
  }

  /** Feeding `a` and then `b` equals feeding `a + b`, from any settled state. */
  lemma FeedAppend(r: Reader, a: string, b: string, supply: Supply)
    requires Inv(r, supply) && Settled(r)
    ensures Inv(Feed(r, a, supply), supply)
    ensures Feed(Feed(r, a, supply), b, supply) == Feed(r, a + b, supply)
    decreases |a|
  {
    hide DecodeHeader, SeenRight, Overlay, Consumed, Receive, Settle, Frames;
    FeedKeeps(r, a, supply);
    if a == [] {
      assert a + b == b;
    } else if Reading(r) {
      ReceiveKeeps(r, a[..1], supply);
      SettleKeeps(Receive(r, a[..1]), supply);
      assert (a + b)[..1] == a[..1] && (a + b)[1..] == a[1..] + b;
      FeedAppend(Settle(Receive(r, a[..1]), supply), a[1..], b, supply);
    }
  }

  /** Feeding a whole stream to a fresh reader delivers exactly the frames of the one-shot
      parser, and stops exactly when the parser rejects a header. */
  lemma FeedIsParse(s: string, supply: Supply)
    ensures Inv(Feed(Started(supply), s, supply), supply)
    ensures var r := Feed(Started(supply), s, supply);
            Frames(r.seen) == Parse(s).frames && (r.pending.Stopped? <==> Parse(s).rejected)
  {
    hide DecodeHeader, Feed, Parse;
    var r := Feed(Started(supply), s, supply);
    assert Consumed(Started(supply)) == [];
    FeedKeeps(Started(supply), s, supply);
    if r.pending.Stopped? {
      RejectedStaysRejected(r, s, supply);
    } else {
      assert [] + s == s;
      ReaderIsParser(r, supply);
    }
  }

  lemma RejectedParse(s: string)
    requires |s| >= HEADER_SIZE && !DecodeHeader(s[..HEADER_SIZE]).1
    ensures Parse(s) == Parsed([], true, s)
  {
    hide DecodeHeader;
  }

  /** What follows a rejected header changes nothing. */
  lemma RejectedStaysRejected(r: Reader, s: string, supply: Supply)
    requires Inv(r, supply) && r.pending.Stopped? && r.pending.rejected
    requires Consumed(r) <= s
    ensures Parse(s).frames == Frames(r.seen) && Parse(s).rejected
  {
    hide DecodeHeader, Parse, Concat;
    var rest := Partial(r) + s[|Consumed(r)|..];
    assert AllFramed(Frames(r.seen));
    ParseFrames(Frames(r.seen), rest);
    assert s == Concat(Frames(r.seen)) + rest;
    assert rest[..HEADER_SIZE] == r.buffer[..HEADER_SIZE];
    RejectedParse(rest);
  }
}
