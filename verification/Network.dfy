/** A `Client` and a `Session` joined by two reliable in-order byte channels, and what holds in
    every reachable state, under any chunking, interleaving, timer behaviour or I/O failure. */
module Network {
  import opened CText
  import opened Framing
  import opened ReadChain
  import opened WriteChain
  import opened Traffic
  import HeartbeatTimer
  import S = SessionModel
  import C = ClientModel

  /** The channels hold the bytes that were sent and not yet received. */
  datatype Net = Net(now: nat, session: S.Session, client: C.Client, toClient: string, toSession: string)

  /** What the memory of each endpoint's messages holds before use. */
  datatype Memory = Memory(session: Supply, client: Supply)

  datatype Step = AtSession(s: S.Event) | AtClient(c: C.Event) | Tick(seconds: nat)

  function Initial(now: nat, memory: Memory): Net {
    Net(now, S.NewSession(now, memory.session(0)), C.NewClient(memory.client(0)), [], [])
  }

  /** The bytes that an outstanding write hands over next. */
  function Slice(w: Writer, k: nat, n: nat): string
    requires k < |w.ops| && w.ops[k].sent + n <= |w.ops[k].bytes|
  {
    w.ops[k].bytes[w.ops[k].sent..w.ops[k].sent + n]
  }

  predicate Enabled(n: Net, step: Step) {
    match step
    case AtSession(e) => S.Enabled(n.session, e, n.now) && (e.Arrive? ==> e.bytes <= n.toSession)
    case AtClient(e) => C.Enabled(n.client, e) && (e.Arrive? ==> e.bytes <= n.toClient)
    case Tick(_) => true
  }

  function Apply(n: Net, step: Step, memory: Memory): Net
    requires Enabled(n, step)
  {
    match step
    case AtSession(e) =>
      n.(session := S.Apply(n.session, e, n.now, memory.session),
         toSession := if e.Arrive? then n.toSession[|e.bytes|..] else n.toSession,
         toClient := if e.Transmit? then n.toClient + Slice(n.session.writer, e.k, e.n) else n.toClient)
    case AtClient(e) =>
      n.(client := C.Apply(n.client, e, memory.client),
         toClient := if e.Arrive? then n.toClient[|e.bytes|..] else n.toClient,
         toSession := if e.Transmit? then n.toSession + Slice(n.client.writer, e.k, e.n) else n.toSession)
    case Tick(seconds) => n.(now := n.now + seconds)
  }

  /** The state after a run, if every step of the run was possible. */
  function Run(now: nat, steps: seq<Step>, memory: Memory): Option<Net> {
    if steps == [] then Some(Initial(now, memory))
    else
      var before := Run(now, steps[..|steps| - 1], memory);
      var step := steps[|steps| - 1];
      if before.Some? && Enabled(before.value, step) then Some(Apply(before.value, step, memory)) else None
  }

  // ----- the invariant -----

  ghost predicate Inv(n: Net, memory: Memory) {
    && S.Inv(n.session, n.now, memory.session)
    && C.Inv(n.client, memory.client)
    && n.session.writer.out == Consumed(n.client.reader) + n.toClient
    && n.client.writer.out == Consumed(n.session.reader) + n.toSession
  }

  lemma InvLinks(n: Net, memory: Memory)
    requires Inv(n, memory)
    ensures Linked(n.session.writer, n.client.reader, n.toClient, memory.client)
    ensures Linked(n.client.writer, n.session.reader, n.toSession, memory.session)
  {
  }

  lemma InvChains(n: Net, memory: Memory)
    requires Inv(n, memory)
    ensures WriteChain.Inv(n.session.writer) && WriteChain.Inv(n.client.writer)
    ensures ReadChain.Inv(n.session.reader, memory.session) && ReadChain.Inv(n.client.reader, memory.client)
  {
    hide WriteChain.Inv, ReadChain.Inv, S.BeatsRight, C.EchoesRight, AllFramed;
  }

  lemma InvBounded(r: Reader, supply: Supply)
    requires ReadChain.Inv(r, supply)
    ensures Bounded(r)
  {
  }

  lemma ConnectErrorConsumes(r: Reader, supply: Supply)
    requires ReadChain.Inv(r, supply) && r.pending.Idle?
    ensures Bounded(ReadFailed(r)) && Consumed(ReadFailed(r)) == Consumed(r)
  {
  }

  /** An event of the session consumes bytes only when they arrive. */
  lemma SessionReads(s: S.Session, e: S.Event, now: nat, supply: Supply)
    requires ReadChain.Inv(s.reader, supply) && S.Enabled(s, e, now)
    ensures ReadChain.Inv(S.Apply(s, e, now, supply).reader, supply)
    ensures Consumed(S.Apply(s, e, now, supply).reader) == Consumed(s.reader) + if e.Arrive? then e.bytes else []
  {
    hide Consumed, ReadChain.Inv, HeaderDone, Receive, WriteAll, AppItemList, IsHeartbeat;
    InvBounded(s.reader, supply);
    assert Consumed(s.reader) + [] == Consumed(s.reader);
    match e
    case Opened => BeginKeeps(s.reader, supply);
    case Arrive(bytes) => ReceiveKeeps(s.reader, bytes, supply);
    case HeaderRead(again) => HeaderDoneKeeps(s.reader, supply);
    case BodyRead(again) => BodyDoneKeeps(s.reader, supply);
    case ReadError(again) => ReadFailedKeeps(s.reader, supply);
    case _ =>
  }

  /** An event of the session puts bytes on the connection only when they are transmitted. */
  lemma SessionWrites(s: S.Session, e: S.Event, now: nat, supply: Supply)
    requires WriteChain.Inv(s.writer) && S.Enabled(s, e, now)
    ensures S.Apply(s, e, now, supply).writer.out
         == s.writer.out + if e.Transmit? then Slice(s.writer, e.k, e.n) else []
  {
    hide Bounded, WriteChain.Inv, WriteAll, WriteChain.Write, WriteDone, AppItemList, IsHeartbeat, HeaderDone;
    assert s.writer.out + [] == s.writer.out;
    match e
    case HeaderRead(again) => WriteAllKeeps(s.writer, again);
    case BodyRead(again) => WriteAllKeeps(s.writer, again);
    case ReadError(again) => WriteAllKeeps(s.writer, again);
    case AppWrite(item) => WriteKeeps(s.writer, item);
    case WriteCompleted(k, again) => WriteDoneKeeps(s.writer, k, again);
    case WriteError(k, again) =>
      WriteFailedKeeps(s.writer, k);
      WriteAllKeeps(WriteFailed(s.writer, k), again);
    case TimerHandled(k) => WriteKeeps(s.writer, S.HEARTBEAT_ITEM);
    case _ =>
  }

  lemma ClientReads(c: C.Client, e: C.Event, supply: Supply)
    requires ReadChain.Inv(c.reader, supply) && C.Enabled(c, e)
    ensures ReadChain.Inv(C.Apply(c, e, supply).reader, supply)
    ensures Consumed(C.Apply(c, e, supply).reader) == Consumed(c.reader) + if e.Arrive? then e.bytes else []
  {
    hide Consumed, HeaderDone, Receive, WriteAll, AppItemList, IsHeartbeat, SeenRight, DecodeHeader, Overlay;
    assert Consumed(c.reader) + [] == Consumed(c.reader);
    match e
    case Connected => BeginKeeps(c.reader, supply);
    case ConnectError(again) => ConnectErrorConsumes(c.reader, supply);
    case Arrive(bytes) => ReceiveKeeps(c.reader, bytes, supply);
    case HeaderRead(again) => HeaderDoneKeeps(c.reader, supply);
    case BodyRead(again) => BodyDoneKeeps(c.reader, supply);
    case ReadError(again) => ReadFailedKeeps(c.reader, supply);
    case _ =>
  }

  lemma ClientWrites(c: C.Client, e: C.Event, supply: Supply)
    requires WriteChain.Inv(c.writer) && C.Enabled(c, e)
    ensures C.Apply(c, e, supply).writer.out == c.writer.out + if e.Transmit? then Slice(c.writer, e.k, e.n) else []
  {
    hide Bounded, WriteChain.Inv, WriteAll, WriteChain.Write, WriteDone, AppItemList, IsHeartbeat, HeaderDone;
    assert c.writer.out + [] == c.writer.out;
    match e
    case ConnectError(again) => WriteAllKeeps(c.writer, again);
    case HeaderRead(again) => WriteAllKeeps(c.writer, again);
    case BodyRead(again) =>
      WriteAllKeeps(c.writer, again);
      WriteKeeps(c.writer, Item(Partial(c.reader), HeartbeatCallback));
    case ReadError(again) => WriteAllKeeps(c.writer, again);
    case AppWrite(item) => WriteKeeps(c.writer, item);
    case WriteCompleted(k, again) => WriteDoneKeeps(c.writer, k, again);
    case WriteError(k, again) =>
      WriteFailedKeeps(c.writer, k);
      WriteAllKeeps(WriteFailed(c.writer, k), Reentrant(c.writer.ops[k].callback, again));
    case _ =>
  }

  lemma SessionStepKeeps(n: Net, e: S.Event, memory: Memory)
    requires Inv(n, memory) && Enabled(n, AtSession(e))
    ensures Inv(Apply(n, AtSession(e), memory), memory)
  {
    hide Consumed, S.Enabled, C.Inv, S.Apply, ReadChain.Inv, WriteChain.Inv, S.BeatsRight, AllFramed;
    hide S.Inv, S.Puts, S.Deadlines, S.NextDeadlines;
    InvChains(n, memory);
    S.EventKeeps(n.session, e, n.now, memory.session);
    SessionReads(n.session, e, n.now, memory.session);
    SessionWrites(n.session, e, n.now, memory.session);
    assert e.Arrive? ==> n.toSession == e.bytes + n.toSession[|e.bytes|..];
  }

  lemma ClientStepKeeps(n: Net, e: C.Event, memory: Memory)
    requires Inv(n, memory) && Enabled(n, AtClient(e))
    ensures Inv(Apply(n, AtClient(e), memory), memory)
  {
    hide Consumed, C.Enabled, S.Inv, C.Apply, ReadChain.Inv, WriteChain.Inv, C.EchoesRight, AllFramed;
    hide C.Puts;
    C.EventKeeps(n.client, e, memory.client);
    ClientReads(n.client, e, memory.client);
    ClientWrites(n.client, e, memory.client);
    assert e.Arrive? ==> n.toClient == e.bytes + n.toClient[|e.bytes|..];
  }

  /** Every step of the network keeps the invariant. */
  lemma StepKeeps(n: Net, step: Step, memory: Memory)
    requires Inv(n, memory) && Enabled(n, step)
    ensures Inv(Apply(n, step, memory), memory)
  {
    match step
    case AtSession(e) => SessionStepKeeps(n, e, memory);
    case AtClient(e) => ClientStepKeeps(n, e, memory);
    case Tick(seconds) => TickKeeps(n, seconds, memory);
  }

  lemma TickKeeps(n: Net, seconds: nat, memory: Memory)
    requires Inv(n, memory)
    ensures Inv(n.(now := n.now + seconds), memory)
  {
    hide S.Inv, C.Inv, Consumed;
    S.TickKeeps(n.session, n.now, n.now + seconds, memory.session);
  }

  /** Every reachable state satisfies the invariant. */
  lemma {:induction false} Reachable(now: nat, steps: seq<Step>, memory: Memory)
    requires Run(now, steps, memory).Some?
    ensures Inv(Run(now, steps, memory).value, memory)
  {
    hide S.Inv, C.Inv, Enabled, Apply;
    if steps == [] {
      S.NewSessionRight(now, memory.session, memory.session(0));
      C.NewClientRight(memory.client, memory.client(0));
    } else {
      Reachable(now, steps[..|steps| - 1], memory);
      StepKeeps(Run(now, steps[..|steps| - 1], memory).value, steps[|steps| - 1], memory);
    }
  }
}
