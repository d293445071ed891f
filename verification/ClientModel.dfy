/** The client endpoint on values: one function per handler of `Client`, and the events that the
    I/O service and the application can cause. */
module ClientModel {
  import opened CText
  import opened Framing
  import opened ReadChain
  import opened WriteChain
  import opened Traffic

  /** After the connection state and the two chains, history: frames passed to `readCallback_`
      without error, calls of it with an error, write callbacks run with an error. */
  datatype Client = Client(
    connected: bool,
    reader: Reader,
    writer: Writer,
    delivered: seq<string>,
    readErrors: nat,
    writeErrors: seq<Callback>)

  /** A client that waits for `async_connect`. */
  function NewClient(memory: Buffer): Client {
    Client(false, Reader(Idle, 0, memory, []), EMPTY, [], 0, [])
  }

  // ----- the handlers -----

  function OnConnected(c: Client, memory: Buffer): Client {
    c.(connected := true, reader := Begin(c.reader, memory))
  }

  /** The read callback is told about an error; it may still write. */
  function ReportReadError(c: Client, again: seq<Item>): Client {
    c.(readErrors := c.readErrors + 1, writer := WriteAll(c.writer, again))
  }

  function OnConnectError(c: Client, again: seq<Item>): Client {
    ReportReadError(c.(reader := ReadFailed(c.reader)), again)
  }

  function OnHeader(c: Client, again: seq<Item>): Client
    requires Bounded(c.reader) && c.reader.pending.Header? && Complete(c.reader)
  {
    var read := c.(reader := HeaderDone(c.reader));
    if read.reader.pending.Body? then read else ReportReadError(read, again)
  }

  /** A heartbeat is written back as it came; anything else goes to the read callback. */
  function OnBody(c: Client, memory: Buffer, again: seq<Item>): Client
    requires Bounded(c.reader) && c.reader.pending.Body? && Complete(c.reader)
  {
    var frame := Partial(c.reader);
    var handled :=
      if IsHeartbeat(c.reader.buffer) then c.(writer := Write(c.writer, Item(frame, HeartbeatCallback)))
      else c.(delivered := c.delivered + [frame], writer := WriteAll(c.writer, again));
    handled.(reader := BodyDone(c.reader, memory))
  }

  function OnReadError(c: Client, again: seq<Item>): Client {
    ReportReadError(c.(reader := ReadFailed(c.reader)), again)
  }

  function OnWriteDone(c: Client, k: nat, again: seq<Item>): Client
    requires k < |c.writer.ops| && c.writer.queue != []
  {
    c.(writer := WriteDone(c.writer, k, again))
  }

  /** The callback of the failed write gets the error; nothing is popped or started. */
  function OnWriteError(c: Client, k: nat, again: seq<Item>): Client
    requires k < |c.writer.ops|
  {
    var callback := c.writer.ops[k].callback;
    c.(writeErrors := c.writeErrors + [callback],
       writer := WriteAll(WriteFailed(c.writer, k), Reentrant(callback, again)))
  }

  // ----- events -----

  datatype Event =
    | Connected
    | ConnectError(again: seq<Item>)
    | Arrive(bytes: string)
    | HeaderRead(again: seq<Item>)
    | BodyRead(again: seq<Item>)
    | ReadError(again: seq<Item>)
    | AppWrite(item: Item)
    | Transmit(k: nat, n: nat)
    | WriteCompleted(k: nat, again: seq<Item>)
    | WriteError(k: nat, again: seq<Item>)

  predicate Enabled(c: Client, e: Event) {
    match e
    case Connected => c.reader.pending.Idle?
    case ConnectError(again) => c.reader.pending.Idle? && AppItemList(again)
    case Arrive(bytes) => Bounded(c.reader) && Reading(c.reader) && c.reader.got + |bytes| <= Wanted(c.reader)
    case HeaderRead(again) => Bounded(c.reader) && c.reader.pending.Header? && Complete(c.reader) && AppItemList(again)
    case BodyRead(again) => Bounded(c.reader) && c.reader.pending.Body? && Complete(c.reader) && AppItemList(again)
    case ReadError(again) => Reading(c.reader) && AppItemList(again)
    case AppWrite(item) => AppItem(item)
    case Transmit(k, n) => c.connected && k < |c.writer.ops| && c.writer.ops[k].sent + n <= |c.writer.ops[k].bytes|
    case WriteCompleted(k, again) =>
      && k < |c.writer.ops| && c.writer.ops[k].sent == |c.writer.ops[k].bytes|
      && c.writer.queue != [] && AppItemList(again)
    case WriteError(k, again) => k < |c.writer.ops| && AppItemList(again)
  }

  function Apply(c: Client, e: Event, supply: Supply): Client
    requires Enabled(c, e)
  {
    match e
    case Connected => OnConnected(c, supply(0))
    case ConnectError(again) => OnConnectError(c, again)
    case Arrive(bytes) => c.(reader := Receive(c.reader, bytes))
    case HeaderRead(again) => OnHeader(c, again)
    case BodyRead(again) => OnBody(c, supply(|c.reader.seen| + 1), again)
    case ReadError(again) => OnReadError(c, again)
    case AppWrite(item) => c.(writer := Write(c.writer, item))
    case Transmit(k, n) => c.(writer := Send(c.writer, k, n))
    case WriteCompleted(k, again) => OnWriteDone(c, k, again)
    case WriteError(k, again) => OnWriteError(c, k, again)
  }

  // ----- what an event does, without the handlers -----

  /** The event ends the read chain. */
  predicate Fails(c: Client, e: Event) {
    e.ConnectError? || e.ReadError? || (e.HeaderRead? && !HeaderAccepted(c.reader))
  }

  /** What the application hands to `write` during the event: its own call, or the calls from
      inside the callback, if the event runs one. */
  function Gives(c: Client, e: Event): seq<Item> {
    match e
    case ConnectError(again) => again
    case HeaderRead(again) => if HeaderAccepted(c.reader) then [] else again
    case BodyRead(again) => if HoldsPing(c.reader) then [] else again
    case ReadError(again) => again
    case AppWrite(item) => [item]
    case WriteCompleted(k, again) => if k < |c.writer.ops| && c.writer.ops[k].callback.AppCallback? then again else []
    case WriteError(k, again) => if k < |c.writer.ops| && c.writer.ops[k].callback.AppCallback? then again else []
    case _ => []
  }

  /** The frame that goes back, when the event has read a heartbeat. */
  function Echoes(c: Client, e: Event): seq<string> {
    if e.BodyRead? && HoldsPing(c.reader) && Bounded(c.reader) then [Partial(c.reader)] else []
  }

  /** All that is handed to `write`. */
  function Puts(c: Client, e: Event): seq<Item> {
    if Echoes(c, e) != [] then [Item(Echoes(c, e)[0], HeartbeatCallback)] else Gives(c, e)
  }

  // ----- the invariant -----

  /** Each frame that was taken for a heartbeat was queued once, byte for byte and in order, and
      nothing else was queued with the heartbeat handler. */
  predicate EchoesRight(c: Client) {
    HeartbeatFrames(c.writer.written) == HeartbeatsSeen(c.reader.seen)
  }

  ghost predicate Inv(c: Client, supply: Supply) {
    && ReadChain.Inv(c.reader, supply)
    && WriteChain.Inv(c.writer)
    && EchoesRight(c)
    && AllFramed(WriteChain.Frames(c.writer.written))
    && c.delivered == DataSeen(c.reader.seen)
    && c.readErrors == (if c.reader.pending.Stopped? then 1 else 0)
    && c.writeErrors == Failed(c.writer.broken)
  }

  function Failed(broken: seq<Op>): (r: seq<Callback>)
    ensures |r| == |broken| && forall i :: 0 <= i < |r| ==> r[i] == broken[i].callback
  {
    seq(|broken|, i requires 0 <= i < |broken| => broken[i].callback)
  }

  /** What writing application items keeps of the invariant. */
  lemma WriterStepKeeps(c: Client, w: Writer, more: seq<Item>, supply: Supply)
    requires Inv(c, supply) && WriteChain.Inv(w) && AppItemList(more)
    requires w.written == c.writer.written + more && w.broken == c.writer.broken
    ensures Inv(c.(writer := w), supply)
  {
    hide Framed, WriteChain.Inv, ReadChain.Inv, DataSeen, HeartbeatsSeen, HeartbeatFrames;
    AppWritesAddNone(c.writer.written, more);
    FramesStayFramed(c.writer.written, more);
  }

  lemma ReportReadErrorKeeps(c: Client, again: seq<Item>, supply: Supply)
    requires AppItemList(again) && Inv(c.(readErrors := c.readErrors + 1), supply)
    ensures Inv(ReportReadError(c, again), supply)
  {
    hide Framed, ReadChain.Inv, WriteChain.Inv;
    WriteAllKeeps(c.writer, again);
    WriterStepKeeps(c.(readErrors := c.readErrors + 1), WriteAll(c.writer, again), again, supply);
  }

  lemma OnConnectedKeeps(c: Client, supply: Supply)
    requires Inv(c, supply) && Enabled(c, Connected)
    ensures Inv(OnConnected(c, supply(0)), supply)
  {
    hide Framed, WriteChain.Inv;
    BeginKeeps(c.reader, supply);
  }

  lemma OnConnectErrorKeeps(c: Client, again: seq<Item>, supply: Supply)
    requires Inv(c, supply) && Enabled(c, ConnectError(again))
    ensures Inv(OnConnectError(c, again), supply)
  {
    hide Framed, WriteChain.Inv;
    ReportReadErrorKeeps(c.(reader := ReadFailed(c.reader)), again, supply);
  }

  lemma OnHeaderKeeps(c: Client, again: seq<Item>, supply: Supply)
    requires Inv(c, supply) && Enabled(c, HeaderRead(again))
    ensures Inv(OnHeader(c, again), supply)
  {
    hide DecodeHeader, WriteChain.Inv;
    HeaderDoneKeeps(c.reader, supply);
    var read := c.(reader := HeaderDone(c.reader));
    if !read.reader.pending.Body? {
      ReportReadErrorKeeps(read, again, supply);
    }
  }

  /** The frame in the array, once its body has been read, is what the history records. */
  lemma FrameIsFramed(r: Reader, supply: Supply)
    requires ReadChain.Inv(r, supply) && r.pending.Body? && Complete(r)
    ensures Framed(Partial(r))
  {
    hide DecodeHeader, SeenRight;
    assert Partial(r)[..HEADER_SIZE] == r.buffer[..HEADER_SIZE];
  }

  lemma EchoKeeps(c: Client, t: Client, s: Seen)
    requires EchoesRight(c) && AllFramed(WriteChain.Frames(c.writer.written)) && Framed(s.frame) && s.heartbeat
    requires t.reader.seen == c.reader.seen + [s]
    requires t.writer.written == c.writer.written + [Item(s.frame, HeartbeatCallback)]
    ensures EchoesRight(t) && AllFramed(WriteChain.Frames(t.writer.written))
    ensures DataSeen(t.reader.seen) == DataSeen(c.reader.seen)
  {
    hide Framed, DataSeen, HeartbeatsSeen, HeartbeatFrames;
    SeenSplits(c.reader.seen, s);
    WriteSplits(c.writer.written, Item(s.frame, HeartbeatCallback));
    FramesStayFramed(c.writer.written, [Item(s.frame, HeartbeatCallback)]);
  }

  lemma OnBodyKeeps(c: Client, again: seq<Item>, supply: Supply)
    requires Inv(c, supply) && Enabled(c, BodyRead(again))
    ensures Inv(OnBody(c, supply(|c.reader.seen| + 1), again), supply)
  {
    hide Framed, WriteChain.Inv, IsHeartbeat, ReadChain.Inv, DataSeen, HeartbeatsSeen, HeartbeatFrames;
    var frame := Partial(c.reader);
    FrameIsFramed(c.reader, supply);
    BodyDoneKeeps(c.reader, supply);
    var t := OnBody(c, supply(|c.reader.seen| + 1), again);
    var s := Seen(frame, IsHeartbeat(c.reader.buffer));
    if IsHeartbeat(c.reader.buffer) {
      hide EchoesRight;
      WriteKeeps(c.writer, Item(frame, HeartbeatCallback));
      EchoKeeps(c, t, s);
    } else {
      WriteAllKeeps(c.writer, again);
      WriterStepKeeps(c, WriteAll(c.writer, again), again, supply);
      SeenSplits(c.reader.seen, s);
      assert HeartbeatsSeen(c.reader.seen) + [] == HeartbeatsSeen(c.reader.seen);
    }
  }

  lemma OnReadErrorKeeps(c: Client, again: seq<Item>, supply: Supply)
    requires Inv(c, supply) && Enabled(c, ReadError(again))
    ensures Inv(OnReadError(c, again), supply)
  {
    hide Framed, WriteChain.Inv;
    ReadFailedKeeps(c.reader, supply);
    ReportReadErrorKeeps(c.(reader := ReadFailed(c.reader)), again, supply);
  }

  lemma OnWriteErrorKeeps(c: Client, k: nat, again: seq<Item>, supply: Supply)
    requires Inv(c, supply) && Enabled(c, WriteError(k, again))
    ensures Inv(OnWriteError(c, k, again), supply)
  {
    hide Framed, WriteChain.Inv, ReadChain.Inv;
    WriteFailedKeeps(c.writer, k);
    var callback := c.writer.ops[k].callback;
    var failed := c.(writer := WriteFailed(c.writer, k), writeErrors := c.writeErrors + [callback]);
    var more := Reentrant(callback, again);
    WriteAllKeeps(failed.writer, more);
    WriterStepKeeps(failed, WriteAll(failed.writer, more), more, supply);
  }

  lemma ArriveKeeps(c: Client, bytes: string, supply: Supply)
    requires Inv(c, supply) && Enabled(c, Arrive(bytes))
    ensures Inv(c.(reader := Receive(c.reader, bytes)), supply)
  {
    hide Framed, WriteChain.Inv;
    ReceiveKeeps(c.reader, bytes, supply);
  }

  lemma AppWriteKeeps(c: Client, item: Item, supply: Supply)
    requires Inv(c, supply) && AppItem(item)
    ensures Inv(c.(writer := Write(c.writer, item)), supply)
  {
    WriteKeeps(c.writer, item);
    WriterStepKeeps(c, Write(c.writer, item), [item], supply);
  }

  lemma TransmitKeeps(c: Client, k: nat, n: nat, supply: Supply)
    requires Inv(c, supply) && Enabled(c, Transmit(k, n))
    ensures Inv(c.(writer := Send(c.writer, k, n)), supply)
  {
    SendKeeps(c.writer, k, n);
    assert c.writer.written + [] == c.writer.written;
    WriterStepKeeps(c, Send(c.writer, k, n), [], supply);
  }

  lemma WriteCompletedKeeps(c: Client, k: nat, again: seq<Item>, supply: Supply)
    requires Inv(c, supply) && Enabled(c, WriteCompleted(k, again))
    ensures Inv(OnWriteDone(c, k, again), supply)
  {
    hide Framed, WriteDone;
    WriteDoneKeeps(c.writer, k, again);
    WriterStepKeeps(c, WriteDone(c.writer, k, again), Reentrant(c.writer.ops[k].callback, again), supply);
  }

  /** Each event gives `write` exactly what the application gives it and the echo. */
  lemma EventWrites(c: Client, e: Event, supply: Supply)
    requires Inv(c, supply) && Enabled(c, e)
    ensures Apply(c, e, supply).writer.written == c.writer.written + Puts(c, e)
  {
    hide ReadChain.Inv, WriteChain.Inv, EchoesRight, WriteAll, WriteDone, WriteChain.Write, UpToNul, Atoi;
    assert c.writer.written + [] == c.writer.written;
    match e
    case ConnectError(again) => WriteAllKeeps(c.writer, again);
    case HeaderRead(again) => WriteAllKeeps(c.writer, again);
    case BodyRead(again) =>
      WriteAllKeeps(c.writer, again);
      WriteKeeps(c.writer, Item(Partial(c.reader), HeartbeatCallback));
    case ReadError(again) => WriteAllKeeps(c.writer, again);
    case AppWrite(item) => WriteKeeps(c.writer, item);
    case WriteCompleted(k, again) => WriteDoneKeeps(c.writer, k, again);
    case WriteError(k, again) =>
      WriteFailedKeeps(c.writer, k);
      WriteAllKeeps(WriteFailed(c.writer, k), Reentrant(c.writer.ops[k].callback, again));
    case _ =>
  }

  /** The new length of each history. */
  lemma EventCounts(c: Client, e: Event, supply: Supply)
    requires Inv(c, supply) && Enabled(c, e)
    ensures var t := Apply(c, e, supply);
            && |t.reader.seen| == |c.reader.seen| + (if e.BodyRead? then 1 else 0)
            && t.connected == (c.connected || e.Connected?)
            && Reading(t.reader) == (e.Connected? || (Reading(c.reader) && !Fails(c, e)))
            && t.readErrors == c.readErrors + (if Fails(c, e) then 1 else 0)
            && t.writeErrors == c.writeErrors + (if e.WriteError? then [c.writer.ops[e.k].callback] else [])
  {
    hide ReadChain.Inv, WriteChain.Inv, EchoesRight, WriteAll, WriteDone, WriteChain.Write, UpToNul, Atoi;
  }

  /** A completed write leaves the queue; a failed one stays the only failed one. */
  lemma EventWriteCounts(c: Client, e: Event, supply: Supply)
    requires Inv(c, supply) && Enabled(c, e)
    ensures var w := Apply(c, e, supply).writer;
            && |w.popped| == |c.writer.popped| + (if e.WriteCompleted? then 1 else 0)
            && |w.broken| == |c.writer.broken| + (if e.WriteError? then 1 else 0)
  {
    hide ReadChain.Inv, WriteChain.Inv, EchoesRight, WriteAll, WriteDone, WriteChain.Write, UpToNul, Atoi;
    match e
    case ConnectError(again) => WriteAllKeeps(c.writer, again);
    case HeaderRead(again) => WriteAllKeeps(c.writer, again);
    case BodyRead(again) =>
      WriteAllKeeps(c.writer, again);
      WriteKeeps(c.writer, Item(Partial(c.reader), HeartbeatCallback));
    case ReadError(again) => WriteAllKeeps(c.writer, again);
    case AppWrite(item) => WriteKeeps(c.writer, item);
    case WriteCompleted(k, again) => WriteDoneKeeps(c.writer, k, again);
    case WriteError(k, again) =>
      WriteFailedKeeps(c.writer, k);
      WriteAllKeeps(WriteFailed(c.writer, k), Reentrant(c.writer.ops[k].callback, again));
    case _ =>
  }

  /** Every event keeps the invariant, and adds to the writes what it gives to `write`. */
  lemma EventKeeps(c: Client, e: Event, supply: Supply)
    requires Inv(c, supply) && Enabled(c, e)
    ensures Inv(Apply(c, e, supply), supply)
    ensures Apply(c, e, supply).writer.written == c.writer.written + Puts(c, e)
  {
    hide Inv, AppItem, Puts;
    EventWrites(c, e, supply);
    match e
    case Connected => OnConnectedKeeps(c, supply);
    case ConnectError(again) => OnConnectErrorKeeps(c, again, supply);
    case Arrive(bytes) => ArriveKeeps(c, bytes, supply);
    case HeaderRead(again) => OnHeaderKeeps(c, again, supply);
    case BodyRead(again) => OnBodyKeeps(c, again, supply);
    case ReadError(again) => OnReadErrorKeeps(c, again, supply);
    case AppWrite(item) => AppWriteKeeps(c, item, supply);
    case Transmit(k, n) => TransmitKeeps(c, k, n, supply);
    case WriteCompleted(k, again) => WriteCompletedKeeps(c, k, again, supply);
    case WriteError(k, again) => OnWriteErrorKeeps(c, k, again, supply);
  }

  lemma NewClientRight(supply: Supply, memory: Buffer)
    ensures Inv(NewClient(memory), supply)
  {
    hide DecodeHeader, SeenRight, Framed;
  }

  /** After a failed write no event puts another byte on the connection. */
  lemma BrokenStaysSilent(c: Client, e: Event, supply: Supply)
    requires Inv(c, supply) && Enabled(c, e) && c.writer.broken != []
    ensures Apply(c, e, supply).writer.out == c.writer.out
    ensures Apply(c, e, supply).writer.broken == c.writer.broken
  {
    hide Framed, ReadChain.Inv, EchoesRight;
    match e
    case ConnectError(again) => WriteAllKeeps(c.writer, again);
    case HeaderRead(again) => WriteAllKeeps(c.writer, again);
    case BodyRead(again) =>
      WriteAllKeeps(c.writer, again);
      WriteKeeps(c.writer, Item(Partial(c.reader), HeartbeatCallback));
    case ReadError(again) => WriteAllKeeps(c.writer, again);
    case AppWrite(item) => WriteKeeps(c.writer, item);
    case _ =>
  }
}
