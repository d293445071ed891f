/** The server endpoint on values: one function per handler of `Session`, and the events that
    the I/O service, the clock and the application can cause. */
module SessionModel {
  import opened CText
  import opened Framing
  import opened ReadChain
  import opened WriteChain
  import opened HeartbeatTimer
  import opened Traffic

  /** After the three chains, history: headers accepted, successful timer completions, frames
      passed to `readCallback_`, calls of `closeCallback_`. */
  datatype Session = Session(
    reader: Reader,
    writer: Writer,
    timer: Timer,
    headers: nat,
    fired: seq<Expiry>,
    delivered: seq<string>,
    closes: nat)

  const HEARTBEAT_ITEM := Item(PING_FRAME, HeartbeatCallback)

  function NewSession(now: nat, memory: Buffer): Session {
    Session(Reader(Idle, 0, memory, []), EMPTY, NewTimer(now), 0, [], [], 0)
  }

  // ----- the handlers -----

  /** `handleError`: the close callback may still write, and the timer is cancelled. */
  function HandleError(s: Session, again: seq<Item>): Session {
    s.(closes := s.closes + 1, writer := WriteAll(s.writer, again), timer := Cancel(s.timer))
  }

  function Start(s: Session, now: nat, memory: Buffer): Session {
    s.(timer := AsyncWait(s.timer, now, s.headers), reader := Begin(s.reader, memory))
  }

  /** `resetHeartbeatTimer`, after a header was accepted. */
  function ResetTimer(s: Session, now: nat): Session {
    s.(timer := AsyncWait(ExpiresFromNow(Cancel(s.timer), now), now, s.headers))
  }

  function OnHeader(s: Session, now: nat, again: seq<Item>): Session
    requires Bounded(s.reader) && s.reader.pending.Header? && Complete(s.reader)
  {
    var read := s.(reader := HeaderDone(s.reader));
    if read.reader.pending.Body? then ResetTimer(read.(headers := s.headers + 1), now)
    else HandleError(read, again)
  }

  /** A heartbeat is absorbed; anything else goes to the read callback. */
  function OnBody(s: Session, memory: Buffer, again: seq<Item>): Session
    requires Bounded(s.reader) && s.reader.pending.Body? && Complete(s.reader)
  {
    var handled := if IsHeartbeat(s.reader.buffer) then s
                   else s.(delivered := s.delivered + [Partial(s.reader)], writer := WriteAll(s.writer, again));
    handled.(reader := BodyDone(s.reader, memory))
  }

  function OnReadError(s: Session, again: seq<Item>): Session {
    HandleError(s.(reader := ReadFailed(s.reader)), again)
  }

  function OnWriteDone(s: Session, k: nat, again: seq<Item>): Session
    requires k < |s.writer.ops| && s.writer.queue != []
  {
    s.(writer := WriteDone(s.writer, k, again))
  }

  function OnWriteError(s: Session, k: nat, again: seq<Item>): Session
    requires k < |s.writer.ops|
  {
    HandleError(s.(writer := WriteFailed(s.writer, k)), again)
  }

  /** `heartbeatHandle` without error. */
  function OnTimer(s: Session, k: nat, now: nat): Session
    requires k < |s.timer.ready|
  {
    s.(fired := s.fired + [s.timer.ready[k]],
       writer := Write(s.writer, HEARTBEAT_ITEM),
       timer := AsyncWait(ExpiresFromNow(Take(s.timer, k), now), now, s.headers))
  }

  // ----- events -----

  /** `again` lists what the application writes from inside the callback that the event runs. */
  datatype Event =
    | Opened
    | Arrive(bytes: string)
    | HeaderRead(again: seq<Item>)
    | BodyRead(again: seq<Item>)
    | ReadError(again: seq<Item>)
    | AppWrite(item: Item)
    | Transmit(k: nat, n: nat)
    | WriteCompleted(k: nat, again: seq<Item>)
    | WriteError(k: nat, again: seq<Item>)
    | TimerExpired(k: nat)
    | TimerHandled(k: nat)

  predicate Enabled(s: Session, e: Event, now: nat) {
    match e
    case Opened => s.reader.pending.Idle?
    case Arrive(bytes) => Bounded(s.reader) && Reading(s.reader) && s.reader.got + |bytes| <= Wanted(s.reader)
    case HeaderRead(again) => Bounded(s.reader) && s.reader.pending.Header? && Complete(s.reader) && AppItemList(again)
    case BodyRead(again) => Bounded(s.reader) && s.reader.pending.Body? && Complete(s.reader) && AppItemList(again)
    case ReadError(again) => Reading(s.reader) && AppItemList(again)
    case AppWrite(item) => AppItem(item)
    case Transmit(k, n) => k < |s.writer.ops| && s.writer.ops[k].sent + n <= |s.writer.ops[k].bytes|
    case WriteCompleted(k, again) =>
      && k < |s.writer.ops| && s.writer.ops[k].sent == |s.writer.ops[k].bytes|
      && s.writer.queue != [] && AppItemList(again)
    case WriteError(k, again) => k < |s.writer.ops| && AppItemList(again)
    case TimerExpired(k) => k < |s.timer.waits| && s.timer.waits[k].deadline <= now
    case TimerHandled(k) => k < |s.timer.ready|
  }

  function Apply(s: Session, e: Event, now: nat, supply: Supply): Session
    requires Enabled(s, e, now)
  {
    match e
    case Opened => Start(s, now, supply(0))
    case Arrive(bytes) => s.(reader := Receive(s.reader, bytes))
    case HeaderRead(again) => OnHeader(s, now, again)
    case BodyRead(again) => OnBody(s, supply(|s.reader.seen| + 1), again)
    case ReadError(again) => OnReadError(s, again)
    case AppWrite(item) => s.(writer := Write(s.writer, item))
    case Transmit(k, n) => s.(writer := Send(s.writer, k, n))
    case WriteCompleted(k, again) => OnWriteDone(s, k, again)
    case WriteError(k, again) => OnWriteError(s, k, again)
    case TimerExpired(k) => s.(timer := Expire(s.timer, k, now, s.headers))
    case TimerHandled(k) => OnTimer(s, k, now)
  }

  // ----- what an event does, without the handlers -----

  /** What the application hands to `write` during the event: its own call, or the calls from
      inside the callback, if the event runs one. */
  function Gives(s: Session, e: Event): seq<Item> {
    match e
    case HeaderRead(again) => if HeaderAccepted(s.reader) then [] else again
    case BodyRead(again) => if HoldsPing(s.reader) then [] else again
    case ReadError(again) => again
    case AppWrite(item) => [item]
    case WriteCompleted(k, again) => if k < |s.writer.ops| && s.writer.ops[k].callback.AppCallback? then again else []
    case WriteError(_, again) => again
    case _ => []
  }

  /** All that is handed to `write`. */
  function Puts(s: Session, e: Event): seq<Item> {
    if e.TimerHandled? then [Item("    4PING", HeartbeatCallback)] else Gives(s, e)
  }

  function Deadlines(t: Timer): (r: seq<nat>)
    ensures |r| == |t.waits| && forall i :: 0 <= i < |r| ==> r[i] == t.waits[i].deadline
  {
    seq(|t.waits|, i requires 0 <= i < |t.waits| => t.waits[i].deadline)
  }

  /** The event ends the read chain or the write chain. */
  predicate Fails(s: Session, e: Event) {
    e.WriteError? || EndsReads(s, e)
  }

  /** The event ends the read chain. */
  predicate EndsReads(s: Session, e: Event) {
    e.ReadError? || (e.HeaderRead? && !HeaderAccepted(s.reader))
  }

  /** The event calls `async_wait`. */
  predicate Arms(s: Session, e: Event) {
    e.Opened? || e.TimerHandled? || (e.HeaderRead? && HeaderAccepted(s.reader))
  }

  /** The deadlines of the waits that are pending after the event. */
  function NextDeadlines(s: Session, e: Event, now: nat): seq<nat> {
    match e
    case Opened => [s.timer.deadline]
    case HeaderRead(_) => if HeaderAccepted(s.reader) then [now + 10] else []
    case ReadError(_) => []
    case WriteError(_, _) => []
    case TimerExpired(_) => []
    case TimerHandled(_) => [now + 10]
    case _ => Deadlines(s.timer)
  }

  // ----- the invariant -----

  /** Every successful timer completion was due; the session's own writes are one heartbeat
      frame per completion. */
  predicate BeatsRight(s: Session) {
    && (forall e <- s.fired :: Due(e))
    && HeartbeatFrames(s.writer.written) == seq(|s.fired|, _ => PING_FRAME)
    && (forall item <- s.writer.written :: item.callback.HeartbeatCallback? ==> item.frame == PING_FRAME)
  }

  /** The timer is armed from `start` on; the close callback ran once per failed chain. */
  ghost predicate Inv(s: Session, now: nat, supply: Supply) {
    && ReadChain.Inv(s.reader, supply)
    && WriteChain.Inv(s.writer)
    && HeartbeatTimer.Inv(s.timer, now, s.headers)
    && (if s.reader.pending.Idle? then s.timer.armed == 0 && s.timer.waits == [] && s.timer.ready == []
        else s.timer.armed > 0)
    && BeatsRight(s)
    && AllFramed(WriteChain.Frames(s.writer.written))
    && s.delivered == DataSeen(s.reader.seen)
    && s.closes == |s.writer.broken| + if s.reader.pending.Stopped? then 1 else 0
  }

  lemma PingFrameFramed()
    ensures Framed(PING_FRAME) && IsPing(PING_FRAME) && !Ambiguous(PING_FRAME)
  {
    DataFrameFramed(HEARTBEAT);
    assert Strncpy(HEARTBEAT) == HEARTBEAT by { UpToNulUnique(HEARTBEAT, HEARTBEAT); }
  }

  /** What writing application items keeps of the invariant. */
  lemma AppWritesKeep(s: Session, t: Session, more: seq<Item>)
    requires BeatsRight(s) && AllFramed(WriteChain.Frames(s.writer.written)) && AppItemList(more)
    requires t.writer.written == s.writer.written + more && t.fired == s.fired
    ensures BeatsRight(t) && AllFramed(WriteChain.Frames(t.writer.written))
  {
    hide Framed, HeartbeatFrames;
    AppWritesAddNone(s.writer.written, more);
    FramesStayFramed(s.writer.written, more);
    forall item | item in t.writer.written && item.callback.HeartbeatCallback? ensures item.frame == PING_FRAME {
      assert item in s.writer.written || item in more;
      assert item in more ==> AppItem(item);
    }
  }

  lemma HandleErrorKeeps(s: Session, again: seq<Item>, now: nat, supply: Supply)
    requires AppItemList(again) && Inv(s.(closes := s.closes + 1), now, supply)
    ensures Inv(HandleError(s, again), now, supply)
  {
    hide Framed, ReadChain.Inv, WriteChain.Inv;
    WriteAllKeeps(s.writer, again);
    AppWritesKeep(s, HandleError(s, again), again);
  }

  lemma OnHeaderKeeps(s: Session, now: nat, again: seq<Item>, supply: Supply)
    requires Inv(s, now, supply) && Enabled(s, HeaderRead(again), now)
    ensures Inv(OnHeader(s, now, again), now, supply)
  {
    hide DecodeHeader, WriteChain.Inv, BeatsRight;
    HeaderDoneKeeps(s.reader, supply);
    var read := s.(reader := HeaderDone(s.reader));
    if read.reader.pending.Body? {
      RearmKeeps(s.timer, now, s.headers, now, s.headers + 1);
      assert ExpiresFromNow(Cancel(s.timer), now) == ExpiresFromNow(s.timer, now);
      BeatsKeep(s, OnHeader(s, now, again));
    } else {
      BeatsKeep(s, read.(closes := s.closes + 1));
      HandleErrorKeeps(read, again, now, supply);
    }
  }

  lemma BeatsKeep(s: Session, t: Session)
    requires BeatsRight(s) && t.fired == s.fired && t.writer.written == s.writer.written
    ensures BeatsRight(t)
  {
  }

  lemma OnBodyKeeps(s: Session, now: nat, again: seq<Item>, supply: Supply)
    requires Inv(s, now, supply) && Enabled(s, BodyRead(again), now)
    ensures Inv(OnBody(s, supply(|s.reader.seen| + 1), again), now, supply)
  {
    hide Framed, WriteChain.Inv, BeatsRight, ReadChain.Inv, IsHeartbeat, DataSeen;
    BodyDoneKeeps(s.reader, supply);
    SeenSplits(s.reader.seen, Seen(Partial(s.reader), IsHeartbeat(s.reader.buffer)));
    WriteAllKeeps(s.writer, again);
    var t := OnBody(s, supply(|s.reader.seen| + 1), again);
    if IsHeartbeat(s.reader.buffer) {
      assert DataSeen(s.reader.seen) + [] == DataSeen(s.reader.seen);
      BeatsKeep(s, t);
    } else {
      AppWritesKeep(s, t, again);
    }
  }

  lemma BeatKeeps(s: Session, t: Session, e: Expiry)
    requires BeatsRight(s) && AllFramed(WriteChain.Frames(s.writer.written)) && Due(e)
    requires t.fired == s.fired + [e] && t.writer.written == s.writer.written + [HEARTBEAT_ITEM]
    ensures BeatsRight(t) && AllFramed(WriteChain.Frames(t.writer.written))
  {
    hide Framed, IsPing, Due, HeartbeatFrames;
    WriteSplits(s.writer.written, HEARTBEAT_ITEM);
    PingFrameFramed();
    FramesStayFramed(s.writer.written, [HEARTBEAT_ITEM]);
    assert seq(|s.fired|, _ => PING_FRAME) + [PING_FRAME] == seq(|t.fired|, _ => PING_FRAME);
  }

  lemma OnTimerKeeps(s: Session, k: nat, now: nat, supply: Supply)
    requires Inv(s, now, supply) && Enabled(s, TimerHandled(k), now)
    ensures Inv(OnTimer(s, k, now), now, supply)
  {
    hide Framed, WriteChain.Inv, ReadChain.Inv, BeatsRight;
    TakeKeeps(s.timer, k, now, s.headers);
    RearmKeeps(Take(s.timer, k), now, s.headers, now, s.headers);
    WriteKeeps(s.writer, HEARTBEAT_ITEM);
    BeatKeeps(s, OnTimer(s, k, now), s.timer.ready[k]);
  }

  lemma WriterStepKeeps(s: Session, w: Writer, more: seq<Item>, now: nat, supply: Supply)
    requires Inv(s, now, supply) && WriteChain.Inv(w) && AppItemList(more)
    requires w.written == s.writer.written + more && w.broken == s.writer.broken
    ensures Inv(s.(writer := w), now, supply)
  {
    hide Framed, WriteChain.Inv, ReadChain.Inv, BeatsRight;
    AppWritesKeep(s, s.(writer := w), more);
  }

  lemma OnWriteErrorKeeps(s: Session, k: nat, again: seq<Item>, now: nat, supply: Supply)
    requires Inv(s, now, supply) && Enabled(s, WriteError(k, again), now)
    ensures Inv(OnWriteError(s, k, again), now, supply)
  {
    hide Framed, WriteChain.Inv, ReadChain.Inv, BeatsRight;
    WriteFailedKeeps(s.writer, k);
    var failed := s.(writer := WriteFailed(s.writer, k));
    BeatsKeep(s, failed.(closes := s.closes + 1));
    HandleErrorKeeps(failed, again, now, supply);
  }

  lemma OnReadErrorKeeps(s: Session, again: seq<Item>, now: nat, supply: Supply)
    requires Inv(s, now, supply) && Enabled(s, ReadError(again), now)
    ensures Inv(OnReadError(s, again), now, supply)
  {
    hide Framed, WriteChain.Inv, BeatsRight;
    ReadFailedKeeps(s.reader, supply);
    var failed := s.(reader := ReadFailed(s.reader));
    BeatsKeep(s, failed.(closes := s.closes + 1));
    HandleErrorKeeps(failed, again, now, supply);
  }

  lemma StartKeeps(s: Session, now: nat, supply: Supply)
    requires Inv(s, now, supply) && s.reader.pending.Idle?
    ensures Inv(Start(s, now, supply(0)), now, supply)
  {
    hide Framed, WriteChain.Inv, BeatsRight;
    BeginKeeps(s.reader, supply);
    BeatsKeep(s, Start(s, now, supply(0)));
  }

  lemma ArriveKeeps(s: Session, bytes: string, now: nat, supply: Supply)
    requires Inv(s, now, supply) && Enabled(s, Arrive(bytes), now)
    ensures Inv(s.(reader := Receive(s.reader, bytes)), now, supply)
  {
    hide Framed, WriteChain.Inv, BeatsRight, HeartbeatTimer.Inv;
    ReceiveKeeps(s.reader, bytes, supply);
    BeatsKeep(s, s.(reader := Receive(s.reader, bytes)));
  }

  lemma TimerExpiredKeeps(s: Session, k: nat, now: nat, supply: Supply)
    requires Inv(s, now, supply) && Enabled(s, TimerExpired(k), now)
    ensures Inv(s.(timer := Expire(s.timer, k, now, s.headers)), now, supply)
  {
    hide Framed, WriteChain.Inv, BeatsRight, ReadChain.Inv, DataSeen;
    ExpireKeeps(s.timer, k, now, s.headers);
    BeatsKeep(s, s.(timer := Expire(s.timer, k, now, s.headers)));
  }

  lemma AppWriteKeeps(s: Session, item: Item, now: nat, supply: Supply)
    requires Inv(s, now, supply) && AppItem(item)
    ensures Inv(s.(writer := Write(s.writer, item)), now, supply)
  {
    WriteKeeps(s.writer, item);
    WriterStepKeeps(s, Write(s.writer, item), [item], now, supply);
  }

  lemma TransmitKeeps(s: Session, k: nat, n: nat, now: nat, supply: Supply)
    requires Inv(s, now, supply) && Enabled(s, Transmit(k, n), now)
    ensures Inv(s.(writer := Send(s.writer, k, n)), now, supply)
  {
    hide Framed, BeatsRight, ReadChain.Inv, Send;
    SendKeeps(s.writer, k, n);
    assert s.writer.written + [] == s.writer.written;
    WriterStepKeeps(s, Send(s.writer, k, n), [], now, supply);
  }

  lemma WriteCompletedKeeps(s: Session, k: nat, again: seq<Item>, now: nat, supply: Supply)
    requires Inv(s, now, supply) && Enabled(s, WriteCompleted(k, again), now)
    ensures Inv(OnWriteDone(s, k, again), now, supply)
  {
    hide Framed, WriteDone;
    WriteDoneKeeps(s.writer, k, again);
    WriterStepKeeps(s, WriteDone(s.writer, k, again), Reentrant(s.writer.ops[k].callback, again), now, supply);
  }

  /** The "PING" frame, byte for byte. */
  lemma PingFrameIs()
    ensures PING_FRAME == "    4PING"
  {
    assert Strncpy(HEARTBEAT) == HEARTBEAT by { UpToNulUnique(HEARTBEAT, HEARTBEAT); }
    assert Print(4) == "4";
    assert Repeat(' ', 4) == "    ";
  }

  /** Each event gives `write` exactly what the application and the heartbeat handler give it. */
  lemma EventWrites(s: Session, e: Event, now: nat, supply: Supply)
    requires Inv(s, now, supply) && Enabled(s, e, now)
    ensures Apply(s, e, now, supply).writer.written == s.writer.written + Puts(s, e)
  {
    hide ReadChain.Inv, WriteChain.Inv, BeatsRight, WriteAll, WriteDone, WriteChain.Write, UpToNul, Atoi, PING_FRAME;
    assert s.writer.written + [] == s.writer.written;
    match e
    case HeaderRead(again) => WriteAllKeeps(s.writer, again);
    case BodyRead(again) => WriteAllKeeps(s.writer, again);
    case ReadError(again) => WriteAllKeeps(s.writer, again);
    case AppWrite(item) => WriteKeeps(s.writer, item);
    case WriteCompleted(k, again) => WriteDoneKeeps(s.writer, k, again);
    case WriteError(k, again) =>
      WriteFailedKeeps(s.writer, k);
      WriteAllKeeps(WriteFailed(s.writer, k), again);
    case TimerHandled(k) =>
      WriteKeeps(s.writer, HEARTBEAT_ITEM);
      PingFrameIs();
    case _ =>
  }

  /** Which wait is pending after an event, and the new length of each history. */
  lemma EventCounts(s: Session, e: Event, now: nat, supply: Supply)
    requires Inv(s, now, supply) && Enabled(s, e, now)
    ensures var t := Apply(s, e, now, supply);
            && Deadlines(t.timer) == NextDeadlines(s, e, now)
            && t.headers == s.headers + (if e.HeaderRead? && HeaderAccepted(s.reader) then 1 else 0)
            && |t.reader.seen| == |s.reader.seen| + (if e.BodyRead? then 1 else 0)
            && |t.fired| == |s.fired| + (if e.TimerHandled? then 1 else 0)
            && |t.timer.ready| + |t.fired| == |s.timer.ready| + |s.fired| + (if e.TimerExpired? then 1 else 0)
            && t.timer.armed == s.timer.armed + (if Arms(s, e) then 1 else 0)
            && t.closes == s.closes + (if Fails(s, e) then 1 else 0)
            && Reading(t.reader) == (e.Opened? || (Reading(s.reader) && !EndsReads(s, e)))
            && (t.reader.pending.Idle? ==> s.reader.pending.Idle? && t.timer.deadline == s.timer.deadline)
  {
    hide ReadChain.Inv, WriteChain.Inv, BeatsRight, WriteAll, WriteDone, WriteChain.Write, UpToNul, Atoi, PING_FRAME;
  }

  /** A completed write leaves the queue; a failed one stays the only failed one. */
  lemma EventWriteCounts(s: Session, e: Event, now: nat, supply: Supply)
    requires Inv(s, now, supply) && Enabled(s, e, now)
    ensures var w := Apply(s, e, now, supply).writer;
            && |w.popped| == |s.writer.popped| + (if e.WriteCompleted? then 1 else 0)
            && |w.broken| == |s.writer.broken| + (if e.WriteError? then 1 else 0)
  {
    hide ReadChain.Inv, WriteChain.Inv, BeatsRight, WriteAll, WriteDone, WriteChain.Write, UpToNul, Atoi, PING_FRAME;
    match e
    case HeaderRead(again) => WriteAllKeeps(s.writer, again);
    case BodyRead(again) => WriteAllKeeps(s.writer, again);
    case ReadError(again) => WriteAllKeeps(s.writer, again);
    case AppWrite(item) => WriteKeeps(s.writer, item);
    case WriteCompleted(k, again) => WriteDoneKeeps(s.writer, k, again);
    case WriteError(k, again) =>
      WriteFailedKeeps(s.writer, k);
      WriteAllKeeps(WriteFailed(s.writer, k), again);
    case TimerHandled(k) => WriteKeeps(s.writer, HEARTBEAT_ITEM);
    case _ =>
  }

  /** Every event keeps the invariant, and adds to the writes what it gives to `write`. */
  lemma EventKeeps(s: Session, e: Event, now: nat, supply: Supply)
    requires Inv(s, now, supply) && Enabled(s, e, now)
    ensures Inv(Apply(s, e, now, supply), now, supply)
    ensures Apply(s, e, now, supply).writer.written == s.writer.written + Puts(s, e)
    ensures Deadlines(Apply(s, e, now, supply).timer) == NextDeadlines(s, e, now)
  {
    hide Inv, AppItem, Puts, NextDeadlines, Deadlines;
    EventWrites(s, e, now, supply);
    EventCounts(s, e, now, supply);
    match e
    case Opened => StartKeeps(s, now, supply);
    case Arrive(bytes) => ArriveKeeps(s, bytes, now, supply);
    case HeaderRead(again) => OnHeaderKeeps(s, now, again, supply);
    case BodyRead(again) => OnBodyKeeps(s, now, again, supply);
    case ReadError(again) => OnReadErrorKeeps(s, again, now, supply);
    case AppWrite(item) => AppWriteKeeps(s, item, now, supply);
    case Transmit(k, n) => TransmitKeeps(s, k, n, now, supply);
    case WriteCompleted(k, again) => WriteCompletedKeeps(s, k, again, now, supply);
    case WriteError(k, again) => OnWriteErrorKeeps(s, k, again, now, supply);
    case TimerExpired(k) => TimerExpiredKeeps(s, k, now, supply);
    case TimerHandled(k) => OnTimerKeeps(s, k, now, supply);
  }

  lemma NewSessionRight(now: nat, supply: Supply, memory: Buffer)
    ensures Inv(NewSession(now, memory), now, supply)
  {
    hide DecodeHeader, DataFrame, SeenRight, Framed;
  }

  /** Time passes. */
  lemma TickKeeps(s: Session, now: nat, later: nat, supply: Supply)
    requires Inv(s, now, supply) && now <= later
    ensures Inv(s, later, supply)
  {
    hide Framed, WriteChain.Inv, BeatsRight;
  }

  // ----- failures -----

  /** The close callback runs at most twice. */
  lemma ClosesAtMostTwice(s: Session, now: nat, supply: Supply)
    requires Inv(s, now, supply)
    ensures s.closes <= 2
  {
  }

  /** After a failed write no event puts another byte on the connection. */
  lemma BrokenStaysSilent(s: Session, e: Event, now: nat, supply: Supply)
    requires Inv(s, now, supply) && Enabled(s, e, now) && s.writer.broken != []
    ensures Apply(s, e, now, supply).writer.out == s.writer.out
    ensures Apply(s, e, now, supply).writer.broken == s.writer.broken
  {
    hide Framed, BeatsRight, ReadChain.Inv;
    match e
    case HeaderRead(again) => WriteAllKeeps(s.writer, again);
    case BodyRead(again) => WriteAllKeeps(s.writer, again);
    case ReadError(again) => WriteAllKeeps(s.writer, again);
    case AppWrite(item) => WriteKeeps(s.writer, item);
    case TimerHandled(k) => WriteKeeps(s.writer, HEARTBEAT_ITEM);
    case _ =>
  }

  /** The read chain has ended and nothing of the timer is left. */
  predicate TimerDead(s: Session) {
    s.reader.pending.Stopped? && s.timer.waits == [] && s.timer.ready == []
  }

  /** A read chain that ends while no successful completion is queued leaves a dead timer. */
  lemma EndOfReadsKillsTimer(s: Session, e: Event, now: nat, supply: Supply)
    requires Inv(s, now, supply) && Enabled(s, e, now)
    requires !s.reader.pending.Stopped? && Apply(s, e, now, supply).reader.pending.Stopped?
    ensures Apply(s, e, now, supply).timer.waits == []
    ensures s.timer.ready == [] <==> TimerDead(Apply(s, e, now, supply))
  {
    hide DecodeHeader, BeatsRight, WriteChain.Inv;
  }

  /** A dead timer is never armed again. */
  lemma DeadTimerStaysDead(s: Session, e: Event, now: nat, supply: Supply)
    requires Enabled(s, e, now) && TimerDead(s)
    ensures TimerDead(Apply(s, e, now, supply)) && Apply(s, e, now, supply).timer.armed == s.timer.armed
  {
  }

  /** A successful completion that `cancel` came too late for queues a heartbeat and arms the
      timer again. */
  lemma LateCompletionRearms(s: Session, k: nat, now: nat, supply: Supply)
    requires Inv(s, now, supply) && Enabled(s, TimerHandled(k), now)
    ensures |Apply(s, TimerHandled(k), now, supply).timer.waits| == 1
    ensures Apply(s, TimerHandled(k), now, supply).timer.armed == s.timer.armed + 1
    ensures Deadlines(Apply(s, TimerHandled(k), now, supply).timer) == [now + 10]
    ensures Apply(s, TimerHandled(k), now, supply).writer.written
         == s.writer.written + [Item("    4PING", HeartbeatCallback)]
  {
    hide ReadChain.Inv, WriteChain.Inv, BeatsRight;
    EventKeeps(s, TimerHandled(k), now, supply);
  }
}
