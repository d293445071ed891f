/** `Transport::Session`. Its handlers are proved to do what the functions of `SessionModel` say.
    A callback of the application is the list of messages that it hands back to `write`. */
module Sessions {
  import opened CText
  import opened Framing
  import opened ReadChain
  import opened WriteChain
  import opened HeartbeatTimer
  import opened Messages
  import S = SessionModel
  import Traffic

  /** History of the write chain. */
  datatype WriteLog = WriteLog(
    broken: seq<Op>, out: string, popped: seq<Item>, acked: seq<Callback>, written: seq<Item>)

  /** History of the read chain, the timer and the application's callbacks. */
  datatype SessionLog = SessionLog(
    seen: seq<Seen>, headers: nat, fired: seq<Expiry>, delivered: seq<string>, closes: nat)

  const NO_MEMORY: Buffer := Repeat(NUL, BUFFER_SIZE)

  class Session {
    var message: Message?
    var messageItemQueue: seq<MessageItem>
    var heartbeatTimer: Timer

    // the operations that the I/O service performs for this session
    var pending: Pending
    var got: nat
    var ops: seq<WriteOp>

    // history
    ghost var handed: seq<Message>
    ghost var writeLog: WriteLog
    var log: SessionLog

    // ----- abstraction -----

    ghost function Objects(): set<object>
      reads this
    {
      ItemObjects(messageItemQueue) + OpObjects(ops)
    }

    /** The fields and arrays are as the handlers need them, and every message that was handed to
        the application still holds the frame that was delivered. */
    ghost predicate Valid()
      reads this, message, Objects(), MessageObjects(handed)
    {
      && (message != null ==> message.Valid())
      && (pending.Header? || pending.Body? ==> message != null)
      && (pending.Body? ==> message.bodyLength == pending.length <= MAX_BODY_SIZE)
      && GoodItems(messageItemQueue) && GoodOps(ops)
      && Holds(handed, log.delivered)
    }

    function Memory(): Buffer
      reads this, message, if message == null then {} else {message.data}
    {
      if message == null || message.data.Length != BUFFER_SIZE then NO_MEMORY else message.data[..]
    }

    function ReaderView(): Reader
      reads this, message, if message == null then {} else {message.data}
    {
      Reader(pending, got, Memory(), log.seen)
    }

    ghost function WriterView(): Writer
      requires GoodItems(messageItemQueue) && GoodOps(ops)
      reads this, ItemObjects(messageItemQueue), OpObjects(ops)
    {
      Writer(ItemsView(messageItemQueue), OpsView(ops),
             writeLog.broken, writeLog.out, writeLog.popped, writeLog.acked, writeLog.written)
    }

    ghost function View(): S.Session
      requires Valid()
      reads this, message, if message == null then {} else {message.data}, Objects(), MessageObjects(handed)
    {
      S.Session(ReaderView(), WriterView(), heartbeatTimer, log.headers, log.fired, log.delivered, log.closes)
    }

    /** The message that the outstanding read fills, if there is one, is not among these objects. */
    ghost predicate Apart(objects: set<object>)
      reads this
    {
      pending.Header? || pending.Body? ==> message != null && message !in objects && message.data !in objects
    }

    /** While a read is outstanding, nobody else holds the message that it fills: it is not
        queued, not being written, and was not handed to the application. */
    ghost predicate Owned()
      reads this
    {
      Apart(Objects()) && Apart(MessageObjects(handed))
    }

    // ----- writing -----

    constructor (now: nat)
      ensures Valid() && Owned() && View() == S.NewSession(now, NO_MEMORY)
      ensures handed == [] && messageItemQueue == [] && ops == []
    {
      message := null;
      messageItemQueue, ops := [], [];
      heartbeatTimer := NewTimer(now);
      pending, got := Idle, 0;
      handed := [];
      writeLog := WriteLog([], [], [], [], []);
      log := SessionLog([], 0, [], [], 0);
    }

    /** `async_write` of the front item. */
    method StartWrite()
      requires Valid() && messageItemQueue != []
      modifies `ops
      ensures Valid() && Objects() <= old(Objects())
      ensures WriterView() == StartFront(old(WriterView()))
    {
      hide ItemsView, OpsView, ItemObjects, OpObjects, MessageObjects;
      var item := messageItemQueue[0];
      OpsSnoc(ops, WriteOp(item.message, HEADER_SIZE + item.message.bodyLength, item.callback, 0));
      ops := ops + [WriteOp(item.message, HEADER_SIZE + item.message.bodyLength, item.callback, 0)];
    }

    method Write(callback: Callback, m: Message)
      requires Valid() && m.Good()
      modifies `messageItemQueue, `ops, `writeLog
      ensures Valid() && Objects() <= old(Objects()) + {m, m.data}
      ensures old(Owned() && Apart({m, m.data})) ==> Owned()
      ensures messageItemQueue == old(messageItemQueue) + [MessageItem(m, callback)]
      ensures WriterView() == WriteChain.Write(old(WriterView()), Item(m.Frame(), callback))
    {
      hide ItemsView, OpsView, ItemObjects, OpObjects, MessageObjects;
      var writeInProgress := messageItemQueue != [];
      ItemsSnoc(messageItemQueue, MessageItem(m, callback));
      messageItemQueue := messageItemQueue + [MessageItem(m, callback)];
      writeLog := writeLog.(written := writeLog.written + [Item(m.Frame(), callback)]);
      if !writeInProgress {
        StartWrite();
      }
    }

    /** The i-th call of `write` from inside a callback. */
    method WriteNext(ghost before: Writer, again: seq<MessageItem>, i: nat)
      requires Valid() && GoodItems(again) && i < |again| && GoodItems(again[..i])
      requires WriterView() == WriteAll(before, ItemsView(again[..i]))
      modifies `messageItemQueue, `ops, `writeLog
      ensures Valid() && Objects() <= old(Objects()) + ItemObjects(again)
      ensures GoodItems(again) && GoodItems(again[..i + 1])
      ensures WriterView() == WriteAll(before, ItemsView(again[..i + 1]))
      ensures messageItemQueue == old(messageItemQueue) + [again[i]]
    {
      hide ItemsView, OpsView, GoodOps, ItemObjects, OpObjects, MessageObjects, Owned, Apart;
      hide WriteChain.Write, WriteAll;
      ItemsNext(before, again, i);
      ghost var items := ItemsView(again[..i + 1]);
      Write(again[i].callback, again[i].message);
      assert ItemsView(again[..i + 1]) == items;
      assert WriterView() == WriteAll(before, items);
    }

    /** What the application writes from inside a callback. */
    method RunCallback(again: seq<MessageItem>)
      requires Valid() && GoodItems(again)
      modifies `messageItemQueue, `ops, `writeLog
      ensures Valid() && Objects() <= old(Objects()) + ItemObjects(again)
      ensures WriterView() == WriteAll(old(WriterView()), old(ItemsView(again)))
      ensures messageItemQueue == old(messageItemQueue) + again
    {
      hide ItemsView, OpsView, GoodOps, ItemObjects, OpObjects, MessageObjects, Owned, Apart, WriteChain.Write;
      ghost var before := WriterView();
      for i := 0 to |again|
        invariant Valid() && GoodItems(again) && GoodItems(again[..i])
        invariant Objects() <= old(Objects()) + ItemObjects(again)
        invariant WriterView() == WriteAll(before, ItemsView(again[..i]))
        invariant messageItemQueue == old(messageItemQueue) + again[..i]
      {
        WriteNext(before, again, i);
        assert again[..i + 1] == again[..i] + [again[i]];
      }
      assert again[..|again|] == again;
      assert ItemsView(again) == old(ItemsView(again));
    }

    /** The end of `handleWrite`: the front item leaves and the next one starts. */
    method PopFront()
      requires Valid() && messageItemQueue != []
      modifies `messageItemQueue, `ops, `writeLog
      ensures Valid() && Objects() <= old(Objects())
      ensures WriterView() == StartNext(WriteChain.PopFront(old(WriterView())))
      ensures messageItemQueue == old(messageItemQueue)[1..]
    {
      hide ItemsView, OpsView, ItemObjects, OpObjects, MessageObjects;
      ItemsTail(messageItemQueue);
      writeLog := writeLog.(popped := writeLog.popped + [ItemView(messageItemQueue[0])]);
      messageItemQueue := messageItemQueue[1..];
      if messageItemQueue != [] {
        StartWrite();
      }
    }

    /** The callback of a finished write. */
    method Acknowledge(callback: Callback, again: seq<MessageItem>)
      requires Valid() && GoodItems(again) && messageItemQueue != []
      modifies `messageItemQueue, `ops, `writeLog
      ensures Valid() && Objects() <= old(Objects()) + ItemObjects(again) && messageItemQueue != []
      ensures var w := old(WriterView());
              WriterView() == WriteAll(w.(acked := w.acked + [callback]), Reentrant(callback, old(ItemsView(again))))
      ensures messageItemQueue == old(messageItemQueue) + if callback.AppCallback? then again else []
    {
      hide ItemsView, OpsView, ItemObjects, OpObjects, MessageObjects, WriteChain.Write;
      writeLog := writeLog.(acked := writeLog.acked + [callback]);
      ghost var called, items := WriterView(), ItemsView(again);
      assert called == old(WriterView()).(acked := writeLog.acked);
      WriteAllGrows(called, items);
      if callback.AppCallback? {
        RunCallback(again);
        assert ItemsView(again) == items;
        assert |WriterView().queue| == |messageItemQueue|;
      }
    }

    /** The k-th outstanding write leaves the I/O service. */
    method Leave(k: nat)
      requires Valid() && k < |ops|
      modifies `ops
      ensures Valid() && Objects() <= old(Objects())
      ensures WriterView() == old(WriterView()).(ops := Without(old(WriterView()).ops, k))
      ensures old(ops[k].callback) == old(WriterView()).ops[k].callback
    {
      hide ItemsView, OpsView, ItemObjects, OpObjects, MessageObjects;
      assert OpsView(ops)[k] == OpView(ops[k]);
      OpsWithout(ops, k);
      ops := Without(ops, k);
      assert ItemsView(messageItemQueue) == old(ItemsView(messageItemQueue));
    }

    /** `handleWrite` without error, for the k-th outstanding write. */
    method HandleWrite(k: nat, again: seq<MessageItem>)
      requires Valid() && k < |ops| && messageItemQueue != [] && GoodItems(again)
      modifies `messageItemQueue, `ops, `writeLog
      ensures Valid() && Objects() <= old(Objects()) + ItemObjects(again)
      ensures old(Owned() && Apart(ItemObjects(again))) ==> Owned()
      ensures View() == S.OnWriteDone(old(View()), k, old(ItemsView(again)))
      ensures messageItemQueue
           == old(messageItemQueue)[1..] + if old(ops[k].callback).AppCallback? then again else []
    {
      hide ItemsView, OpsView, ItemObjects, OpObjects, MessageObjects, WriteAll, WriteChain.Write, StartNext, Reentrant;
      hide WriteChain.PopFront;
      var callback := ops[k].callback;
      Leave(k);
      ghost var left, items := WriterView(), ItemsView(again);
      assert items == old(ItemsView(again));
      Acknowledge(callback, again);
      assert WriterView() == WriteAll(left.(acked := left.acked + [callback]), Reentrant(callback, items));
      PopFront();
      assert WriterView() == WriteDone(old(WriterView()), k, items);
    }

    /** The k-th outstanding write ends with an error. */
    method EndWrite(k: nat)
      requires Valid() && k < |ops|
      modifies `ops, `writeLog
      ensures Valid() && Objects() <= old(Objects())
      ensures WriterView() == WriteFailed(old(WriterView()), k)
    {
      hide ItemsView, OpsView, ItemObjects, OpObjects, MessageObjects;
      writeLog := writeLog.(broken := writeLog.broken + [OpView(ops[k])]);
      assert OpsView(ops)[k] == OpView(ops[k]);
      Leave(k);
    }

    /** `handleWrite` with an error. */
    method HandleWriteError(k: nat, again: seq<MessageItem>)
      requires Valid() && k < |ops| && GoodItems(again)
      modifies `messageItemQueue, `ops, `writeLog, `log, `heartbeatTimer
      ensures Valid() && Objects() <= old(Objects()) + ItemObjects(again)
      ensures old(Owned() && Apart(ItemObjects(again))) ==> Owned()
      ensures View() == S.OnWriteError(old(View()), k, old(ItemsView(again)))
      ensures messageItemQueue == old(messageItemQueue) + again
      ensures heartbeatTimer.waits == []
    {
      hide ItemsView, OpsView, ItemObjects, OpObjects, MessageObjects, WriteAll, WriteFailed;
      EndWrite(k);
      assert ItemsView(again) == old(ItemsView(again));
      HandleError(again);
    }

    /** `closeCallback_`. */
    method ReportClose(again: seq<MessageItem>)
      requires Valid() && GoodItems(again)
      modifies `messageItemQueue, `ops, `writeLog, `log
      ensures Valid() && Objects() <= old(Objects()) + ItemObjects(again)
      ensures View() == old(View()).(closes := old(View()).closes + 1,
                                     writer := WriteAll(old(WriterView()), old(ItemsView(again))))
      ensures messageItemQueue == old(messageItemQueue) + again
    {
      hide ItemsView, OpsView, ItemObjects, OpObjects, MessageObjects, WriteAll;
      ghost var writer, items := WriterView(), ItemsView(again);
      log := log.(closes := log.closes + 1);
      assert Holds(handed, log.delivered);
      assert ItemsView(again) == items && WriterView() == writer;
      RunCallback(again);
      assert WriterView() == WriteAll(writer, items);
    }

    method HandleError(again: seq<MessageItem>)
      requires Valid() && GoodItems(again)
      modifies `messageItemQueue, `ops, `writeLog, `log, `heartbeatTimer
      ensures Valid() && Objects() <= old(Objects()) + ItemObjects(again)
      ensures View() == S.HandleError(old(View()), old(ItemsView(again)))
      ensures messageItemQueue == old(messageItemQueue) + again
      ensures heartbeatTimer.waits == []
    {
      hide ItemsView, OpsView, ItemObjects, OpObjects, MessageObjects, WriteAll;
      ReportClose(again);
      ghost var writer := WriterView();
      heartbeatTimer := Cancel(heartbeatTimer);
      assert WriterView() == writer;
    }

    /** The transport takes the next `n` bytes of an outstanding write from the memory of its
        message. */
    method Transmit(k: nat, n: nat)
      requires Valid() && k < |ops| && ops[k].sent + n <= ops[k].length
      modifies `ops, `writeLog
      ensures Valid() && Objects() <= old(Objects())
      ensures old(Owned()) ==> Owned()
      ensures WriterView() == Send(old(WriterView()), k, n)
    {
      hide ItemsView, OpsView, ItemObjects, OpObjects, MessageObjects;
      var op := ops[k];
      ghost var view, bytes := OpsView(ops), op.message.data[op.sent..op.sent + n];
      assert view[k] == OpView(op) && bytes == OpView(op).bytes[op.sent..op.sent + n];
      OpsUpdate(ops, k, op.(sent := op.sent + n));
      assert OpView(op.(sent := op.sent + n)) == view[k].(sent := op.sent + n);
      writeLog := writeLog.(out := writeLog.out + bytes);
      ops := ops[k := op.(sent := op.sent + n)];
      assert ItemsView(messageItemQueue) == old(ItemsView(messageItemQueue));
    }

    // ----- reading -----

    /** The transport stores the next bytes of the stream in the message that the outstanding
        read fills. No queued message and no message handed to the application changes. */
    method Receive(bytes: string)
      requires Valid() && Owned()
      requires Bounded(ReaderView()) && Reading(ReaderView()) && got + |bytes| <= Wanted(ReaderView())
      modifies `got, message.data
      ensures Valid() && Owned() && Objects() == old(Objects())
      ensures View() == old(View()).(reader := ReadChain.Receive(old(ReaderView()), bytes))
      ensures forall m <- handed :: m.data[..] == old(m.data[..])
    {
      hide ItemsView, OpsView, ItemObjects, OpObjects, MessageObjects;
      var from := Held(ReaderView());
      ghost var before := message.data[..];
      forall i | 0 <= i < |bytes| {
        message.data[from + i] := bytes[i];
      }
      got := got + |bytes|;
      IsSplice(message.data[..], before, from, bytes);
    }

    /** `message_.reset(new Message)` and `async_read` of its header. */
    method ReadNextHeader()
      requires Valid()
      modifies `message, `pending, `got
      ensures Valid() && Owned() && Objects() == old(Objects())
      ensures fresh(message) && fresh(message.data)
      ensures ReaderView() == Begin(old(ReaderView()), Memory())
    {
      message := new Message();
      pending, got := Header, 0;
    }

    /** `start`. The two callbacks are not fields of the model: what they do is a parameter of
        each handler that calls them. */
    method Start(now: nat)
      requires Valid() && pending.Idle?
      modifies this
      ensures Valid() && Owned() && fresh(message) && fresh(message.data)
      ensures View() == S.Start(old(View()), now, Memory())
      ensures pending == Header && got == 0 && |heartbeatTimer.waits| == |old(heartbeatTimer.waits)| + 1
    {
      hide ItemsView, OpsView, ItemObjects, OpObjects, MessageObjects;
      heartbeatTimer := AsyncWait(heartbeatTimer, now, log.headers);
      ReadNextHeader();
    }

    /** `message_->decodeHeader()` changes nothing but the length of the message being read. */
    method DecodeHeader(ghost again: seq<MessageItem>) returns (ok: bool)
      requires Valid() && Owned() && GoodItems(again) && pending.Header?
      requires message !in ItemObjects(again) && message.data !in ItemObjects(again)
      modifies message`bodyLength
      ensures Valid() && Owned() && message.Good() && GoodItems(again)
      ensures View() == old(View()) && ItemsView(again) == old(ItemsView(again))
      ensures (message.bodyLength, ok) == Framing.DecodeHeader(Memory()[..HEADER_SIZE])
      ensures ok == HeaderAccepted(old(ReaderView()))
    {
      hide ItemsView, OpsView, ItemObjects, OpObjects, MessageObjects, Framing.DecodeHeader;
      assert message.data[..HEADER_SIZE] == message.data[..][..HEADER_SIZE];
      ok := message.DecodeHeader();
      DecodeHeaderTotal(Memory()[..HEADER_SIZE]);
    }

    /** Pending waits are cancelled, a completion that is already queued stays, and one wait is
        armed that expires in ten seconds. */
    method ResetHeartbeatTimer(now: nat)
      requires Valid()
      modifies `heartbeatTimer
      ensures Valid() && View() == S.ResetTimer(old(View()), now)
      ensures |heartbeatTimer.waits| == 1 && heartbeatTimer.waits[0].deadline == now + HEARTBEAT_INTERVAL
      ensures heartbeatTimer.ready == old(heartbeatTimer.ready)
    {
      heartbeatTimer := Cancel(heartbeatTimer);
      heartbeatTimer := ExpiresFromNow(heartbeatTimer, now);
      heartbeatTimer := AsyncWait(heartbeatTimer, now, log.headers);
    }

    /** The header was accepted: on to the body, and the timer starts again. */
    method ReadBody(now: nat)
      requires Valid() && Owned() && pending.Header? && message.Good()
      modifies `pending, `got, `log, `heartbeatTimer
      ensures Valid() && Owned() && Objects() == old(Objects())
      ensures View() == S.ResetTimer(
                old(View()).(reader := old(ReaderView()).(pending := Body(message.bodyLength), got := 0),
                             headers := old(View()).headers + 1), now)
      ensures |heartbeatTimer.waits| == 1 && heartbeatTimer.waits[0].deadline == now + 10
      ensures pending == Body(message.bodyLength) && log.headers == old(log.headers) + 1
    {
      hide ItemsView, OpsView, ItemObjects, OpObjects, MessageObjects;
      ghost var writer := WriterView();
      pending, got := Body(message.bodyLength), 0;
      log := log.(headers := log.headers + 1);
      assert Holds(handed, log.delivered) && WriterView() == writer;
      ResetHeartbeatTimer(now);
      assert WriterView() == writer;
    }

    /** The header was rejected. */
    method RejectHeader(again: seq<MessageItem>)
      requires Valid() && GoodItems(again) && pending.Header?
      modifies `pending, `messageItemQueue, `ops, `writeLog, `log, `heartbeatTimer
      ensures Valid() && Owned() && Objects() <= old(Objects()) + ItemObjects(again)
      ensures View() == S.HandleError(
                old(View()).(reader := old(ReaderView()).(pending := Stopped(HEADER_SIZE, true))),
                old(ItemsView(again)))
      ensures messageItemQueue == old(messageItemQueue) + again
      ensures heartbeatTimer.waits == []
    {
      hide ItemsView, OpsView, ItemObjects, OpObjects, MessageObjects, WriteAll;
      pending := Stopped(HEADER_SIZE, true);
      assert ItemsView(again) == old(ItemsView(again)) && WriterView() == old(WriterView());
      HandleError(again);
    }

    method HandleReadMessageHeader(now: nat, again: seq<MessageItem>)
      requires Valid() && Owned() && GoodItems(again)
      requires Bounded(ReaderView()) && pending.Header? && Complete(ReaderView())
      requires message !in ItemObjects(again) && message.data !in ItemObjects(again)
      modifies `pending, `got, `log, `heartbeatTimer, `messageItemQueue, `ops, `writeLog, message`bodyLength
      ensures Valid() && Owned() && Objects() <= old(Objects()) + ItemObjects(again)
      ensures View() == S.OnHeader(old(View()), now, old(ItemsView(again)))
      ensures HeaderAccepted(old(ReaderView())) ==>
        && |heartbeatTimer.waits| == 1 && heartbeatTimer.waits[0].deadline == now + 10
        && pending == Body(message.bodyLength) && log.headers == old(log.headers) + 1
        && messageItemQueue == old(messageItemQueue)
      ensures !HeaderAccepted(old(ReaderView())) ==>
        && heartbeatTimer.waits == [] && pending.Stopped? && log.closes == old(log.closes) + 1
        && messageItemQueue == old(messageItemQueue) + again
    {
      hide ItemsView, OpsView, ItemObjects, OpObjects, MessageObjects, Framing.DecodeHeader, WriteAll;
      var ok := DecodeHeader(again);
      if ok {
        ReadBody(now);
      } else {
        RejectHeader(again);
      }
    }

    /** Either read handler with an I/O error. */
    method HandleReadError(again: seq<MessageItem>)
      requires Valid() && GoodItems(again) && (pending.Header? || pending.Body?)
      modifies `messageItemQueue, `ops, `writeLog, `log, `heartbeatTimer, `pending
      ensures Valid() && Owned()
      ensures View() == S.OnReadError(old(View()), old(ItemsView(again)))
      ensures messageItemQueue == old(messageItemQueue) + again
      ensures heartbeatTimer.waits == []
    {
      hide ItemsView, OpsView, ItemObjects, OpObjects, MessageObjects;
      pending := Stopped(Held(ReaderView()), false);
      HandleError(again);
    }

    /** `readCallback_` without error. It may write the very message that it is given. */
    method Deliver(frame: string, again: seq<MessageItem>)
      requires Valid() && GoodItems(again) && message != null && message.Good() && message.Frame() == frame
      modifies `log, `handed, `messageItemQueue, `ops, `writeLog
      ensures Valid() && handed == old(handed) + [message]
      ensures View() == old(View()).(delivered := old(View()).delivered + [frame],
                                     writer := WriteAll(old(WriterView()), old(ItemsView(again))))
      ensures messageItemQueue == old(messageItemQueue) + again
    {
      hide ItemsView, OpsView, ItemObjects, OpObjects, MessageObjects, WriteAll;
      ghost var writer, items := WriterView(), ItemsView(again);
      log := log.(delivered := log.delivered + [frame]);
      handed := handed + [message];
      assert Holds(handed, log.delivered);
      assert ItemsView(again) == items && WriterView() == writer;
      RunCallback(again);
      assert WriterView() == WriteAll(writer, items);
    }

    /** The end of `handleReadMessageBody`: on to the next message. */
    method FinishBody(frame: string, heartbeat: bool)
      requires Valid()
      modifies `log, `message, `pending, `got
      ensures Valid() && Owned() && fresh(message) && fresh(message.data)
      ensures var r := old(ReaderView());
              View() == old(View()).(reader := Begin(r.(seen := r.seen + [Seen(frame, heartbeat)]), Memory()))
    {
      hide ItemsView, OpsView, ItemObjects, OpObjects, MessageObjects;
      log := log.(seen := log.seen + [Seen(frame, heartbeat)]);
      ReadNextHeader();
    }

    method HandleReadMessageBody(again: seq<MessageItem>)
      requires Valid() && Owned() && GoodItems(again)
      requires Bounded(ReaderView()) && pending.Body? && Complete(ReaderView())
      modifies `log, `handed, `messageItemQueue, `ops, `writeLog, `message, `pending, `got
      ensures Valid() && Owned() && fresh(message) && fresh(message.data)
      ensures View() == S.OnBody(old(View()), Memory(), old(ItemsView(again)))
      ensures handed == old(handed) + if Framing.IsHeartbeat(old(Memory())) then [] else [old(message)]
      ensures old(message).Good() && old(message).Frame() == Partial(old(ReaderView()))
      ensures messageItemQueue
           == old(messageItemQueue) + if HoldsPing(old(ReaderView())) then [] else again
    {
      hide ItemsView, OpsView, ItemObjects, OpObjects, MessageObjects, Framing.IsHeartbeat, WriteAll;
      var heartbeat := message.IsHeartbeat();
      assert heartbeat == HoldsPing(ReaderView());
      assert View() == old(View()) && ItemsView(again) == old(ItemsView(again));
      var frame := Partial(ReaderView());
      assert message.Frame() == frame;
      if !heartbeat {
        Deliver(frame, again);
      }
      FinishBody(frame, heartbeat);
    }

    // ----- the heartbeat timer -----

    method NewHeartbeat() returns (m: Message)
      ensures fresh(m) && fresh(m.data) && m.Good() && m.Frame() == Traffic.PING_FRAME == "    4PING"
    {
      m := new Message();
      m.CreateHeartbeatMessage();
      S.PingFrameIs();
    }

    method SendHeartbeat()
      requires Valid() && Owned()
      modifies `messageItemQueue, `ops, `writeLog
      ensures Valid() && Owned()
      ensures WriterView() == WriteChain.Write(old(WriterView()), S.HEARTBEAT_ITEM)
      ensures messageItemQueue != [] && messageItemQueue[..|messageItemQueue| - 1] == old(messageItemQueue)
      ensures var item := messageItemQueue[|messageItemQueue| - 1];
              item.callback.HeartbeatCallback? && item.message.Good() && item.message.Frame() == "    4PING"
    {
      hide ItemsView, OpsView, ItemObjects, OpObjects, MessageObjects, WriteChain.Write;
      var heartbeatMessage := NewHeartbeat();
      assert WriterView() == old(WriterView());
      Write(HeartbeatCallback, heartbeatMessage);
    }

    /** `expires_from_now` and `async_wait`. */
    method Rearm(now: nat)
      requires Valid()
      modifies `heartbeatTimer
      ensures Valid()
      ensures View() == old(View()).(timer := AsyncWait(ExpiresFromNow(old(heartbeatTimer), now), now, log.headers))
    {
      hide ItemsView, OpsView, ItemObjects, OpObjects, MessageObjects;
      heartbeatTimer := ExpiresFromNow(heartbeatTimer, now);
      heartbeatTimer := AsyncWait(heartbeatTimer, now, log.headers);
    }

    /** The I/O service takes the k-th successful completion from its queue. */
    method TakeCompletion(k: nat)
      requires Valid() && k < |heartbeatTimer.ready|
      modifies `log, `heartbeatTimer
      ensures Valid()
      ensures View() == old(View()).(fired := old(View()).fired + [old(heartbeatTimer.ready[k])],
                                     timer := Take(old(heartbeatTimer), k))
    {
      hide ItemsView, OpsView, ItemObjects, OpObjects, MessageObjects;
      ghost var writer := WriterView();
      log := log.(fired := log.fired + [heartbeatTimer.ready[k]]);
      assert Holds(handed, log.delivered);
      heartbeatTimer := Take(heartbeatTimer, k);
      assert WriterView() == writer;
    }

    /** `heartbeatHandle` for the k-th queued successful completion. */
    method HeartbeatHandle(k: nat, now: nat)
      requires Valid() && Owned() && k < |heartbeatTimer.ready|
      modifies `log, `heartbeatTimer, `messageItemQueue, `ops, `writeLog
      ensures Valid() && Owned()
      ensures View() == S.OnTimer(old(View()), k, now)
      ensures messageItemQueue != [] && messageItemQueue[..|messageItemQueue| - 1] == old(messageItemQueue)
      ensures var item := messageItemQueue[|messageItemQueue| - 1];
              item.callback.HeartbeatCallback? && item.message.Good() && item.message.Frame() == "    4PING"
      ensures |heartbeatTimer.waits| == 1 && heartbeatTimer.waits[0].deadline == now + 10
      ensures |heartbeatTimer.ready| == |old(heartbeatTimer.ready)| - 1
    {
      hide ItemsView, OpsView, ItemObjects, OpObjects, MessageObjects, WriteChain.Write, Traffic.PING_FRAME;
      TakeCompletion(k);
      SendHeartbeat();
      Rearm(now);
    }
  }
}
