/** `Transport::Client`. Its handlers are proved to do what the functions of `ClientModel` say.
    A callback of the application is the list of messages that it hands back to `write`. */
module Clients {
  import opened CText
  import opened Framing
  import opened ReadChain
  import opened WriteChain
  import opened Messages
  import C = ClientModel
  import opened Sessions

  /** History of the read chain and of the application's callbacks. */
  datatype ClientLog = ClientLog(
    connected: bool, seen: seq<Seen>, delivered: seq<string>, readErrors: nat, writeErrors: seq<Callback>)

  class Client {
    var message: Message?
    var messageItemQueue: seq<MessageItem>

    // the operations that the I/O service performs for this client
    var pending: Pending
    var got: nat
    var ops: seq<WriteOp>

    // history
    ghost var handed: seq<Message>
    ghost var writeLog: WriteLog
    var log: ClientLog

    // ----- abstraction -----

    ghost function Objects(): set<object>
      reads this
    {
      ItemObjects(messageItemQueue) + OpObjects(ops)
    }

    /** The fields and arrays are as the handlers need them, and every message that was handed to
        the application still holds the frame that was delivered. */
    ghost predicate Valid()
      reads this, message, Objects(), MessageObjects(handed)
    {
      && (message != null ==> message.Valid())
      && (pending.Header? || pending.Body? ==> message != null)
      && (pending.Body? ==> message.bodyLength == pending.length <= MAX_BODY_SIZE)
      && GoodItems(messageItemQueue) && GoodOps(ops)
      && Holds(handed, log.delivered)
    }

    function Memory(): Buffer
      reads this, message, if message == null then {} else {message.data}
    {
      if message == null || message.data.Length != BUFFER_SIZE then NO_MEMORY else message.data[..]
    }

    function ReaderView(): Reader
      reads this, message, if message == null then {} else {message.data}
    {
      Reader(pending, got, Memory(), log.seen)
    }

    ghost function WriterView(): Writer
      requires GoodItems(messageItemQueue) && GoodOps(ops)
      reads this, ItemObjects(messageItemQueue), OpObjects(ops)
    {
      Writer(ItemsView(messageItemQueue), OpsView(ops),
             writeLog.broken, writeLog.out, writeLog.popped, writeLog.acked, writeLog.written)
    }

    ghost function View(): C.Client
      requires Valid()
      reads this, message, if message == null then {} else {message.data}, Objects(), MessageObjects(handed)
    {
      C.Client(log.connected, ReaderView(), WriterView(), log.delivered, log.readErrors, log.writeErrors)
    }

    /** The message that the outstanding read fills, if there is one, is not among these objects. */
    ghost predicate Apart(objects: set<object>)
      reads this
    {
      pending.Header? || pending.Body? ==> message != null && message !in objects && message.data !in objects
    }

    /** While a read is outstanding, nobody else holds the message that it fills: it is not
        queued, not being written, and was not handed to the application. */
    ghost predicate Owned()
      reads this
    {
      Apart(Objects()) && Apart(MessageObjects(handed))
    }

    // ----- writing -----

    /** A client on which `start` has been called and that waits for `async_connect`. */
    constructor ()
      ensures Valid() && Owned() && View() == C.NewClient(Memory())
      ensures handed == [] && messageItemQueue == [] && ops == []
    {
      message := new Message();
      messageItemQueue, ops := [], [];
      pending, got := Idle, 0;
      handed := [];
      writeLog := WriteLog([], [], [], [], []);
      log := ClientLog(false, [], [], 0, []);
    }

    /** `async_write` of the front item. */
    method StartWrite()
      requires Valid() && messageItemQueue != []
      modifies `ops
      ensures Valid() && Objects() <= old(Objects())
      ensures WriterView() == StartFront(old(WriterView()))
    {
      hide ItemsView, OpsView, ItemObjects, OpObjects, MessageObjects;
      var item := messageItemQueue[0];
      OpsSnoc(ops, WriteOp(item.message, HEADER_SIZE + item.message.bodyLength, item.callback, 0));
      ops := ops + [WriteOp(item.message, HEADER_SIZE + item.message.bodyLength, item.callback, 0)];
    }

    method Write(callback: Callback, m: Message)
      requires Valid() && m.Good()
      modifies `messageItemQueue, `ops, `writeLog
      ensures Valid() && Objects() <= old(Objects()) + {m, m.data}
      ensures old(Owned() && Apart({m, m.data})) ==> Owned()
      ensures messageItemQueue == old(messageItemQueue) + [MessageItem(m, callback)]
      ensures WriterView() == WriteChain.Write(old(WriterView()), Item(m.Frame(), callback))
    {
      hide ItemsView, OpsView, ItemObjects, OpObjects, MessageObjects;
      var writeInProgress := messageItemQueue != [];
      ItemsSnoc(messageItemQueue, MessageItem(m, callback));
      messageItemQueue := messageItemQueue + [MessageItem(m, callback)];
      writeLog := writeLog.(written := writeLog.written + [Item(m.Frame(), callback)]);
      if !writeInProgress {
        StartWrite();
      }
    }

    /** The i-th call of `write` from inside a callback. */
    method WriteNext(ghost before: Writer, again: seq<MessageItem>, i: nat)
      requires Valid() && GoodItems(again) && i < |again| && GoodItems(again[..i])
      requires WriterView() == WriteAll(before, ItemsView(again[..i]))
      modifies `messageItemQueue, `ops, `writeLog
      ensures Valid() && Objects() <= old(Objects()) + ItemObjects(again)
      ensures GoodItems(again) && GoodItems(again[..i + 1])
      ensures WriterView() == WriteAll(before, ItemsView(again[..i + 1]))
      ensures messageItemQueue == old(messageItemQueue) + [again[i]]
    {
      hide ItemsView, OpsView, GoodOps, ItemObjects, OpObjects, MessageObjects, Owned, Apart;
      hide WriteChain.Write, WriteAll;
      ItemsNext(before, again, i);
      ghost var items := ItemsView(again[..i + 1]);
      Write(again[i].callback, again[i].message);
      assert ItemsView(again[..i + 1]) == items;
      assert WriterView() == WriteAll(before, items);
    }

    /** What the application writes from inside a callback. */
    method RunCallback(again: seq<MessageItem>)
      requires Valid() && GoodItems(again)
      modifies `messageItemQueue, `ops, `writeLog
      ensures Valid() && Objects() <= old(Objects()) + ItemObjects(again)
      ensures WriterView() == WriteAll(old(WriterView()), old(ItemsView(again)))
      ensures messageItemQueue == old(messageItemQueue) + again
    {
      hide ItemsView, OpsView, GoodOps, ItemObjects, OpObjects, MessageObjects, Owned, Apart, WriteChain.Write;
      ghost var before := WriterView();
      for i := 0 to |again|
        invariant Valid() && GoodItems(again) && GoodItems(again[..i])
        invariant Objects() <= old(Objects()) + ItemObjects(again)
        invariant WriterView() == WriteAll(before, ItemsView(again[..i]))
        invariant messageItemQueue == old(messageItemQueue) + again[..i]
      {
        WriteNext(before, again, i);
        assert again[..i + 1] == again[..i] + [again[i]];
      }
      assert again[..|again|] == again;
      assert ItemsView(again) == old(ItemsView(again));
    }

    /** The end of `handleWrite`: the front item leaves and the next one starts. */
    method PopFront()
      requires Valid() && messageItemQueue != []
      modifies `messageItemQueue, `ops, `writeLog
      ensures Valid() && Objects() <= old(Objects())
      ensures WriterView() == StartNext(WriteChain.PopFront(old(WriterView())))
      ensures messageItemQueue == old(messageItemQueue)[1..]
    {
      hide ItemsView, OpsView, ItemObjects, OpObjects, MessageObjects;
      ItemsTail(messageItemQueue);
      writeLog := writeLog.(popped := writeLog.popped + [ItemView(messageItemQueue[0])]);
      messageItemQueue := messageItemQueue[1..];
      if messageItemQueue != [] {
        StartWrite();
      }
    }

    /** The callback of a finished write. */
    method Acknowledge(callback: Callback, again: seq<MessageItem>)
      requires Valid() && GoodItems(again) && messageItemQueue != []
      modifies `messageItemQueue, `ops, `writeLog
      ensures Valid() && Objects() <= old(Objects()) + ItemObjects(again) && messageItemQueue != []
      ensures var w := old(WriterView());
              WriterView() == WriteAll(w.(acked := w.acked + [callback]), Reentrant(callback, old(ItemsView(again))))
      ensures messageItemQueue == old(messageItemQueue) + if callback.AppCallback? then again else []
    {
      hide ItemsView, OpsView, ItemObjects, OpObjects, MessageObjects, WriteChain.Write;
      writeLog := writeLog.(acked := writeLog.acked + [callback]);
      ghost var called, items := WriterView(), ItemsView(again);
      assert called == old(WriterView()).(acked := writeLog.acked);
      WriteAllGrows(called, items);
      if callback.AppCallback? {
        RunCallback(again);
        assert ItemsView(again) == items;
        assert |WriterView().queue| == |messageItemQueue|;
      }
    }

    /** The k-th outstanding write leaves the I/O service. */
    method Leave(k: nat)
      requires Valid() && k < |ops|
      modifies `ops
      ensures Valid() && Objects() <= old(Objects())
      ensures WriterView() == old(WriterView()).(ops := Without(old(WriterView()).ops, k))
      ensures old(ops[k].callback) == old(WriterView()).ops[k].callback
    {
      hide ItemsView, OpsView, ItemObjects, OpObjects, MessageObjects;
      assert OpsView(ops)[k] == OpView(ops[k]);
      OpsWithout(ops, k);
      ops := Without(ops, k);
      assert ItemsView(messageItemQueue) == old(ItemsView(messageItemQueue));
    }

    /** `handleWrite` without error, for the k-th outstanding write. */
    method HandleWrite(k: nat, again: seq<MessageItem>)
      requires Valid() && k < |ops| && messageItemQueue != [] && GoodItems(again)
      modifies `messageItemQueue, `ops, `writeLog
      ensures Valid() && Objects() <= old(Objects()) + ItemObjects(again)
      ensures old(Owned() && Apart(ItemObjects(again))) ==> Owned()
      ensures View() == C.OnWriteDone(old(View()), k, old(ItemsView(again)))
      ensures messageItemQueue
           == old(messageItemQueue)[1..] + if old(ops[k].callback).AppCallback? then again else []
    {
      hide ItemsView, OpsView, ItemObjects, OpObjects, MessageObjects, WriteAll, WriteChain.Write, StartNext, Reentrant;
      hide WriteChain.PopFront;
      var callback := ops[k].callback;
      Leave(k);
      ghost var left, items := WriterView(), ItemsView(again);
      assert items == old(ItemsView(again));
      Acknowledge(callback, again);
      assert WriterView() == WriteAll(left.(acked := left.acked + [callback]), Reentrant(callback, items));
      PopFront();
      assert WriterView() == WriteDone(old(WriterView()), k, items);
    }

    /** The k-th outstanding write ends with an error. */
    method EndWrite(k: nat)
      requires Valid() && k < |ops|
      modifies `ops, `writeLog
      ensures Valid() && Objects() <= old(Objects())
      ensures WriterView() == WriteFailed(old(WriterView()), k)
    {
      hide ItemsView, OpsView, ItemObjects, OpObjects, MessageObjects;
      writeLog := writeLog.(broken := writeLog.broken + [OpView(ops[k])]);
      assert OpsView(ops)[k] == OpView(ops[k]);
      Leave(k);
    }

    /** The callback of a failed write. */
    method ReportWriteError(callback: Callback, again: seq<MessageItem>)
      requires Valid() && GoodItems(again)
      modifies `messageItemQueue, `ops, `writeLog, `log
      ensures Valid() && Objects() <= old(Objects()) + ItemObjects(again)
      ensures View() == old(View()).(writeErrors := old(View()).writeErrors + [callback],
                                     writer := WriteAll(old(WriterView()), Reentrant(callback, old(ItemsView(again)))))
      ensures messageItemQueue == old(messageItemQueue) + if callback.AppCallback? then again else []
    {
      hide ItemsView, OpsView, ItemObjects, OpObjects, MessageObjects, WriteChain.Write;
      log := log.(writeErrors := log.writeErrors + [callback]);
      assert Holds(handed, log.delivered);
      ghost var items := ItemsView(again);
      assert items == old(ItemsView(again)) && WriterView() == old(WriterView());
      if callback.AppCallback? {
        RunCallback(again);
      }
    }

    /** `handleWrite` with an error: the callback of that write gets the error. */
    method HandleWriteError(k: nat, again: seq<MessageItem>)
      requires Valid() && k < |ops| && GoodItems(again)
      modifies `messageItemQueue, `ops, `writeLog, `log
      ensures Valid() && Objects() <= old(Objects()) + ItemObjects(again)
      ensures old(Owned() && Apart(ItemObjects(again))) ==> Owned()
      ensures View() == C.OnWriteError(old(View()), k, old(ItemsView(again)))
      ensures messageItemQueue
           == old(messageItemQueue) + if old(ops[k].callback).AppCallback? then again else []
    {
      hide ItemsView, OpsView, ItemObjects, OpObjects, MessageObjects, WriteAll, WriteFailed;
      var callback := ops[k].callback;
      EndWrite(k);
      assert ItemsView(again) == old(ItemsView(again));
      ReportWriteError(callback, again);
    }

    /** `readCallback_` with an error. */
    method ReportReadError(again: seq<MessageItem>)
      requires Valid() && GoodItems(again)
      modifies `messageItemQueue, `ops, `writeLog, `log
      ensures Valid() && Objects() <= old(Objects()) + ItemObjects(again)
      ensures View() == C.ReportReadError(old(View()), old(ItemsView(again)))
      ensures messageItemQueue == old(messageItemQueue) + again
    {
      hide ItemsView, OpsView, ItemObjects, OpObjects, MessageObjects, WriteAll;
      ghost var writer, items := WriterView(), ItemsView(again);
      log := log.(readErrors := log.readErrors + 1);
      assert Holds(handed, log.delivered);
      assert ItemsView(again) == items && WriterView() == writer;
      RunCallback(again);
      assert WriterView() == WriteAll(writer, items);
    }

    /** The transport takes the next `n` bytes of an outstanding write from the memory of its
        message. */
    method Transmit(k: nat, n: nat)
      requires Valid() && k < |ops| && ops[k].sent + n <= ops[k].length
      modifies `ops, `writeLog
      ensures Valid() && Objects() <= old(Objects())
      ensures old(Owned()) ==> Owned()
      ensures WriterView() == Send(old(WriterView()), k, n)
    {
      hide ItemsView, OpsView, ItemObjects, OpObjects, MessageObjects;
      var op := ops[k];
      ghost var view, bytes := OpsView(ops), op.message.data[op.sent..op.sent + n];
      assert view[k] == OpView(op) && bytes == OpView(op).bytes[op.sent..op.sent + n];
      OpsUpdate(ops, k, op.(sent := op.sent + n));
      assert OpView(op.(sent := op.sent + n)) == view[k].(sent := op.sent + n);
      writeLog := writeLog.(out := writeLog.out + bytes);
      ops := ops[k := op.(sent := op.sent + n)];
      assert ItemsView(messageItemQueue) == old(ItemsView(messageItemQueue));
    }

    // ----- reading -----

    /** The transport stores the next bytes of the stream in the message that the outstanding
        read fills. No queued message and no message handed to the application changes. */
    method Receive(bytes: string)
      requires Valid() && Owned()
      requires Bounded(ReaderView()) && Reading(ReaderView()) && got + |bytes| <= Wanted(ReaderView())
      modifies `got, message.data
      ensures Valid() && Owned() && Objects() == old(Objects())
      ensures View() == old(View()).(reader := ReadChain.Receive(old(ReaderView()), bytes))
      ensures forall m <- handed :: m.data[..] == old(m.data[..])
    {
      hide ItemsView, OpsView, ItemObjects, OpObjects, MessageObjects;
      var from := Held(ReaderView());
      ghost var before := message.data[..];
      forall i | 0 <= i < |bytes| {
        message.data[from + i] := bytes[i];
      }
      got := got + |bytes|;
      IsSplice(message.data[..], before, from, bytes);
    }

    /** `message_.reset(new Message)` and `async_read` of its header. */
    method ReadNextHeader()
      requires Valid()
      modifies `message, `pending, `got
      ensures Valid() && Owned() && Objects() == old(Objects())
      ensures fresh(message) && fresh(message.data)
      ensures ReaderView() == Begin(old(ReaderView()), Memory())
    {
      message := new Message();
      pending, got := Header, 0;
    }

    method HandleConnect()
      requires Valid() && pending.Idle?
      modifies `message, `pending, `got, `log
      ensures Valid() && Owned() && fresh(message) && fresh(message.data)
      ensures View() == C.OnConnected(old(View()), Memory())
      ensures pending == Header && got == 0 && log.connected
    {
      hide ItemsView, OpsView, ItemObjects, OpObjects, MessageObjects;
      log := log.(connected := true);
      ReadNextHeader();
    }

    method HandleConnectError(again: seq<MessageItem>)
      requires Valid() && GoodItems(again) && pending.Idle?
      modifies `messageItemQueue, `ops, `writeLog, `log, `pending
      ensures Valid() && Owned()
      ensures View() == C.OnConnectError(old(View()), old(ItemsView(again)))
      ensures messageItemQueue == old(messageItemQueue) + again
    {
      hide ItemsView, OpsView, ItemObjects, OpObjects, MessageObjects;
      pending := Stopped(0, false);
      ReportReadError(again);
    }

    /** `message_->decodeHeader()` changes nothing but the length of the message being read. */
    method DecodeHeader(ghost again: seq<MessageItem>) returns (ok: bool)
      requires Valid() && Owned() && GoodOrRead(again) && pending.Header?
      modifies message`bodyLength
      ensures Valid() && Owned() && message.Good() && GoodItems(again) && View() == old(View())
      ensures (message.bodyLength, ok) == Framing.DecodeHeader(Memory()[..HEADER_SIZE])
      ensures ok == HeaderAccepted(old(ReaderView()))
    {
      hide ItemsView, OpsView, ItemObjects, OpObjects, MessageObjects, Framing.DecodeHeader;
      assert message.data[..HEADER_SIZE] == message.data[..][..HEADER_SIZE];
      ok := message.DecodeHeader();
      DecodeHeaderTotal(Memory()[..HEADER_SIZE]);
    }

    /** The header was rejected. */
    method RejectHeader(again: seq<MessageItem>)
      requires Valid() && GoodItems(again) && pending.Header?
      modifies `pending, `messageItemQueue, `ops, `writeLog, `log
      ensures Valid() && Owned() && GoodItems(again) && ItemsView(again) == old(ItemsView(again))
      ensures View() == C.ReportReadError(
                old(View()).(reader := old(ReaderView()).(pending := Stopped(HEADER_SIZE, true))), ItemsView(again))
      ensures messageItemQueue == old(messageItemQueue) + again
    {
      hide ItemsView, OpsView, ItemObjects, OpObjects, MessageObjects, WriteAll;
      pending := Stopped(HEADER_SIZE, true);
      assert ItemsView(again) == old(ItemsView(again)) && WriterView() == old(WriterView());
      ReportReadError(again);
    }

    /** Messages that hold a frame, or the message that is being read. */
    ghost predicate GoodOrRead(items: seq<MessageItem>)
      reads this, ItemObjects(items)
    {
      forall i :: 0 <= i < |items| ==> items[i].message == message || items[i].message.Good()
    }

    /** A read callback that is told that the header was rejected may write the rejected message
        back: what it writes is `again` as it is afterwards. */
    method HandleReadMessageHeader(again: seq<MessageItem>)
      requires Valid() && Owned() && GoodOrRead(again)
      requires Bounded(ReaderView()) && pending.Header? && Complete(ReaderView())
      modifies `pending, `got, `log, `messageItemQueue, `ops, `writeLog, message`bodyLength
      ensures Valid() && Owned() && GoodItems(again)
      ensures View() == C.OnHeader(old(View()), ItemsView(again))
      ensures HeaderAccepted(old(ReaderView())) ==>
                pending == Body(message.bodyLength) && messageItemQueue == old(messageItemQueue)
      ensures !HeaderAccepted(old(ReaderView())) ==>
                pending.Stopped? && messageItemQueue == old(messageItemQueue) + again
    {
      hide ItemsView, OpsView, ItemObjects, OpObjects, MessageObjects, Framing.DecodeHeader, WriteAll;
      var ok := DecodeHeader(again);
      if ok {
        pending, got := Body(message.bodyLength), 0;
      } else {
        RejectHeader(again);
      }
    }

    /** Either read handler with an I/O error. */
    method HandleReadError(again: seq<MessageItem>)
      requires Valid() && GoodItems(again) && (pending.Header? || pending.Body?)
      modifies `messageItemQueue, `ops, `writeLog, `log, `pending
      ensures Valid() && Owned()
      ensures View() == C.OnReadError(old(View()), old(ItemsView(again)))
      ensures messageItemQueue == old(messageItemQueue) + again
    {
      hide ItemsView, OpsView, ItemObjects, OpObjects, MessageObjects;
      pending := Stopped(Held(ReaderView()), false);
      ReportReadError(again);
    }

    /** `readCallback_` without error. It may write the very message that it is given. */
    method Deliver(frame: string, again: seq<MessageItem>)
      requires Valid() && GoodItems(again) && message != null && message.Good() && message.Frame() == frame
      modifies `log, `handed, `messageItemQueue, `ops, `writeLog
      ensures Valid() && handed == old(handed) + [message]
      ensures View() == old(View()).(delivered := old(View()).delivered + [frame],
                                     writer := WriteAll(old(WriterView()), old(ItemsView(again))))
      ensures messageItemQueue == old(messageItemQueue) + again
    {
      hide ItemsView, OpsView, ItemObjects, OpObjects, MessageObjects, WriteAll;
      ghost var writer, items := WriterView(), ItemsView(again);
      log := log.(delivered := log.delivered + [frame]);
      handed := handed + [message];
      assert Holds(handed, log.delivered);
      assert ItemsView(again) == items && WriterView() == writer;
      RunCallback(again);
      assert WriterView() == WriteAll(writer, items);
    }

    /** The end of `handleReadMessageBody`: on to the next message. */
    method FinishBody(frame: string, heartbeat: bool)
      requires Valid()
      modifies `log, `message, `pending, `got
      ensures Valid() && Owned() && fresh(message) && fresh(message.data)
      ensures var r := old(ReaderView());
              View() == old(View()).(reader := Begin(r.(seen := r.seen + [Seen(frame, heartbeat)]), Memory()))
    {
      hide ItemsView, OpsView, ItemObjects, OpObjects, MessageObjects;
      log := log.(seen := log.seen + [Seen(frame, heartbeat)]);
      ReadNextHeader();
    }

    /** A heartbeat goes back as the message object that was read. */
    method Echo()
      requires Valid() && pending.Body?
      modifies `messageItemQueue, `ops, `writeLog
      ensures Valid() && message.Good()
      ensures View() == old(View()).(writer :=
                WriteChain.Write(old(WriterView()), Item(message.Frame(), HeartbeatCallback)))
      ensures messageItemQueue == old(messageItemQueue) + [MessageItem(message, HeartbeatCallback)]
    {
      hide ItemsView, OpsView, ItemObjects, OpObjects, MessageObjects, WriteChain.Write;
      Write(HeartbeatCallback, message);
    }

    method HandleReadMessageBody(again: seq<MessageItem>)
      requires Valid() && Owned() && GoodItems(again)
      requires Bounded(ReaderView()) && pending.Body? && Complete(ReaderView())
      modifies `log, `handed, `messageItemQueue, `ops, `writeLog, `message, `pending, `got
      ensures Valid() && Owned() && fresh(message) && fresh(message.data)
      ensures View() == C.OnBody(old(View()), Memory(), old(ItemsView(again)))
      ensures handed == old(handed) + if Framing.IsHeartbeat(old(Memory())) then [] else [old(message)]
      ensures messageItemQueue == old(messageItemQueue)
           + if HoldsPing(old(ReaderView())) then [MessageItem(old(message), HeartbeatCallback)] else again
      ensures old(message).Good() && old(message).Frame() == Partial(old(ReaderView()))
    {
      hide ItemsView, OpsView, ItemObjects, OpObjects, MessageObjects, Framing.IsHeartbeat, WriteAll;
      var heartbeat := message.IsHeartbeat();
      assert heartbeat == HoldsPing(ReaderView());
      assert View() == old(View()) && ItemsView(again) == old(ItemsView(again));
      var frame := Partial(ReaderView());
      assert message.Frame() == frame;
      if heartbeat {
        Echo();
      } else {
        Deliver(frame, again);
      }
      FinishBody(frame, heartbeat);
    }
  }
}
