/** The write queue that `Session` and `Client` share: `write` queues an item and starts an
    `async_write` when the queue was empty; its completion runs the callback, pops the item and
    starts the next one. */
module WriteChain {
  import opened CText

  /** The function bound as write callback: the application's, or the endpoint's own heartbeat
      handler, which only logs. */
  datatype Callback = AppCallback(id: int) | HeartbeatCallback

  datatype Item = Item(frame: string, callback: Callback)

  /** An outstanding `async_write`: its bytes, its callback, how much the transport has taken. */
  datatype Op = Op(bytes: string, callback: Callback, sent: nat)

  /** `queue` is `messageItemQueue_`, `ops` the outstanding writes. The rest is history: writes
      that failed, bytes on the connection, popped items, callbacks run with success, and all
      the items given to `write`. */
  datatype Writer = Writer(
    queue: seq<Item>,
    ops: seq<Op>,
    broken: seq<Op>,
    out: string,
    popped: seq<Item>,
    acked: seq<Callback>,
    written: seq<Item>)

  const EMPTY := Writer([], [], [], [], [], [], [])

  function Without<T>(s: seq<T>, k: nat): seq<T>
    requires k < |s|
  {
    s[..k] + s[k + 1..]
  }

  function StartFront(w: Writer): Writer
    requires w.queue != []
  {
    w.(ops := w.ops + [Op(w.queue[0].frame, w.queue[0].callback, 0)])
  }

  function Write(w: Writer, item: Item): Writer {
    var queued := w.(queue := w.queue + [item], written := w.written + [item]);
    if w.queue == [] then StartFront(queued) else queued
  }

  /** The writes that a callback makes while it runs. */
  function WriteAll(w: Writer, items: seq<Item>): Writer
    decreases |items|
  {
    if items == [] then w else WriteAll(Write(w, items[0]), items[1..])
  }

  /** The application's callback may call `write` again; the heartbeat handler does not. */
  function Reentrant(callback: Callback, again: seq<Item>): seq<Item> {
    if callback.AppCallback? then again else []
  }

  /** The transport takes the next `n` bytes of an outstanding write. */
  function Send(w: Writer, k: nat, n: nat): Writer
    requires k < |w.ops| && w.ops[k].sent + n <= |w.ops[k].bytes|
  {
    var op := w.ops[k];
    w.(ops := w.ops[k := op.(sent := op.sent + n)], out := w.out + op.bytes[op.sent..op.sent + n])
  }

  function PopFront(w: Writer): Writer
    requires w.queue != []
  {
    w.(queue := w.queue[1..], popped := w.popped + [w.queue[0]])
  }

  function StartNext(w: Writer): Writer {
    if w.queue != [] then StartFront(w) else w
  }

  /** `handleWrite` without error: callback, pop, next write. */
  function WriteDone(w: Writer, k: nat, again: seq<Item>): Writer
    requires k < |w.ops| && w.queue != []
  {
    var callback := w.ops[k].callback;
    var called := w.(ops := Without(w.ops, k), acked := w.acked + [callback]);
    WriteAllGrows(called, Reentrant(callback, again));
    StartNext(PopFront(WriteAll(called, Reentrant(callback, again))))
  }

  /** The part of `handleWrite` with an error that touches the queue: nothing is popped. */
  function WriteFailed(w: Writer, k: nat): Writer
    requires k < |w.ops|
  {
    w.(ops := Without(w.ops, k), broken := w.broken + [w.ops[k]])
  }

  lemma {:induction false} WriteAllGrows(w: Writer, items: seq<Item>)
    ensures |WriteAll(w, items).queue| == |w.queue| + |items|
    decreases |items|
  {
    if items != [] {
      WriteAllGrows(Write(w, items[0]), items[1..]);
    }
  }

  lemma {:induction false} WriteAllSnoc(w: Writer, items: seq<Item>, last: Item)
    ensures WriteAll(w, items + [last]) == Write(WriteAll(w, items), last)
    decreases |items|
  {
    if items == [] {
      assert items + [last] == [last];
      assert [last][1..] == [];
    } else {
      assert (items + [last])[1..] == items[1..] + [last];
      WriteAllSnoc(Write(w, items[0]), items[1..], last);
    }
  }

  // ----- the invariant -----

  function Frames(items: seq<Item>): (r: seq<string>)
    ensures |r| == |items| && forall i :: 0 <= i < |r| ==> r[i] == items[i].frame
  {
    seq(|items|, i requires 0 <= i < |items| => items[i].frame)
  }

  function Callbacks(items: seq<Item>): (r: seq<Callback>)
    ensures |r| == |items| && forall i :: 0 <= i < |r| ==> r[i] == items[i].callback
  {
    seq(|items|, i requires 0 <= i < |items| => items[i].callback)
  }

  /** The write of the front item: outstanding, or failed. */
  function Current(w: Writer): seq<Op> {
    w.ops + w.broken
  }

  /** One write is outstanding exactly when the queue is non-empty, until one fails, and it is
      for the front item; the connection carries the popped frames and a prefix of the front
      frame; popped items and queue are all the `write` calls in order; each popped item's
      callback ran once, in that order. */
  predicate Inv(w: Writer) {
    && |Current(w)| == (if w.queue == [] then 0 else 1)
    && (w.queue != [] ==> FrontIs(Current(w)[0], w.queue[0]))
    && w.written == w.popped + w.queue
    && w.acked == Callbacks(w.popped)
    && w.out == Concat(Frames(w.popped)) + SentOfFront(w)
  }

  predicate FrontIs(op: Op, item: Item) {
    op.bytes == item.frame && op.callback == item.callback && op.sent <= |op.bytes|
  }

  function SentOfFront(w: Writer): string {
    var c := Current(w);
    if c == [] || c[0].sent > |c[0].bytes| then [] else c[0].bytes[..c[0].sent]
  }

  /** The bytes of queued items that are not yet on the connection. */
  function Unsent(w: Writer): string
    requires Inv(w)
  {
    if w.queue == [] then []
    else Current(w)[0].bytes[Current(w)[0].sent..] + Concat(Frames(w.queue[1..]))
  }

  lemma FramesAppend(a: seq<Item>, b: seq<Item>)
    ensures Frames(a + b) == Frames(a) + Frames(b)
  {
  }

  /** What is on the connection and what is still to be sent make up all the writes. */
  lemma OutAndUnsent(w: Writer)
    requires Inv(w)
    ensures w.out + Unsent(w) == Concat(Frames(w.written))
  {
    FramesAppend(w.popped, w.queue);
    ConcatAppend(Frames(w.popped), Frames(w.queue));
    if w.queue != [] {
      var front := w.queue[0].frame;
      var sent := Current(w)[0].sent;
      assert Frames(w.queue)[1..] == Frames(w.queue[1..]);
      assert Frames(w.queue)[0] == front;
      assert front[..sent] + (front[sent..] + Concat(Frames(w.queue[1..]))) == Concat(Frames(w.queue));
    }
  }

  // ----- every operation keeps it -----

  lemma WriteKeeps(w: Writer, item: Item)
    requires Inv(w)
    ensures Inv(Write(w, item))
    ensures Write(w, item).written == w.written + [item] && Write(w, item).out == w.out
    ensures Write(w, item).broken == w.broken && Write(w, item).popped == w.popped
  {
    assert w.popped + (w.queue + [item]) == w.popped + w.queue + [item];
    if w.queue == [] {
      assert w.queue + [item] == [item];
    }
  }

  lemma {:induction false} WriteAllKeeps(w: Writer, items: seq<Item>)
    requires Inv(w)
    ensures Inv(WriteAll(w, items))
    ensures WriteAll(w, items).written == w.written + items && WriteAll(w, items).out == w.out
    ensures WriteAll(w, items).broken == w.broken && WriteAll(w, items).popped == w.popped
    decreases |items|
  {
    hide Inv, Write;
    if items == [] {
      assert w.written + items == w.written;
    } else {
      WriteKeeps(w, items[0]);
      WriteAllKeeps(Write(w, items[0]), items[1..]);
      assert w.written + items == w.written + [items[0]] + items[1..];
    }
  }

  /** While the queue holds an item, any number of writes only append to it. */
  lemma {:induction false} WriteAllOnBusy(w: Writer, items: seq<Item>)
    requires w.queue != []
    ensures WriteAll(w, items) == w.(queue := w.queue + items, written := w.written + items)
    decreases |items|
  {
    if items == [] {
      assert w.queue + items == w.queue && w.written + items == w.written;
    } else {
      WriteAllOnBusy(Write(w, items[0]), items[1..]);
      assert w.queue + [items[0]] + items[1..] == w.queue + items;
      assert w.written + [items[0]] + items[1..] == w.written + items;
    }
  }

  lemma SendKeeps(w: Writer, k: nat, n: nat)
    requires Inv(w) && k < |w.ops| && w.ops[k].sent + n <= |w.ops[k].bytes|
    ensures Inv(Send(w, k, n))
    ensures Send(w, k, n).written == w.written && Send(w, k, n).broken == w.broken && w.out <= Send(w, k, n).out
  {
    hide Concat, Frames, Callbacks;
    var op := w.ops[0];
    assert k == 0 && w.ops == [op] && w.broken == [];
    var next := op.(sent := op.sent + n);
    assert Send(w, k, n).ops == [next] && Current(Send(w, k, n)) == [next] && Current(w) == [op];
    assert op.bytes[..op.sent] + op.bytes[op.sent..op.sent + n] == op.bytes[..op.sent + n];
    Assoc(Concat(Frames(w.popped)), op.bytes[..op.sent], op.bytes[op.sent..op.sent + n]);
  }

  /** A completed write pops exactly the front item, acknowledges its callback, and starts the
      next item, however often the callback wrote again. */
  lemma WriteDoneIs(w: Writer, k: nat, again: seq<Item>)
    requires Inv(w) && k < |w.ops|
    ensures var more := Reentrant(w.queue[0].callback, again);
            var queue := w.queue[1..] + more;
            WriteDone(w, k, again) == Writer(
              queue,
              if queue == [] then [] else [Op(queue[0].frame, queue[0].callback, 0)],
              [], w.out, w.popped + [w.queue[0]], w.acked + [w.queue[0].callback], w.written + more)
  {
    var op := w.ops[0];
    assert k == 0 && w.ops == [op] && w.broken == [];
    var more := Reentrant(op.callback, again);
    assert Without(w.ops, 0) == [];
    WriteAllOnBusy(w.(ops := [], acked := w.acked + [op.callback]), more);
    assert (w.queue + more)[1..] == w.queue[1..] + more;
  }

  lemma FrontIsOut(w: Writer)
    requires Inv(w) && w.queue != [] && Current(w)[0].sent == |Current(w)[0].bytes|
    ensures w.out == Concat(Frames(w.popped + [w.queue[0]]))
    ensures w.acked + [w.queue[0].callback] == Callbacks(w.popped + [w.queue[0]])
  {
    FramesAppend(w.popped, [w.queue[0]]);
    assert Frames([w.queue[0]]) == [w.queue[0].frame];
    ConcatSnoc(Frames(w.popped), w.queue[0].frame);
    assert SentOfFront(w) == w.queue[0].frame;
  }

  lemma WriteDoneKeeps(w: Writer, k: nat, again: seq<Item>)
    requires Inv(w) && k < |w.ops| && w.ops[k].sent == |w.ops[k].bytes|
    ensures Inv(WriteDone(w, k, again))
    ensures var done := WriteDone(w, k, again);
            && done.written == w.written + Reentrant(w.ops[k].callback, again)
            && done.out == w.out && done.broken == w.broken
            && done.popped == w.popped + [w.queue[0]]
  {
    hide WriteDone, Frames, Callbacks, Concat;
    WriteDoneIs(w, k, again);
    FrontIsOut(w);
    var done := WriteDone(w, k, again);
    assert done.written == done.popped + done.queue by {
      assert w.queue == [w.queue[0]] + w.queue[1..];
    }
    assert SentOfFront(done) == [];
  }

  lemma WriteFailedKeeps(w: Writer, k: nat)
    requires Inv(w) && k < |w.ops|
    ensures Inv(WriteFailed(w, k))
    ensures var failed := WriteFailed(w, k);
            && failed.written == w.written && failed.out == w.out && failed.queue == w.queue
            && failed.ops == [] && failed.broken == [w.ops[k]] && w.broken == []
            && failed.popped == w.popped
  {
    assert k == 0 && w.ops == [w.ops[0]];
    assert Current(WriteFailed(w, k)) == Current(w);
  }
}
