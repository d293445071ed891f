/** `Transport::Message`: one fixed array that holds the header and the body. */
module Messages {
  import opened CText
  import opened Framing
  import opened WriteChain

  class Message {
    const data: array<char>
    var bodyLength: nat

    /** The array is not initialised, and neither is the length. */
    constructor ()
      ensures fresh(data) && data.Length == BUFFER_SIZE
    {
      data := new char[BUFFER_SIZE];
      bodyLength := *;
    }

    ghost predicate Valid()
      reads this
    {
      data.Length == BUFFER_SIZE
    }

    /** The message holds a frame that fits its array. */
    ghost predicate Good()
      reads this
    {
      Valid() && bodyLength <= MAX_BODY_SIZE
    }

    /** The bytes that `getData` and `getLength` describe. */
    ghost function Frame(): string
      requires Good()
      reads this, data
    {
      data[..HEADER_SIZE + bodyLength]
    }

    method SetData(text: string)
      requires Valid() && |text| <= MAX_BODY_SIZE
      modifies this, data
      ensures Good() && Frame() == DataFrame(text) && Framed(Frame())
      ensures data[HEADER_SIZE + |text|..] == old(data[HEADER_SIZE + |text|..])
    {
      hide Framing.DecodeHeader, Framing.EncodeHeader, Strncpy;
      bodyLength := |text|;
      var image := Strncpy(text);
      forall i | 0 <= i < |text| {
        data[HEADER_SIZE + i] := image[i];
      }
      label copied:
      ghost var tail := data[HEADER_SIZE + |text|..];
      assert tail == old(data[HEADER_SIZE + |text|..]) && tail == data[HEADER_SIZE..][|text|..];
      assert data[HEADER_SIZE..][..|text|] == image;
      EncodeHeader();
      assert data[HEADER_SIZE..] == old@copied(data[HEADER_SIZE..]);
      assert Frame() == data[..HEADER_SIZE] + data[HEADER_SIZE..][..|text|];
      assert data[HEADER_SIZE + |text|..] == data[HEADER_SIZE..][|text|..] == tail;
      DataFrameFramed(text);
    }

    method EncodeHeader()
      requires Good()
      modifies data
      ensures data[..HEADER_SIZE] == Framing.EncodeHeader(bodyLength)
      ensures data[HEADER_SIZE..] == old(data[HEADER_SIZE..])
    {
      EncodeHeaderFits(bodyLength);
      var header := Framing.EncodeHeader(bodyLength);
      forall i | 0 <= i < HEADER_SIZE {
        data[i] := header[i];
      }
    }

    method DecodeHeader() returns (ok: bool)
      requires Valid()
      modifies this`bodyLength
      ensures Good()
      ensures (bodyLength, ok) == Framing.DecodeHeader(data[..HEADER_SIZE])
    {
      var value := HeaderValue(data[..HEADER_SIZE]);
      bodyLength := if value < 0 then value + 0x1_0000_0000 else value;
      if bodyLength > MAX_BODY_SIZE {
        bodyLength := 0;
        return false;
      }
      return true;
    }

    method CreateHeartbeatMessage()
      requires Valid()
      modifies this, data
      ensures Good() && Frame() == DataFrame(HEARTBEAT)
    {
      SetData(HEARTBEAT);
    }

    method IsHeartbeat() returns (r: bool)
      requires Valid()
      ensures r == Framing.IsHeartbeat(data[..]) == (data[..][5..9] == "PING")
    {
      assert data[..][HEADER_SIZE..HEADER_SIZE + |HEARTBEAT|] == data[HEADER_SIZE..HEADER_SIZE + |HEARTBEAT|];
      r := data[HEADER_SIZE..HEADER_SIZE + |HEARTBEAT|] == HEARTBEAT;
    }
  }

  /** An element of `messageItemQueue_`. */
  datatype MessageItem = MessageItem(message: Message, callback: Callback)

  /** An outstanding `async_write`: it points into the message's array. */
  datatype WriteOp = WriteOp(message: Message, length: nat, callback: Callback, sent: nat)

  ghost function ItemObjects(items: seq<MessageItem>): (r: set<object>)
    ensures forall o <- r :: o is Message || o is array<char>
    ensures forall i :: 0 <= i < |items| ==> items[i].message in r && items[i].message.data in r
  {
    (set i | 0 <= i < |items| :: items[i].message) + (set i | 0 <= i < |items| :: items[i].message.data)
  }

  ghost function OpObjects(ops: seq<WriteOp>): (r: set<object>)
    ensures forall o <- r :: o is Message || o is array<char>
    ensures forall i :: 0 <= i < |ops| ==> ops[i].message in r && ops[i].message.data in r
  {
    (set i | 0 <= i < |ops| :: ops[i].message) + (set i | 0 <= i < |ops| :: ops[i].message.data)
  }

  ghost predicate GoodItems(items: seq<MessageItem>)
    reads ItemObjects(items)
  {
    forall i :: 0 <= i < |items| ==> items[i].message.Good()
  }

  ghost predicate GoodOps(ops: seq<WriteOp>)
    reads OpObjects(ops)
  {
    forall i :: 0 <= i < |ops| ==> ops[i].message.Valid() && ops[i].length <= BUFFER_SIZE
  }

  ghost function ItemView(item: MessageItem): Item
    requires item.message.Good()
    reads item.message, item.message.data
  {
    Item(item.message.Frame(), item.callback)
  }

  ghost function OpView(op: WriteOp): Op
    requires op.message.Valid() && op.length <= BUFFER_SIZE
    reads op.message, op.message.data
  {
    Op(op.message.data[..op.length], op.callback, op.sent)
  }

  ghost function ItemsView(items: seq<MessageItem>): (r: seq<Item>)
    requires GoodItems(items)
    reads ItemObjects(items)
    ensures |r| == |items| && forall i :: 0 <= i < |r| ==> r[i] == ItemView(items[i])
  {
    seq(|items|, i requires 0 <= i < |items| && items[i].message.Good()
                   reads ItemObjects(items) => ItemView(items[i]))
  }

  ghost function OpsView(ops: seq<WriteOp>): (r: seq<Op>)
    requires GoodOps(ops)
    reads OpObjects(ops)
    ensures |r| == |ops| && forall i :: 0 <= i < |r| ==> r[i] == OpView(ops[i])
  {
    seq(|ops|, i requires 0 <= i < |ops| && ops[i].message.Valid() && ops[i].length <= BUFFER_SIZE
                 reads OpObjects(ops) => OpView(ops[i]))
  }

  ghost function MessageObjects(messages: seq<Message>): (r: set<object>)
    ensures forall o <- r :: o is Message || o is array<char>
    ensures forall i :: 0 <= i < |messages| ==> messages[i] in r && messages[i].data in r
  {
    (set i | 0 <= i < |messages| :: messages[i]) + (set i | 0 <= i < |messages| :: messages[i].data)
  }

  /** The messages hold these frames. */
  ghost predicate Holds(messages: seq<Message>, frames: seq<string>)
    reads MessageObjects(messages)
  {
    && |messages| == |frames|
    && forall i :: 0 <= i < |messages| ==> messages[i].Good() && messages[i].Frame() == frames[i]
  }

  lemma {:induction false} ItemsSnoc(items: seq<MessageItem>, item: MessageItem)
    requires GoodItems(items) && item.message.Good()
    ensures GoodItems(items + [item])
    ensures ItemsView(items + [item]) == ItemsView(items) + [ItemView(item)]
    ensures ItemObjects(items + [item]) == ItemObjects(items) + {item.message, item.message.data}
  {
    var all := items + [item];
    assert all[..|items|] == items && all[|items|] == item;
    assert GoodItems(all);
    assert ItemsView(all) == ItemsView(items) + [ItemView(item)] by {
      hide ItemsView, ItemObjects;
      forall i | 0 <= i < |all| ensures ItemsView(all)[i] == (ItemsView(items) + [ItemView(item)])[i] {
      }
    }
    assert all[|items|].message in ItemObjects(all) && all[|items|].message.data in ItemObjects(all);
    forall o | o in ItemObjects(items) ensures o in ItemObjects(all) {
      var i :| 0 <= i < |items| && (o == items[i].message || o == items[i].message.data);
      assert all[i] == items[i];
    }
  }

  /** Writing one more item of a list. */
  lemma ItemsNext(w: Writer, items: seq<MessageItem>, i: nat)
    requires GoodItems(items) && i < |items|
    ensures GoodItems(items[..i]) && GoodItems(items[..i + 1])
    ensures WriteAll(w, ItemsView(items[..i + 1])) == Write(WriteAll(w, ItemsView(items[..i])), ItemView(items[i]))
    ensures items[i].message in ItemObjects(items) && items[i].message.data in ItemObjects(items)
  {
    hide ItemsView, ItemObjects, Write, WriteAll;
    assert items[..i + 1] == items[..i] + [items[i]];
    ItemsSnoc(items[..i], items[i]);
    WriteAllSnoc(w, ItemsView(items[..i]), ItemView(items[i]));
  }

  lemma {:induction false} ItemsTail(items: seq<MessageItem>)
    requires GoodItems(items) && items != []
    ensures GoodItems(items[1..]) && ItemsView(items[1..]) == ItemsView(items)[1..]
    ensures ItemObjects(items[1..]) <= ItemObjects(items)
  {
  }

  lemma {:induction false} OpsSnoc(ops: seq<WriteOp>, op: WriteOp)
    requires GoodOps(ops) && op.message.Valid() && op.length <= BUFFER_SIZE
    ensures GoodOps(ops + [op])
    ensures OpsView(ops + [op]) == OpsView(ops) + [OpView(op)]
    ensures OpObjects(ops + [op]) == OpObjects(ops) + {op.message, op.message.data}
  {
    var all := ops + [op];
    assert all[..|ops|] == ops && all[|ops|] == op;
    assert GoodOps(all);
    assert OpsView(all) == OpsView(ops) + [OpView(op)] by {
      hide OpsView, OpObjects;
      forall i | 0 <= i < |all| ensures OpsView(all)[i] == (OpsView(ops) + [OpView(op)])[i] {
      }
    }
    assert all[|ops|].message in OpObjects(all) && all[|ops|].message.data in OpObjects(all);
    forall o | o in OpObjects(ops) ensures o in OpObjects(all) {
      var i :| 0 <= i < |ops| && (o == ops[i].message || o == ops[i].message.data);
      assert all[i] == ops[i];
    }
  }

  lemma {:induction false} OpsWithout(ops: seq<WriteOp>, k: nat)
    requires GoodOps(ops) && k < |ops|
    ensures GoodOps(Without(ops, k)) && OpsView(Without(ops, k)) == Without(OpsView(ops), k)
    ensures OpObjects(Without(ops, k)) <= OpObjects(ops)
  {
    var rest := Without(ops, k);
    forall i | 0 <= i < |rest|
      ensures rest[i] in ops && rest[i].message.Valid() && rest[i].length <= BUFFER_SIZE
    {
      assert rest[i] == ops[if i < k then i else i + 1];
    }
    assert GoodOps(rest);
    assert OpsView(rest) == Without(OpsView(ops), k) by {
      hide OpsView, OpObjects;
      forall i | 0 <= i < |rest| ensures OpsView(rest)[i] == Without(OpsView(ops), k)[i] {
      }
    }
  }

  lemma {:induction false} OpsUpdate(ops: seq<WriteOp>, k: nat, op: WriteOp)
    requires GoodOps(ops) && k < |ops| && op.message == ops[k].message && op.length == ops[k].length
    ensures GoodOps(ops[k := op]) && OpsView(ops[k := op]) == OpsView(ops)[k := OpView(op)]
    ensures OpObjects(ops[k := op]) <= OpObjects(ops)
  {
    var all := ops[k := op];
    assert forall i :: 0 <= i < |all| ==> all[i].message == ops[i].message;
    assert GoodOps(all);
    assert OpsView(all) == OpsView(ops)[k := OpView(op)] by {
      hide OpsView, OpObjects;
      forall i | 0 <= i < |all| ensures OpsView(all)[i] == OpsView(ops)[k := OpView(op)][i] {
      }
    }
  }
}
