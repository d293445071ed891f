/** Which queued items and which received frames are heartbeats and which are application data. */
module Traffic {
  import opened CText
  import opened Framing
  import opened ReadChain
  import opened WriteChain

  const PING_FRAME: string := DataFrame(HEARTBEAT)

  /** What an application may hand to `write`: a message that holds a well-formed frame. */
  predicate AppItem(item: Item) {
    item.callback.AppCallback? && Framed(item.frame)
  }

  predicate AppItemList(items: seq<Item>) {
    forall item <- items :: AppItem(item)
  }

  /** The frames of the items that the endpoint itself wrote. */
  function HeartbeatFrames(items: seq<Item>): seq<string> {
    if items == [] then []
    else
      var last := items[|items| - 1];
      HeartbeatFrames(items[..|items| - 1]) + if last.callback.HeartbeatCallback? then [last.frame] else []
  }

  /** The frames of the items that the application wrote. */
  function AppFrames(items: seq<Item>): seq<string> {
    if items == [] then []
    else
      var last := items[|items| - 1];
      AppFrames(items[..|items| - 1]) + if last.callback.AppCallback? then [last.frame] else []
  }

  /** The received frames that were taken for heartbeats. */
  function HeartbeatsSeen(seen: seq<Seen>): seq<string> {
    if seen == [] then []
    else
      var last := seen[|seen| - 1];
      HeartbeatsSeen(seen[..|seen| - 1]) + if last.heartbeat then [last.frame] else []
  }

  /** The received frames that were not. */
  function DataSeen(seen: seq<Seen>): seq<string> {
    if seen == [] then []
    else
      var last := seen[|seen| - 1];
      DataSeen(seen[..|seen| - 1]) + if last.heartbeat then [] else [last.frame]
  }

  /** The frames whose body does not start with "PING". */
  function Payload(fs: seq<string>): seq<string> {
    if fs == [] then []
    else
      var last := fs[|fs| - 1];
      Payload(fs[..|fs| - 1]) + if IsPing(last) then [] else [last]
  }

  lemma WriteSplits(items: seq<Item>, item: Item)
    ensures HeartbeatFrames(items + [item])
         == HeartbeatFrames(items) + if item.callback.HeartbeatCallback? then [item.frame] else []
    ensures AppFrames(items + [item]) == AppFrames(items) + if item.callback.AppCallback? then [item.frame] else []
  {
    assert (items + [item])[..|items|] == items;
  }

  lemma SeenSplits(seen: seq<Seen>, s: Seen)
    ensures HeartbeatsSeen(seen + [s]) == HeartbeatsSeen(seen) + if s.heartbeat then [s.frame] else []
    ensures DataSeen(seen + [s]) == DataSeen(seen) + if s.heartbeat then [] else [s.frame]
  {
    assert (seen + [s])[..|seen|] == seen;
  }

  /** Application writes add no heartbeat. */
  lemma {:induction false} AppWritesAddNone(items: seq<Item>, more: seq<Item>)
    requires AppItemList(more)
    ensures HeartbeatFrames(items + more) == HeartbeatFrames(items)
  {
    hide Framed, HeartbeatFrames;
    if more == [] {
      assert items + more == items;
    } else {
      var init, last := more[..|more| - 1], more[|more| - 1];
      assert AppItem(last);
      AppWritesAddNone(items, init);
      assert items + more == (items + init) + [last];
      WriteSplits(items + init, last);
    }
  }

  /** Application writes add their frames. */
  lemma {:induction false} AppWritesAdd(items: seq<Item>, more: seq<Item>)
    requires AppItemList(more)
    ensures AppFrames(items + more) == AppFrames(items) + WriteChain.Frames(more)
  {
    hide Framed, AppFrames;
    if more == [] {
      assert items + more == items;
    } else {
      var init, last := more[..|more| - 1], more[|more| - 1];
      assert AppItem(last);
      AppWritesAdd(items, init);
      assert items + more == (items + init) + [last];
      WriteSplits(items + init, last);
      assert WriteChain.Frames(more) == WriteChain.Frames(init) + [last.frame];
    }
  }

  lemma PayloadSnoc(fs: seq<string>, f: string)
    ensures Payload(fs + [f]) == Payload(fs) + if IsPing(f) then [] else [f]
    ensures Pings(fs + [f]) == Pings(fs) + if IsPing(f) then 1 else 0
  {
    assert (fs + [f])[..|fs|] == fs;
    PingsAppend(fs, [f]);
    assert [f][1..] == [];
  }

  lemma {:induction false} PayloadAppend(a: seq<string>, b: seq<string>)
    ensures Payload(a + b) == Payload(a) + Payload(b)
  {
    hide IsPing, Payload, Pings;
    NoPayload();
    if b == [] {
      assert a + b == a;
    } else {
      var init, last := b[..|b| - 1], b[|b| - 1];
      PayloadAppend(a, init);
      PayloadSnoc(a + init, last);
      PayloadSnoc(init, last);
      assert a + b == a + init + [last] && b == init + [last];
    }
  }

  /** Heartbeats that were written with the heartbeat handler never show in the payload. */
  lemma {:induction false} PayloadIsApplications(items: seq<Item>)
    requires forall item <- items :: item.callback.HeartbeatCallback? ==> IsPing(item.frame)
    ensures Payload(WriteChain.Frames(items)) == Payload(AppFrames(items))
    ensures Pings(WriteChain.Frames(items)) == |HeartbeatFrames(items)| + Pings(AppFrames(items))
  {
    hide IsPing, Payload, Pings;
    if items == [] {
      NoPayload();
    } else {
      var init, last := items[..|items| - 1], items[|items| - 1];
      assert last in items;
      PayloadIsApplications(init);
      assert WriteChain.Frames(items) == WriteChain.Frames(init) + [last.frame];
      PayloadSnoc(WriteChain.Frames(init), last.frame);
      PayloadSnoc(AppFrames(init), last.frame);
      assert AppFrames(init) + [] == AppFrames(init);
    }
  }

  lemma NoPayload()
    ensures Payload([]) == [] && Pings([]) == 0
  {
  }

  /** When no frame is ambiguous, what was read splits by content alone. */
  lemma {:induction false} SeenByContent(seen: seq<Seen>, supply: Supply)
    requires forall i :: 0 <= i < |seen| ==> SeenRight(seen[i], supply(i)) && !Ambiguous(seen[i].frame)
    ensures DataSeen(seen) == Payload(ReadChain.Frames(seen))
    ensures |HeartbeatsSeen(seen)| == Pings(ReadChain.Frames(seen))
    ensures forall f <- HeartbeatsSeen(seen) :: IsPing(f)
  {
    hide SeenRight, Ambiguous, IsPing, ReadChain.Frames;
    if seen != [] {
      var n := |seen| - 1;
      var init, last := seen[..n], seen[n];
      SeenByContent(init, supply);
      assert last.heartbeat == IsPing(last.frame) by {
        LastByContent(last, supply(n));
      }
      var fs := ReadChain.Frames(seen);
      assert fs == ReadChain.Frames(init) + [last.frame];
      PayloadSnoc(ReadChain.Frames(init), last.frame);
    }
  }

  lemma LastByContent(s: Seen, left: Buffer)
    requires SeenRight(s, left) && !Ambiguous(s.frame)
    ensures s.heartbeat == IsPing(s.frame)
  {
    ClassifyFrame(s.frame, left);
  }

  lemma {:induction false} PayloadOfData(fs: seq<string>)
    requires forall f <- fs :: !IsPing(f)
    ensures Payload(fs) == fs
  {
    hide IsPing;
    if fs != [] {
      var init, last := fs[..|fs| - 1], fs[|fs| - 1];
      assert last in fs && fs == init + [last];
      PayloadOfData(init);
      PayloadSnoc(init, last);
    }
  }

  lemma FramesStayFramed(items: seq<Item>, more: seq<Item>)
    requires AllFramed(WriteChain.Frames(items)) && forall item <- more :: Framed(item.frame)
    ensures AllFramed(WriteChain.Frames(items + more))
  {
    hide Framed;
    var fs := WriteChain.Frames(items + more);
    forall i | 0 <= i < |fs| ensures Framed(fs[i]) {
      if i < |items| {
        assert fs[i] == WriteChain.Frames(items)[i];
      } else {
        assert fs[i] == more[i - |items|].frame;
      }
    }
  }

  // ----- one direction of a connection -----

  /** A writer, a reader and the bytes between them. */
  ghost predicate Linked(w: Writer, r: Reader, channel: string, supply: Supply) {
    && WriteChain.Inv(w) && ReadChain.Inv(r, supply)
    && AllFramed(WriteChain.Frames(w.written))
    && w.out == Consumed(r) + channel
  }

  /** The bytes between the last frame that was read and the last item that was queued. */
  function InTransit(w: Writer, r: Reader, channel: string): string
    requires WriteChain.Inv(w) && Bounded(r)
  {
    Partial(r) + channel + Unsent(w)
  }

  /** What was read is a prefix of what was written, and the bytes in transit are exactly the
      frames still missing. */
  lemma LinkPreservesFrames(w: Writer, r: Reader, channel: string, supply: Supply)
    requires Linked(w, r, channel, supply)
    ensures ReadChain.Frames(r.seen) <= WriteChain.Frames(w.written)
    ensures Parse(InTransit(w, r, channel))
         == Parsed(WriteChain.Frames(w.written)[|r.seen|..], false, [])
  {
    hide Parse, DecodeHeader, WriteChain.Inv;
    var read, written := ReadChain.Frames(r.seen), WriteChain.Frames(w.written);
    OutAndUnsent(w);
    var transit := InTransit(w, r, channel);
    assert Concat(written) == Concat(read) + transit;
    assert AllFramed(read) by {
      forall i | 0 <= i < |read| ensures Framed(read[i]) {
        assert SeenRight(r.seen[i], supply(i));
      }
    }
    PrefixDecodes(read, written);
    var missing := written[|read|..];
    assert written == read + missing;
    ConcatAppend(read, missing);
    assert transit == Concat(written)[|Concat(read)|..] == Concat(missing);
    ParseFrames(missing, []);
    assert transit + [] == transit && missing + [] == missing;
    EmptyParse();
    assert missing + Parse([]).frames == missing;
  }

  lemma EmptyParse()
    ensures Parse([]) == Parsed([], false, [])
  {
  }

  lemma RejectedShows(r: Reader, more: string, supply: Supply)
    requires ReadChain.Inv(r, supply)
    ensures r.pending.Stopped? && r.pending.rejected ==> Parse(Partial(r) + more).rejected
  {
    hide HeaderValue;
    if r.pending.Stopped? && r.pending.rejected {
      assert (Partial(r) + more)[..HEADER_SIZE] == r.buffer[..HEADER_SIZE];
    }
  }

  /** A reader at the end of a connection never meets a header that it rejects. */
  lemma LinkNeverRejects(w: Writer, r: Reader, channel: string, supply: Supply)
    requires Linked(w, r, channel, supply)
    ensures !(r.pending.Stopped? && r.pending.rejected)
  {
    hide Parse, Unsent, Partial, SeenRight, DecodeHeader, WriteChain.Inv;
    LinkPreservesFrames(w, r, channel, supply);
    RejectedShows(r, channel + Unsent(w), supply);
    assert InTransit(w, r, channel) == Partial(r) + (channel + Unsent(w));
  }
}
