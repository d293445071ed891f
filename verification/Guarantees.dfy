/** The guarantees of the transport, over whole runs of a connected client and session. */
module Guarantees {
  import opened CText
  import opened Framing
  import opened ReadChain
  import opened WriteChain
  import opened Traffic
  import N = Network
  import H = Histories
  import HeartbeatTimer
  import S = SessionModel
  import C = ClientModel

  /** Bodies that are not a proper prefix of "PING". */
  predicate Unambiguous(frames: seq<string>) {
    forall f <- frames :: !Ambiguous(f)
  }

  /** No application wrote an ambiguous body. */
  predicate ClearTraffic(n: N.Net) {
    Unambiguous(AppFrames(n.session.writer.written)) && Unambiguous(AppFrames(n.client.writer.written))
  }

  // ----- what an endpoint read, by content -----

  lemma {:induction false} AppFrameListed(items: seq<Item>, item: Item)
    requires item in items && item.callback.AppCallback?
    ensures item.frame in AppFrames(items)
  {
    var init, last := items[..|items| - 1], items[|items| - 1];
    if item != last {
      assert item in init;
      AppFrameListed(init, item);
    }
  }

  lemma {:induction false} HeartbeatFrameListed(items: seq<Item>, item: Item)
    requires item in items && item.callback.HeartbeatCallback?
    ensures item.frame in HeartbeatFrames(items)
  {
    var init, last := items[..|items| - 1], items[|items| - 1];
    if item != last {
      assert item in init;
      HeartbeatFrameListed(init, item);
    }
  }

  /** Across a link on which the endpoint's own writes are heartbeats, the reader splits what it
      saw by content. */
  lemma LinkByContent(w: Writer, r: Reader, channel: string, supply: Supply)
    requires Linked(w, r, channel, supply)
    requires Unambiguous(AppFrames(w.written))
    requires forall f <- HeartbeatFrames(w.written) :: IsPing(f)
    ensures Payload(AppFrames(w.written)) == DataSeen(r.seen) + Payload(Parse(InTransit(w, r, channel)).frames)
    ensures forall f <- HeartbeatsSeen(r.seen) :: IsPing(f)
    ensures |HeartbeatsSeen(r.seen)| + Pings(Parse(InTransit(w, r, channel)).frames)
         == |HeartbeatFrames(w.written)| + Pings(AppFrames(w.written))
  {
    hide WriteChain.Inv, IsPing, Ambiguous, Parse, Pings, Payload, SeenRight, InTransit, AppFrames, HeartbeatFrames;
    LinkPreservesFrames(w, r, channel, supply);
    var read, written := ReadChain.Frames(r.seen), WriteChain.Frames(w.written);
    forall item | item in w.written
      ensures (item.callback.HeartbeatCallback? ==> IsPing(item.frame)) && !Ambiguous(item.frame)
    {
      if item.callback.HeartbeatCallback? {
        HeartbeatFrameListed(w.written, item);
        PingIsClear(item.frame);
      } else {
        AppFrameListed(w.written, item);
      }
    }
    forall i | 0 <= i < |r.seen| ensures SeenRight(r.seen[i], supply(i)) && !Ambiguous(r.seen[i].frame) {
      assert r.seen[i].frame == read[i] == written[i] == w.written[i].frame;
      assert w.written[i] in w.written;
    }
    SeenByContent(r.seen, supply);
    PayloadIsApplications(w.written);
    var missing := written[|read|..];
    assert written == read + missing;
    PayloadAppend(read, missing);
    PingsAppend(read, missing);
  }

  lemma PingIsClear(f: string)
    requires IsPing(f)
    ensures !Ambiguous(f)
  {
  }

  /** The session's own writes are heartbeats. */
  lemma BeatsArePings(s: S.Session, now: nat, supply: Supply)
    requires S.Inv(s, now, supply)
    ensures forall f <- HeartbeatFrames(s.writer.written) :: IsPing(f)
    ensures |HeartbeatFrames(s.writer.written)| == |s.fired|
  {
    hide ReadChain.Inv, WriteChain.Inv, IsPing, HeartbeatFrames;
    S.PingFrameFramed();
  }

  /** Both directions at once: data is delivered in order, heartbeats never show, and the
      heartbeats of each direction are accounted for. */
  lemma BothDirections(n: N.Net, memory: N.Memory)
    requires N.Inv(n, memory) && ClearTraffic(n)
    ensures Payload(AppFrames(n.session.writer.written)) == n.client.delivered + Payload(Parse(TowardClient(n)).frames)
    ensures Payload(AppFrames(n.client.writer.written)) == n.session.delivered + Payload(Parse(TowardSession(n)).frames)
    ensures |HeartbeatsSeen(n.client.reader.seen)| + Pings(Parse(TowardClient(n)).frames)
         == |n.session.fired| + Pings(AppFrames(n.session.writer.written))
    ensures |HeartbeatsSeen(n.session.reader.seen)| + Pings(Parse(TowardSession(n)).frames)
         == |HeartbeatsSeen(n.client.reader.seen)| + Pings(AppFrames(n.client.writer.written))
  {
    hide ReadChain.Inv, WriteChain.Inv, IsPing, AllFramed, Parse, Payload, Pings, InTransit, Unambiguous;
    N.InvLinks(n, memory);
    BeatsArePings(n.session, n.now, memory.session);
    LinkByContent(n.session.writer, n.client.reader, n.toClient, memory.client);
    LinkByContent(n.client.writer, n.session.reader, n.toSession, memory.session);
  }

  /** Everything between the last frame that an endpoint read and the last item that its peer
      queued: its array, the channel, the unsent bytes. */
  function TowardClient(n: N.Net): string
    requires WriteChain.Inv(n.session.writer) && Bounded(n.client.reader)
  {
    InTransit(n.session.writer, n.client.reader, n.toClient)
  }

  function TowardSession(n: N.Net): string
    requires WriteChain.Inv(n.client.writer) && Bounded(n.session.reader)
  {
    InTransit(n.client.writer, n.session.reader, n.toSession)
  }

  lemma InvParts(n: N.Net, memory: N.Memory)
    requires N.Inv(n, memory)
    ensures WriteChain.Inv(n.session.writer) && Bounded(n.client.reader)
    ensures WriteChain.Inv(n.client.writer) && Bounded(n.session.reader)
  {
    hide WriteChain.Inv, S.BeatsRight, C.EchoesRight, AllFramed;
  }

  // ----- main theorems -----

  /** The frames that the application of the session gave to `write` in the course of the run, by
      its own calls and from inside its callbacks. */
  function SessionFrames(now: nat, steps: seq<N.Step>, memory: N.Memory): seq<string> {
    WriteChain.Frames(H.SessionGiven(now, steps, memory))
  }

  function ClientFrames(now: nat, steps: seq<N.Step>, memory: N.Memory): seq<string> {
    WriteChain.Frames(H.ClientGiven(now, steps, memory))
  }

  /** No application writes an ambiguous body in the run. */
  predicate ClearRun(now: nat, steps: seq<N.Step>, memory: N.Memory) {
    Unambiguous(SessionFrames(now, steps, memory)) && Unambiguous(ClientFrames(now, steps, memory))
  }

  /** End-to-end FIFO delivery, exactly: in every reachable state the frames that a side's
      application gave to `write` in the steps of the run, without those whose body starts with
      "PING", are the frames passed without error to the other side's read callback, followed by
      the data frames in transit. Order and bytes are kept, and nothing is lost, doubled or made
      up. */
  lemma FifoDelivery(now: nat, steps: seq<N.Step>, memory: N.Memory)
    requires N.Run(now, steps, memory).Some? && ClearRun(now, steps, memory)
    ensures var n := N.Run(now, steps, memory).value;
            && WriteChain.Inv(n.session.writer) && Bounded(n.client.reader)
            && WriteChain.Inv(n.client.writer) && Bounded(n.session.reader)
            && Payload(SessionFrames(now, steps, memory))
               == n.client.delivered + Payload(Parse(TowardClient(n)).frames)
            && Payload(ClientFrames(now, steps, memory))
               == n.session.delivered + Payload(Parse(TowardSession(n)).frames)
  {
    hide N.Inv, Unambiguous, WriteChain.Inv, TowardClient, TowardSession, Parse, Payload, AppFrames;
    N.Reachable(now, steps, memory);
    H.WrittenIsGiven(now, steps, memory);
    InvParts(N.Run(now, steps, memory).value, memory);
    BothDirections(N.Run(now, steps, memory).value, memory);
  }

  /** A text that `setData` keeps and that neither starts with "PING" nor is a prefix of it. */
  predicate PlainText(text: string) {
    && |text| <= MAX_BODY_SIZE && NUL !in text
    && !(HEARTBEAT <= text) && !(text <= HEARTBEAT)
  }

  lemma PlainFrame(text: string)
    requires PlainText(text)
    ensures BodyOf(DataFrame(text)) == text && !IsPing(DataFrame(text)) && !Ambiguous(DataFrame(text))
  {
    DataFrameFramed(text);
    UpToNulUnique(text, text);
  }

  lemma PlainFrames(texts: seq<string>)
    requires forall t <- texts :: PlainText(t)
    ensures Bodies(DataFrames(texts)) == texts
    ensures Unambiguous(DataFrames(texts)) && Payload(DataFrames(texts)) == DataFrames(texts)
  {
    hide DataFrame, BodyOf, PlainText, IsPing, Ambiguous, Payload;
    forall i | 0 <= i < |texts|
      ensures BodyOf(DataFrame(texts[i])) == texts[i] && !IsPing(DataFrame(texts[i])) && !Ambiguous(DataFrame(texts[i]))
    {
      PlainFrame(texts[i]);
    }
    PayloadOfData(DataFrames(texts));
  }

  /** The same for texts: when both applications write plain texts with `setData`, the bodies
      that each read callback got are a prefix of the texts that the other side wrote, and all of
      them once nothing is in transit. */
  lemma TextsArriveInOrder(now: nat, steps: seq<N.Step>, memory: N.Memory, down: seq<string>, up: seq<string>)
    requires N.Run(now, steps, memory).Some?
    requires (forall t <- down :: PlainText(t)) && (forall t <- up :: PlainText(t))
    requires SessionFrames(now, steps, memory) == DataFrames(down)
    requires ClientFrames(now, steps, memory) == DataFrames(up)
    ensures var n := N.Run(now, steps, memory).value;
            && WriteChain.Inv(n.session.writer) && Bounded(n.client.reader)
            && WriteChain.Inv(n.client.writer) && Bounded(n.session.reader)
            && Bodies(n.client.delivered) <= down && (TowardClient(n) == [] ==> Bodies(n.client.delivered) == down)
            && Bodies(n.session.delivered) <= up && (TowardSession(n) == [] ==> Bodies(n.session.delivered) == up)
  {
    hide N.Run, PlainText, DataFrames, Payload, SessionFrames, ClientFrames, Ambiguous, Parse;
    hide TowardClient, TowardSession, WriteChain.Inv;
    PlainFrames(down);
    PlainFrames(up);
    FifoDelivery(now, steps, memory);
    var n := N.Run(now, steps, memory).value;
    PrefixBodies(n.client.delivered, DataFrames(down));
    PrefixBodies(n.session.delivered, DataFrames(up));
    NothingInTransit();
  }

  lemma NothingInTransit()
    ensures Payload(Parse([]).frames) == []
  {
    EmptyParse();
  }

  lemma PrefixBodies(a: seq<string>, b: seq<string>)
    requires a <= b
    ensures Bodies(a) <= Bodies(b)
  {
    assert forall i :: 0 <= i < |a| ==> Bodies(a)[i] == BodyOf(a[i]) == BodyOf(b[i]) == Bodies(b)[i];
  }

  /** Heartbeat conservation: in every reachable state the timer completions that the run handled
      and the applications' own "PING" bodies equal the heartbeats between the endpoints, in both
      directions, plus those that the session absorbed. */
  lemma HeartbeatConservation(now: nat, steps: seq<N.Step>, memory: N.Memory)
    requires N.Run(now, steps, memory).Some? && ClearRun(now, steps, memory)
    ensures var n := N.Run(now, steps, memory).value;
            && WriteChain.Inv(n.session.writer) && Bounded(n.client.reader)
            && WriteChain.Inv(n.client.writer) && Bounded(n.session.reader)
            && H.Count(steps, H.Beat) + Pings(SessionFrames(now, steps, memory))
               + Pings(ClientFrames(now, steps, memory))
            == Pings(Parse(TowardClient(n)).frames) + Pings(Parse(TowardSession(n)).frames)
               + |HeartbeatsSeen(n.session.reader.seen)|
  {
    hide N.Inv, Unambiguous, WriteChain.Inv, TowardClient, TowardSession, Parse, Pings, AppFrames;
    N.Reachable(now, steps, memory);
    H.WrittenIsGiven(now, steps, memory);
    H.Counted(now, steps, memory);
    InvParts(N.Run(now, steps, memory).value, memory);
    BothDirections(N.Run(now, steps, memory).value, memory);
  }

  /** The client queued one byte-identical echo for each frame that it took for a heartbeat, in
      order; the session queued one "PING" frame for each timer completion that the run handled. */
  lemma EchoesAndBeats(now: nat, steps: seq<N.Step>, memory: N.Memory)
    requires N.Run(now, steps, memory).Some?
    ensures var n := N.Run(now, steps, memory).value;
            && HeartbeatFrames(n.client.writer.written) == HeartbeatsSeen(n.client.reader.seen)
            && HeartbeatFrames(n.session.writer.written) == seq(H.Count(steps, H.Beat), _ => "    4PING")
  {
    hide N.Run, H.Count, HeartbeatFrames, HeartbeatsSeen, PING_FRAME;
    N.Reachable(now, steps, memory);
    H.Counted(now, steps, memory);
    S.PingFrameIs();
  }

  /** Neither endpoint ever rejects a header of the other. */
  lemma HeadersNeverRejected(now: nat, steps: seq<N.Step>, memory: N.Memory)
    requires N.Run(now, steps, memory).Some?
    ensures var n := N.Run(now, steps, memory).value;
            && !(n.client.reader.pending.Stopped? && n.client.reader.pending.rejected)
            && !(n.session.reader.pending.Stopped? && n.session.reader.pending.rejected)
  {
    hide N.Inv;
    N.Reachable(now, steps, memory);
    var n := N.Run(now, steps, memory).value;
    N.InvLinks(n, memory);
    LinkNeverRejects(n.session.writer, n.client.reader, n.toClient, memory.client);
    LinkNeverRejects(n.client.writer, n.session.reader, n.toSession, memory.session);
  }

  /** What a writer guarantees: until a write fails, one write is outstanding exactly when the
      queue is non-empty; there is never more than one and it is for the front item; success
      callbacks ran once per completed item, in order; the connection carries the completed
      frames and a prefix of the front frame. */
  predicate SingleWriter(w: Writer) {
    && |w.ops| <= 1 && |w.broken| <= 1
    && (w.broken == [] ==> (|w.ops| == 1 <==> w.queue != []))
    && (w.broken != [] ==> w.ops == [] && w.queue != [])
    && (forall op <- w.ops + w.broken ::
          w.queue != [] && op.bytes == w.queue[0].frame && op.callback == w.queue[0].callback)
    && w.written == w.popped + w.queue
    && w.acked == Callbacks(w.popped)
    && Concat(WriteChain.Frames(w.popped)) <= w.out
    && w.out <= Concat(WriteChain.Frames(w.popped)) + (if w.queue == [] then [] else w.queue[0].frame)
  }

  lemma InvSingleWriter(w: Writer)
    requires WriteChain.Inv(w)
    ensures SingleWriter(w)
  {
    hide Concat, Callbacks;
    assert Current(w) == w.ops + w.broken;
    assert forall op <- w.ops + w.broken :: op == Current(w)[0];
  }

  lemma SingleWriterAlways(now: nat, steps: seq<N.Step>, memory: N.Memory)
    requires N.Run(now, steps, memory).Some?
    ensures SingleWriter(N.Run(now, steps, memory).value.session.writer)
    ensures SingleWriter(N.Run(now, steps, memory).value.client.writer)
  {
    hide N.Inv, SingleWriter;
    N.Reachable(now, steps, memory);
    InvParts(N.Run(now, steps, memory).value, memory);
    InvSingleWriter(N.Run(now, steps, memory).value.session.writer);
    InvSingleWriter(N.Run(now, steps, memory).value.client.writer);
  }

  /** Timer discipline and close callbacks in every reachable state: the pending wait is the one
      that the steps say, with that deadline; every completion was due, where the header count of
      a wait is the number of headers read; the close callback ran once for each failed chain. */
  lemma TimerDiscipline(now: nat, steps: seq<N.Step>, memory: N.Memory)
    requires N.Run(now, steps, memory).Some?
    ensures var s := N.Run(now, steps, memory).value.session;
            && S.Deadlines(s.timer) == H.Pending(now, steps)
            && |s.timer.waits| <= 1
            && s.headers == H.Count(steps, H.SessionHeader)
            && (forall e <- s.fired :: HeartbeatTimer.Due(e))
            && (forall e <- s.timer.ready :: HeartbeatTimer.Due(e))
            && s.closes <= 2
            && s.closes == H.Count(steps, H.SessionFails)
            && s.closes == (if s.reader.pending.Stopped? then 1 else 0) + |s.writer.broken|
  {
    hide N.Run, H.Count, H.Pending, S.Deadlines, HeartbeatTimer.Due;
    N.Reachable(now, steps, memory);
    H.TimerIsRead(now, steps, memory);
    H.Counted(now, steps, memory);
    var n := N.Run(now, steps, memory).value;
    S.ClosesAtMostTwice(n.session, n.now, memory.session);
  }

  // ----- from one state of a run to a later one -----

  lemma RunPrefix(now: nat, first: seq<N.Step>, more: seq<N.Step>, memory: N.Memory)
    requires more != [] && N.Run(now, first + more, memory).Some?
    ensures var init := first + more[..|more| - 1];
            && N.Run(now, init, memory).Some?
            && N.Enabled(N.Run(now, init, memory).value, more[|more| - 1])
            && N.Run(now, first + more, memory)
               == Some(N.Apply(N.Run(now, init, memory).value, more[|more| - 1], memory))
  {
    hide N.Enabled, N.Apply, N.Initial;
    var steps := first + more;
    assert steps[..|steps| - 1] == first + more[..|more| - 1];
    assert steps[|steps| - 1] == more[|more| - 1];
  }

  /** After a failed write an endpoint never puts another byte on the connection, whatever is
      still enqueued. */
  lemma {:induction false} SilentAfterWriteError(now: nat, first: seq<N.Step>, more: seq<N.Step>, memory: N.Memory)
    requires N.Run(now, first, memory).Some? && N.Run(now, first + more, memory).Some?
    ensures var (n, m) := (N.Run(now, first, memory).value, N.Run(now, first + more, memory).value);
            && (n.session.writer.broken != [] ==>
                  m.session.writer.broken != [] && m.session.writer.out == n.session.writer.out)
            && (n.client.writer.broken != [] ==>
                  m.client.writer.broken != [] && m.client.writer.out == n.client.writer.out)
    decreases |more|
  {
    hide N.Run, S.Inv, C.Inv, S.Enabled, C.Enabled, S.Apply, C.Apply;
    if more == [] {
      assert first + more == first;
    } else {
      RunPrefix(now, first, more, memory);
      var init, step := more[..|more| - 1], more[|more| - 1];
      SilentAfterWriteError(now, first, init, memory);
      N.Reachable(now, first + init, memory);
      var k := N.Run(now, first + init, memory).value;
      if step.AtSession? && k.session.writer.broken != [] {
        S.BrokenStaysSilent(k.session, step.s, k.now, memory.session);
      } else if step.AtClient? && k.client.writer.broken != [] {
        C.BrokenStaysSilent(k.client, step.c, memory.client);
      }
    }
  }

  /** Once the read chain has ended with no timer completion queued, the timer is never armed
      again. */
  lemma {:induction false} TimerNeverArmedAgain(now: nat, first: seq<N.Step>, more: seq<N.Step>, memory: N.Memory)
    requires N.Run(now, first, memory).Some? && N.Run(now, first + more, memory).Some?
    requires S.TimerDead(N.Run(now, first, memory).value.session)
    ensures S.TimerDead(N.Run(now, first + more, memory).value.session)
    ensures N.Run(now, first + more, memory).value.session.timer.armed
         == N.Run(now, first, memory).value.session.timer.armed
    decreases |more|
  {
    hide N.Run, S.Apply, C.Apply, S.TimerDead;
    if more == [] {
      assert first + more == first;
    } else {
      RunPrefix(now, first, more, memory);
      TimerNeverArmedAgain(now, first, more[..|more| - 1], memory);
      var k := N.Run(now, first + more[..|more| - 1], memory).value;
      var step := more[|more| - 1];
      if step.AtSession? {
        S.DeadTimerStaysDead(k.session, step.s, k.now, memory.session);
      }
    }
  }

  lemma RunSnoc(now: nat, steps: seq<N.Step>, step: N.Step, memory: N.Memory)
    requires N.Run(now, steps, memory).Some? && N.Enabled(N.Run(now, steps, memory).value, step)
    ensures N.Run(now, steps + [step], memory) == Some(N.Apply(N.Run(now, steps, memory).value, step, memory))
  {
    hide N.Enabled, N.Apply, N.Initial;
    assert (steps + [step])[..|steps|] == steps;
  }

  /** The continuation `more` of a run arms the timer. */
  ghost predicate Rearms(now: nat, first: seq<N.Step>, more: seq<N.Step>, memory: N.Memory) {
    && N.Run(now, first, memory).Some? && N.Run(now, first + more, memory).Some?
    && N.Run(now, first + more, memory).value.session.timer.armed > N.Run(now, first, memory).value.session.timer.armed
  }

  /** Handling a queued successful completion arms the timer. */
  lemma HandlingRearms(now: nat, steps: seq<N.Step>, memory: N.Memory)
    requires N.Run(now, steps, memory).Some? && N.Run(now, steps, memory).value.session.timer.ready != []
    ensures var handled := N.Run(now, steps + [N.AtSession(S.TimerHandled(0))], memory);
            && handled.Some?
            && handled.value.session.timer.armed == N.Run(now, steps, memory).value.session.timer.armed + 1
            && handled.value.session.writer.written
               == N.Run(now, steps, memory).value.session.writer.written + [Item("    4PING", HeartbeatCallback)]
  {
    hide N.Run, N.Inv, S.Inv;
    RunSnoc(now, steps, N.AtSession(S.TimerHandled(0)), memory);
    N.Reachable(now, steps, memory);
    var n := N.Run(now, steps, memory).value;
    InvSession(n, memory);
    S.LateCompletionRearms(n.session, 0, n.now, memory.session);
  }

  lemma InvSession(n: N.Net, memory: N.Memory)
    requires N.Inv(n, memory)
    ensures S.Inv(n.session, n.now, memory.session)
  {
    hide S.Inv, C.Inv;
  }

  /** A pending wait can expire. */
  lemma WaitExpires(now: nat, steps: seq<N.Step>, memory: N.Memory) returns (more: seq<N.Step>)
    requires N.Run(now, steps, memory).Some? && N.Run(now, steps, memory).value.session.timer.waits != []
    ensures var expired := N.Run(now, steps + more, memory);
            && expired.Some? && expired.value.session.timer.ready != []
            && expired.value.session.timer.armed == N.Run(now, steps, memory).value.session.timer.armed
  {
    hide N.Run;
    var tick := N.Tick(N.Run(now, steps, memory).value.session.timer.waits[0].deadline);
    var expiry := N.AtSession(S.TimerExpired(0));
    RunSnoc(now, steps, tick, memory);
    RunSnoc(now, steps + [tick], expiry, memory);
    more := [tick, expiry];
    assert steps + more == steps + [tick] + [expiry];
  }

  /** Once the read chain has ended, some continuation of the run arms the timer again exactly when
      the timer is not dead: a wait is pending, or a successful completion is queued. */
  lemma EndedChainRearms(now: nat, first: seq<N.Step>, memory: N.Memory)
    requires N.Run(now, first, memory).Some? && N.Run(now, first, memory).value.session.reader.pending.Stopped?
    ensures (exists more :: Rearms(now, first, more, memory))
       <==> !S.TimerDead(N.Run(now, first, memory).value.session)
  {
    hide N.Run;
    var s := N.Run(now, first, memory).value.session;
    if S.TimerDead(s) {
      forall more ensures !Rearms(now, first, more, memory) {
        if N.Run(now, first + more, memory).Some? {
          TimerNeverArmedAgain(now, first, more, memory);
        }
      }
    } else {
      var more: seq<N.Step> := [];
      assert first + more == first;
      if s.timer.ready == [] {
        more := WaitExpires(now, first, memory);
      }
      HandlingRearms(now, first + more, memory);
      var all := more + [N.AtSession(S.TimerHandled(0))];
      assert first + all == first + more + [N.AtSession(S.TimerHandled(0))];
      assert Rearms(now, first, all, memory);
    }
  }

  /** Ten seconds without a header, then a read error before the expired wait is handled. */
  const LATE_ERROR: seq<N.Step> := [
    N.AtSession(S.Opened), N.Tick(10), N.AtSession(S.TimerExpired(0)), N.AtSession(S.ReadError([]))]

  /** A run in which the timer goes on after the read chain has ended and the close callback has
      run: the next step queues a heartbeat and arms the timer. */
  lemma TimerOutlivesChain(now: nat, memory: N.Memory)
    ensures N.Run(now, LATE_ERROR, memory).Some?
    ensures var s := N.Run(now, LATE_ERROR, memory).value.session;
            && s.reader.pending.Stopped? && s.closes == 1 && s.timer.waits == [] && |s.timer.ready| == 1
    ensures Rearms(now, LATE_ERROR, [N.AtSession(S.TimerHandled(0))], memory)
    ensures N.Run(now, LATE_ERROR, memory).value.session.writer.written == []
    ensures N.Run(now, LATE_ERROR + [N.AtSession(S.TimerHandled(0))], memory).value.session.writer.written
         == [Item("    4PING", HeartbeatCallback)]
  {
    hide N.Run, WriteChain.Write;
    var none: seq<N.Step> := [];
    StartsInitial(now, memory);
    RunSnoc(now, none, LATE_ERROR[0], memory);
    assert none + [LATE_ERROR[0]] == LATE_ERROR[..1];
    RunSnoc(now, LATE_ERROR[..1], LATE_ERROR[1], memory);
    assert LATE_ERROR[..1] + [LATE_ERROR[1]] == LATE_ERROR[..2];
    RunSnoc(now, LATE_ERROR[..2], LATE_ERROR[2], memory);
    assert LATE_ERROR[..2] + [LATE_ERROR[2]] == LATE_ERROR[..3];
    RunSnoc(now, LATE_ERROR[..3], LATE_ERROR[3], memory);
    assert LATE_ERROR[..3] + [LATE_ERROR[3]] == LATE_ERROR;
    HandlingRearms(now, LATE_ERROR, memory);
  }

  lemma StartsInitial(now: nat, memory: N.Memory)
    ensures N.Run(now, [], memory) == Some(N.Initial(now, memory))
  {
  }
}
