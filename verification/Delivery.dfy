/** Delivery is always still possible: from every reachable state, as long as neither the writer
    nor the reader of a direction has failed, the run can go on until everything has arrived. */
module Delivery {
  import opened CText
  import opened Framing
  import opened ReadChain
  import opened WriteChain
  import opened Traffic
  import G = Guarantees
  import H = Histories
  import N = Network
  import S = SessionModel
  import C = ClientModel

  // ----- the writer gets rid of its queue -----

  /** The front item goes out as a whole and completes. */
  lemma FrontCompletes(w: Writer)
    requires WriteChain.Inv(w) && w.queue != [] && w.broken == []
    ensures |w.ops| == 1 && w.ops[0].sent <= |w.ops[0].bytes|
    ensures var sent := Send(w, 0, |w.ops[0].bytes| - w.ops[0].sent);
            && |sent.ops| == 1 && sent.ops[0].sent == |sent.ops[0].bytes| && sent.queue == w.queue
            && WriteDone(sent, 0, []).queue == w.queue[1..]
            && WriteDone(sent, 0, []).written == w.written && WriteDone(sent, 0, []).broken == []
  {
    hide Concat, WriteChain.Frames, Callbacks;
    assert Current(w) == w.ops;
    var sent := Send(w, 0, |w.ops[0].bytes| - w.ops[0].sent);
    SendKeeps(w, 0, |w.ops[0].bytes| - w.ops[0].sent);
    WriteDoneIs(sent, 0, []);
    assert Reentrant(w.queue[0].callback, []) == [];
    assert w.queue[1..] + [] == w.queue[1..] && w.written + [] == w.written;
  }

  lemma {:induction false} SessionSends(now: nat, steps: seq<N.Step>, memory: N.Memory) returns (more: seq<N.Step>)
    requires N.Run(now, steps, memory).Some? && N.Run(now, steps, memory).value.session.writer.broken == []
    ensures N.Run(now, steps + more, memory).Some?
    ensures var n, m := N.Run(now, steps, memory).value, N.Run(now, steps + more, memory).value;
            && m.client == n.client && m.session.reader == n.session.reader
            && m.session.writer.written == n.session.writer.written
            && m.session.writer.queue == [] && m.session.writer.broken == []
    decreases |N.Run(now, steps, memory).value.session.writer.queue|
  {
    hide N.Run, N.Inv, WriteChain.Inv, Send, WriteDone;
    var n := N.Run(now, steps, memory).value;
    var w := n.session.writer;
    if w.queue == [] {
      more := [];
      assert steps + more == steps;
    } else {
      N.Reachable(now, steps, memory);
      N.InvChains(n, memory);
      FrontCompletes(w);
      var send := N.AtSession(S.Transmit(0, |w.ops[0].bytes| - w.ops[0].sent));
      var done := N.AtSession(S.WriteCompleted(0, []));
      G.RunSnoc(now, steps, send, memory);
      G.RunSnoc(now, steps + [send], done, memory);
      var rest := SessionSends(now, steps + [send] + [done], memory);
      more := [send] + [done] + rest;
      assert steps + more == steps + [send] + [done] + rest;
    }
  }

  lemma {:induction false} ClientSends(now: nat, steps: seq<N.Step>, memory: N.Memory) returns (more: seq<N.Step>)
    requires N.Run(now, steps, memory).Some? && N.Run(now, steps, memory).value.client.writer.broken == []
    requires N.Run(now, steps, memory).value.client.connected
    ensures N.Run(now, steps + more, memory).Some?
    ensures var n, m := N.Run(now, steps, memory).value, N.Run(now, steps + more, memory).value;
            && m.session == n.session && m.client.reader == n.client.reader
            && m.client.writer.written == n.client.writer.written
            && m.client.writer.queue == [] && m.client.writer.broken == []
    decreases |N.Run(now, steps, memory).value.client.writer.queue|
  {
    hide N.Run, N.Inv, WriteChain.Inv, Send, WriteDone;
    var n := N.Run(now, steps, memory).value;
    var w := n.client.writer;
    if w.queue == [] {
      more := [];
      assert steps + more == steps;
    } else {
      N.Reachable(now, steps, memory);
      N.InvChains(n, memory);
      FrontCompletes(w);
      var send := N.AtClient(C.Transmit(0, |w.ops[0].bytes| - w.ops[0].sent));
      var done := N.AtClient(C.WriteCompleted(0, []));
      G.RunSnoc(now, steps, send, memory);
      G.RunSnoc(now, steps + [send], done, memory);
      var rest := ClientSends(now, steps + [send] + [done], memory);
      more := [send] + [done] + rest;
      assert steps + more == steps + [send] + [done] + rest;
    }
  }

  // ----- the reader takes what is there -----

  /** Completions that are waiting to be handled. */
  function Waiting(r: Reader): nat {
    if !Complete(r) then 0 else if r.pending.Header? then 2 else 1
  }

  /** The next event of a reader that has something to do. */
  lemma HeaderGoesOn(r: Reader)
    requires Bounded(r) && r.pending.Header? && Complete(r) && HeaderAccepted(r)
    ensures Reading(HeaderDone(r)) && Waiting(HeaderDone(r)) < Waiting(r)
  {
    hide Atoi, UpToNul;
    DecodeHeaderTotal(r.buffer[..HEADER_SIZE]);
  }

  lemma BodyGoesOn(r: Reader, memory: Buffer)
    requires Bounded(r) && r.pending.Body? && Complete(r)
    ensures Reading(BodyDone(r, memory)) && Waiting(BodyDone(r, memory)) < Waiting(r)
  {
    hide IsHeartbeat;
  }

  lemma PieceGoesOn(r: Reader, bytes: string)
    requires Bounded(r) && Reading(r) && r.got + |bytes| <= Wanted(r)
    ensures Reading(Receive(r, bytes))
  {
  }

  lemma {:induction false} ClientTakes(now: nat, steps: seq<N.Step>, memory: N.Memory) returns (more: seq<N.Step>)
    requires N.Run(now, steps, memory).Some? && Reading(N.Run(now, steps, memory).value.client.reader)
    ensures N.Run(now, steps + more, memory).Some?
    ensures var n, m := N.Run(now, steps, memory).value, N.Run(now, steps + more, memory).value;
            && m.session == n.session && m.toClient == []
            && Reading(m.client.reader) && !Complete(m.client.reader)
    decreases |N.Run(now, steps, memory).value.toClient|, Waiting(N.Run(now, steps, memory).value.client.reader)
  {
    hide N.Run, N.Inv, HeaderDone, Receive, HeaderAccepted, C.Inv, S.Inv, ReadChain.Inv, IsHeartbeat;
    var n := N.Run(now, steps, memory).value;
    var r := n.client.reader;
    if !Complete(r) && n.toClient == [] {
      more := [];
      assert steps + more == steps;
    } else {
      N.Reachable(now, steps, memory);
      N.InvChains(n, memory);
      N.InvBounded(r, memory.client);
      var step := NextAtClient(n, memory);
      G.RunSnoc(now, steps, step, memory);
      var rest := ClientTakes(now, steps + [step], memory);
      more := [step] + rest;
      assert steps + more == steps + [step] + rest;
    }
  }

  lemma NextAtClient(n: N.Net, memory: N.Memory) returns (step: N.Step)
    requires N.Inv(n, memory) && Reading(n.client.reader) && (Complete(n.client.reader) || n.toClient != [])
    ensures N.Enabled(n, step)
    ensures var m := N.Apply(n, step, memory);
            && m.session == n.session && Reading(m.client.reader)
            && |m.toClient| <= |n.toClient|
            && (|m.toClient| < |n.toClient| || Waiting(m.client.reader) < Waiting(n.client.reader))
  {
    hide N.Inv, ReadChain.Inv, HeaderAccepted, IsHeartbeat, WriteAll, HeaderDone, BodyDone, Receive, Waiting;
    N.InvChains(n, memory);
    var r := n.client.reader;
    N.InvBounded(r, memory.client);
    if Complete(r) {
      if r.pending.Header? {
        step := N.AtClient(C.HeaderRead([]));
        H.ClientHeaderIsAccepted(n, step.c, memory);
        HeaderGoesOn(r);
      } else {
        step := N.AtClient(C.BodyRead([]));
        BodyGoesOn(r, memory.client(|r.seen| + 1));
      }
    } else {
      var space := Wanted(r) - r.got;
      var bytes := n.toClient[..if space < |n.toClient| then space else |n.toClient|];
      step := N.AtClient(C.Arrive(bytes));
      PieceGoesOn(r, bytes);
    }
  }

  lemma {:induction false} SessionTakes(now: nat, steps: seq<N.Step>, memory: N.Memory) returns (more: seq<N.Step>)
    requires N.Run(now, steps, memory).Some? && Reading(N.Run(now, steps, memory).value.session.reader)
    ensures N.Run(now, steps + more, memory).Some?
    ensures var n, m := N.Run(now, steps, memory).value, N.Run(now, steps + more, memory).value;
            && m.client == n.client && m.toSession == [] && m.session.writer == n.session.writer
            && Reading(m.session.reader) && !Complete(m.session.reader)
    decreases |N.Run(now, steps, memory).value.toSession|, Waiting(N.Run(now, steps, memory).value.session.reader)
  {
    hide N.Run, N.Inv, HeaderDone, Receive, HeaderAccepted, C.Inv, S.Inv, ReadChain.Inv, IsHeartbeat;
    var n := N.Run(now, steps, memory).value;
    var r := n.session.reader;
    if !Complete(r) && n.toSession == [] {
      more := [];
      assert steps + more == steps;
    } else {
      N.Reachable(now, steps, memory);
      N.InvChains(n, memory);
      N.InvBounded(r, memory.session);
      var step := NextAtSession(n, memory);
      G.RunSnoc(now, steps, step, memory);
      var rest := SessionTakes(now, steps + [step], memory);
      more := [step] + rest;
      assert steps + more == steps + [step] + rest;
    }
  }

  lemma NextAtSession(n: N.Net, memory: N.Memory) returns (step: N.Step)
    requires N.Inv(n, memory) && Reading(n.session.reader) && (Complete(n.session.reader) || n.toSession != [])
    ensures N.Enabled(n, step)
    ensures var m := N.Apply(n, step, memory);
            && m.client == n.client && Reading(m.session.reader) && m.session.writer == n.session.writer
            && |m.toSession| <= |n.toSession|
            && (|m.toSession| < |n.toSession| || Waiting(m.session.reader) < Waiting(n.session.reader))
  {
    hide N.Inv, ReadChain.Inv, HeaderAccepted, IsHeartbeat, HeaderDone, BodyDone, Receive, Waiting;
    N.InvChains(n, memory);
    var r := n.session.reader;
    N.InvBounded(r, memory.session);
    if Complete(r) {
      if r.pending.Header? {
        step := N.AtSession(S.HeaderRead([]));
        H.HeaderIsAccepted(n, step.s, memory);
        HeaderGoesOn(r);
      } else {
        step := N.AtSession(S.BodyRead([]));
        BodyGoesOn(r, memory.session(|r.seen| + 1));
      }
    } else {
      var space := Wanted(r) - r.got;
      var bytes := n.toSession[..if space < |n.toSession| then space else |n.toSession|];
      step := N.AtSession(S.Arrive(bytes));
      PieceGoesOn(r, bytes);
    }
  }

  // ----- then everything has arrived -----

  /** Nothing queued, nothing on the connection, no completion waiting: every frame was read. */
  lemma AllRead(w: Writer, r: Reader, supply: Supply)
    requires Linked(w, r, [], supply) && w.queue == [] && Reading(r) && !Complete(r)
    ensures ReadChain.Frames(r.seen) == WriteChain.Frames(w.written)
    ensures Bounded(r) && InTransit(w, r, []) == []
  {
    hide Parse, DecodeHeader, ReadChain.Inv, WriteChain.Inv, Consumed;
    N.InvBounded(r, supply);
    OutAndUnsent(w);
    var written := WriteChain.Frames(w.written);
    assert w.out + [] == w.out && Consumed(r) + [] == Consumed(r);
    assert Consumed(r) == Concat(written);
    ReaderIsParser(r, supply);
    ParseFrames(written, []);
    EmptyParse();
    assert Concat(written) + [] == Concat(written) && written + [] == written;
  }

  /** From every reachable state in which the client is connected, none of its reads has failed and
      no write of the session has failed, the run can go on, with no further write of the session,
      until the client has read every frame; its read callback then has all that the session's
      application gave. */
  lemma ArrivesAtClient(now: nat, steps: seq<N.Step>, memory: N.Memory) returns (more: seq<N.Step>)
    requires N.Run(now, steps, memory).Some?
    requires H.ClientReading(steps) && H.Count(steps, H.SessionWriteFails) == 0
    ensures N.Run(now, steps + more, memory).Some?
    ensures var n, m := N.Run(now, steps, memory).value, N.Run(now, steps + more, memory).value;
            && m.session.writer.written == n.session.writer.written
            && ReadChain.Frames(m.client.reader.seen) == WriteChain.Frames(H.SessionPut(now, steps, memory))
            && (G.Unambiguous(G.SessionFrames(now, steps, memory)) ==>
                  m.client.delivered == Payload(G.SessionFrames(now, steps, memory)))
  {
    hide N.Run, N.Inv, WriteChain.Inv, ReadChain.Inv, AppFrames, Payload, G.Unambiguous, HeartbeatFrames;
    hide Parse, H.Count;
    H.Counted(now, steps, memory);
    H.ReadingIsRead(now, steps, memory);
    var sends := SessionSends(now, steps, memory);
    var takes := ClientTakes(now, steps + sends, memory);
    more := sends + takes;
    assert steps + more == steps + sends + takes;
    H.WrittenIsGiven(now, steps, memory);
    N.Reachable(now, steps + more, memory);
    var m := N.Run(now, steps + more, memory).value;
    N.InvLinks(m, memory);
    AllRead(m.session.writer, m.client.reader, memory.client);
    ClientDelivers(m, memory);
  }

  lemma ClientDelivers(m: N.Net, memory: N.Memory)
    requires N.Inv(m, memory) && WriteChain.Inv(m.session.writer) && Bounded(m.client.reader)
    requires InTransit(m.session.writer, m.client.reader, m.toClient) == []
    ensures G.Unambiguous(AppFrames(m.session.writer.written)) ==>
              m.client.delivered == Payload(AppFrames(m.session.writer.written))
  {
    hide WriteChain.Inv, ReadChain.Inv, AppFrames, Payload, Parse, InTransit, S.BeatsRight, AllFramed;
    N.InvLinks(m, memory);
    if G.Unambiguous(AppFrames(m.session.writer.written)) {
      G.BeatsArePings(m.session, m.now, memory.session);
      G.LinkByContent(m.session.writer, m.client.reader, m.toClient, memory.client);
      G.NothingInTransit();
    }
  }

  /** The same in the other direction, from every reachable state in which the client is connected,
      none of its writes has failed, and the session was started and none of its reads has failed. */
  lemma ArrivesAtSession(now: nat, steps: seq<N.Step>, memory: N.Memory) returns (more: seq<N.Step>)
    requires N.Run(now, steps, memory).Some?
    requires H.SessionReading(steps) && H.Count(steps, H.ClientWriteFails) == 0
    requires H.Count(steps, H.ClientConnects) > 0
    ensures N.Run(now, steps + more, memory).Some?
    ensures var n, m := N.Run(now, steps, memory).value, N.Run(now, steps + more, memory).value;
            && m.client.writer.written == n.client.writer.written
            && ReadChain.Frames(m.session.reader.seen) == WriteChain.Frames(H.ClientPut(now, steps, memory))
            && (G.ClearRun(now, steps, memory) ==>
                  m.session.delivered == Payload(G.ClientFrames(now, steps, memory)))
  {
    hide N.Run, N.Inv, WriteChain.Inv, ReadChain.Inv, AppFrames, Payload, G.Unambiguous, HeartbeatFrames;
    hide Parse, H.Count;
    H.Counted(now, steps, memory);
    H.ReadingIsRead(now, steps, memory);
    var sends := ClientSends(now, steps, memory);
    var takes := SessionTakes(now, steps + sends, memory);
    more := sends + takes;
    assert steps + more == steps + sends + takes;
    H.WrittenIsGiven(now, steps, memory);
    N.Reachable(now, steps + more, memory);
    var m := N.Run(now, steps + more, memory).value;
    N.InvLinks(m, memory);
    AllRead(m.client.writer, m.session.reader, memory.session);
    SessionDelivers(m, memory);
  }

  lemma SessionDelivers(m: N.Net, memory: N.Memory)
    requires N.Inv(m, memory) && WriteChain.Inv(m.client.writer) && Bounded(m.session.reader)
    requires InTransit(m.client.writer, m.session.reader, m.toSession) == []
    ensures G.ClearTraffic(m) ==> m.session.delivered == Payload(AppFrames(m.client.writer.written))
  {
    hide ReadChain.Inv, WriteChain.Inv, IsPing, AllFramed, Parse, Payload, Pings, InTransit, G.Unambiguous;
    if G.ClearTraffic(m) {
      N.InvLinks(m, memory);
      G.BothDirections(m, memory);
      G.NothingInTransit();
    }
  }
}
