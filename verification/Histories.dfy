/** What a run does, read off the list of its steps: what the applications wrote, how often each
    thing happened, which timer deadline is pending. Every history of the endpoints is that. */
module Histories {
  import opened CText
  import opened Framing
  import opened ReadChain
  import opened WriteChain
  import opened Traffic
  import HeartbeatTimer
  import N = Network
  import S = SessionModel
  import C = ClientModel

  // ----- kinds of steps -----

  function Count(steps: seq<N.Step>, kind: N.Step -> bool): nat {
    if steps == [] then 0
    else Count(steps[..|steps| - 1], kind) + if kind(steps[|steps| - 1]) then 1 else 0
  }

  predicate SessionHeader(step: N.Step) {
    step.AtSession? && step.s.HeaderRead?
  }

  predicate SessionBody(step: N.Step) {
    step.AtSession? && step.s.BodyRead?
  }

  predicate SessionWriteDone(step: N.Step) {
    step.AtSession? && step.s.WriteCompleted?
  }

  predicate SessionWriteFails(step: N.Step) {
    step.AtSession? && step.s.WriteError?
  }

  predicate SessionFails(step: N.Step) {
    step.AtSession? && (step.s.ReadError? || step.s.WriteError?)
  }

  predicate Expiry(step: N.Step) {
    step.AtSession? && step.s.TimerExpired?
  }

  predicate Beat(step: N.Step) {
    step.AtSession? && step.s.TimerHandled?
  }

  /** `start`, an accepted header, a handled completion. */
  predicate Arms(step: N.Step) {
    step.AtSession? && (step.s.Opened? || step.s.HeaderRead? || step.s.TimerHandled?)
  }

  predicate ClientConnects(step: N.Step) {
    step.AtClient? && step.c.Connected?
  }

  predicate ClientBody(step: N.Step) {
    step.AtClient? && step.c.BodyRead?
  }

  predicate ClientWriteDone(step: N.Step) {
    step.AtClient? && step.c.WriteCompleted?
  }

  predicate ClientWriteFails(step: N.Step) {
    step.AtClient? && step.c.WriteError?
  }

  predicate ClientReadFails(step: N.Step) {
    step.AtClient? && (step.c.ConnectError? || step.c.ReadError?)
  }

  // ----- what the steps say -----

  function Clock(now: nat, steps: seq<N.Step>): nat {
    if steps == [] then now
    else
      var last := steps[|steps| - 1];
      Clock(now, steps[..|steps| - 1]) + if last.Tick? then last.seconds else 0
  }

  /** The deadline of the pending wait: ten seconds after the construction of the session for the
      wait of `start`, ten seconds after the step for any other. */
  function Deadline(now: nat, steps: seq<N.Step>): Option<nat> {
    if steps == [] then None
    else
      var last := steps[|steps| - 1];
      if !last.AtSession? then Deadline(now, steps[..|steps| - 1])
      else
        match last.s
        case Opened => Some(now + 10)
        case HeaderRead(_) => Some(Clock(now, steps) + 10)
        case TimerHandled(_) => Some(Clock(now, steps) + 10)
        case ReadError(_) => None
        case WriteError(_, _) => None
        case TimerExpired(_) => None
        case _ => Deadline(now, steps[..|steps| - 1])
  }

  /** The session was started, and no read has failed since. */
  predicate SessionReading(steps: seq<N.Step>) {
    if steps == [] then false
    else
      var last := steps[|steps| - 1];
      if !last.AtSession? then SessionReading(steps[..|steps| - 1])
      else last.s.Opened? || (SessionReading(steps[..|steps| - 1]) && !last.s.ReadError?)
  }

  /** The client was connected, and no read has failed since. */
  predicate ClientReading(steps: seq<N.Step>) {
    if steps == [] then false
    else
      var last := steps[|steps| - 1];
      if !last.AtClient? then ClientReading(steps[..|steps| - 1])
      else last.c.Connected? || (ClientReading(steps[..|steps| - 1]) && !last.c.ReadError?)
  }

  /** What the application of the session handed to `write` in the course of the run. */
  function SessionGiven(now: nat, steps: seq<N.Step>, memory: N.Memory): seq<Item> {
    if steps == [] then []
    else
      var init, last := steps[..|steps| - 1], steps[|steps| - 1];
      var before := N.Run(now, init, memory);
      SessionGiven(now, init, memory)
      + if before.Some? && last.AtSession? then S.Gives(before.value.session, last.s) else []
  }

  function ClientGiven(now: nat, steps: seq<N.Step>, memory: N.Memory): seq<Item> {
    if steps == [] then []
    else
      var init, last := steps[..|steps| - 1], steps[|steps| - 1];
      var before := N.Run(now, init, memory);
      ClientGiven(now, init, memory)
      + if before.Some? && last.AtClient? then C.Gives(before.value.client, last.c) else []
  }

  /** All that was handed to `write`, in order: the application's items, and the heartbeats. */
  function SessionPut(now: nat, steps: seq<N.Step>, memory: N.Memory): seq<Item> {
    if steps == [] then []
    else
      var init, last := steps[..|steps| - 1], steps[|steps| - 1];
      var before := N.Run(now, init, memory);
      SessionPut(now, init, memory)
      + if before.Some? && last.AtSession? then S.Puts(before.value.session, last.s) else []
  }

  function ClientPut(now: nat, steps: seq<N.Step>, memory: N.Memory): seq<Item> {
    if steps == [] then []
    else
      var init, last := steps[..|steps| - 1], steps[|steps| - 1];
      var before := N.Run(now, init, memory);
      ClientPut(now, init, memory)
      + if before.Some? && last.AtClient? then C.Puts(before.value.client, last.c) else []
  }

  // ----- the runs do that -----

  lemma LastStep(now: nat, steps: seq<N.Step>, memory: N.Memory)
    requires steps != [] && N.Run(now, steps, memory).Some?
    ensures var init, last := steps[..|steps| - 1], steps[|steps| - 1];
            && N.Run(now, init, memory).Some? && N.Inv(N.Run(now, init, memory).value, memory)
            && N.Enabled(N.Run(now, init, memory).value, last)
            && N.Run(now, steps, memory) == Some(N.Apply(N.Run(now, init, memory).value, last, memory))
  {
    hide N.Inv, N.Enabled, N.Apply;
    N.Reachable(now, steps[..|steps| - 1], memory);
  }

  lemma SessionGivesItems(s: S.Session, e: S.Event, now: nat)
    requires S.Enabled(s, e, now)
    ensures AppItemList(S.Gives(s, e))
  {
    hide AppItem, UpToNul, Atoi;
  }

  lemma ClientGivesItems(c: C.Client, e: C.Event)
    requires C.Enabled(c, e)
    ensures AppItemList(C.Gives(c, e))
  {
    hide AppItem, UpToNul, Atoi;
  }

  lemma NoFrames()
    ensures AppFrames([]) == [] && WriteChain.Frames([]) == []
  {
  }

  lemma FramesJoin(a: seq<Item>, b: seq<Item>)
    ensures WriteChain.Frames(a + b) == WriteChain.Frames(a) + WriteChain.Frames(b)
  {
    FramesAppend(a, b);
  }

  /** One event of the session: its items follow the earlier ones. */
  lemma SessionAdds(s: S.Session, e: S.Event, now: nat, put: seq<Item>, given: seq<Item>)
    requires S.Enabled(s, e, now) && AppFrames(put) == WriteChain.Frames(given)
    ensures AppFrames(put + S.Puts(s, e)) == WriteChain.Frames(given + S.Gives(s, e))
  {
    hide S.Enabled, AppFrames, WriteChain.Frames, AppItemList, HeartbeatFrames, UpToNul, Atoi;
    if e.TimerHandled? {
      WriteSplits(put, Item("    4PING", HeartbeatCallback));
      assert AppFrames(put) + [] == AppFrames(put) && given + [] == given;
    } else {
      SessionGivesItems(s, e, now);
      AppWritesAdd(put, S.Gives(s, e));
      FramesJoin(given, S.Gives(s, e));
    }
  }

  lemma ClientAdds(c: C.Client, e: C.Event, put: seq<Item>, given: seq<Item>)
    requires C.Enabled(c, e) && AppFrames(put) == WriteChain.Frames(given)
    ensures AppFrames(put + C.Puts(c, e)) == WriteChain.Frames(given + C.Gives(c, e))
  {
    hide C.Enabled, AppFrames, WriteChain.Frames, AppItemList, HeartbeatFrames, UpToNul, Atoi;
    if C.Echoes(c, e) != [] {
      WriteSplits(put, C.Puts(c, e)[0]);
      assert AppFrames(put) + [] == AppFrames(put) && given + [] == given;
    } else {
      ClientGivesItems(c, e);
      AppWritesAdd(put, C.Gives(c, e));
      FramesJoin(given, C.Gives(c, e));
    }
  }

  /** Everything that an endpoint ever queued is what the steps gave to `write`, in order. The
      application's part of it is what the application gave. */
  lemma {:induction false} WrittenIsGiven(now: nat, steps: seq<N.Step>, memory: N.Memory)
    requires N.Run(now, steps, memory).Some?
    ensures var n := N.Run(now, steps, memory).value;
            && n.session.writer.written == SessionPut(now, steps, memory)
            && n.client.writer.written == ClientPut(now, steps, memory)
            && AppFrames(n.session.writer.written) == WriteChain.Frames(SessionGiven(now, steps, memory))
            && AppFrames(n.client.writer.written) == WriteChain.Frames(ClientGiven(now, steps, memory))
  {
    hide N.Run, S.Puts, S.Gives, C.Puts, C.Gives, S.Apply, C.Apply, S.Enabled, C.Enabled, S.Inv, C.Inv;
    hide AppFrames, WriteChain.Frames;
    if steps == [] {
      NoFrames();
      RunStarts(now, memory);
    } else {
      var init, last := steps[..|steps| - 1], steps[|steps| - 1];
      LastStep(now, steps, memory);
      WrittenIsGiven(now, init, memory);
      var n := N.Run(now, init, memory).value;
      var put, given := SessionPut(now, init, memory), SessionGiven(now, init, memory);
      var cput, cgiven := ClientPut(now, init, memory), ClientGiven(now, init, memory);
      assert put + [] == put && given + [] == given && cput + [] == cput && cgiven + [] == cgiven;
      if last.AtSession? {
        S.EventKeeps(n.session, last.s, n.now, memory.session);
        SessionAdds(n.session, last.s, n.now, put, given);
      } else if last.AtClient? {
        C.EventKeeps(n.client, last.c, memory.client);
        ClientAdds(n.client, last.c, cput, cgiven);
      }
    }
  }

  lemma RunStarts(now: nat, memory: N.Memory)
    ensures N.Run(now, [], memory) == Some(N.Initial(now, memory))
  {
  }

  /** No run of the two endpoints meets a header that is rejected. */
  lemma HeaderIsAccepted(n: N.Net, e: S.Event, memory: N.Memory)
    requires N.Inv(n, memory) && N.Enabled(n, N.AtSession(e)) && e.HeaderRead?
    ensures HeaderAccepted(n.session.reader)
  {
    hide N.Inv, AppItemList, WriteAll, Atoi, UpToNul;
    var m := N.Apply(n, N.AtSession(e), memory);
    N.StepKeeps(n, N.AtSession(e), memory);
    N.InvLinks(m, memory);
    LinkNeverRejects(m.client.writer, m.session.reader, m.toSession, memory.session);
    DecodeHeaderTotal(n.session.reader.buffer[..HEADER_SIZE]);
  }

  lemma ClientHeaderIsAccepted(n: N.Net, e: C.Event, memory: N.Memory)
    requires N.Inv(n, memory) && N.Enabled(n, N.AtClient(e)) && e.HeaderRead?
    ensures HeaderAccepted(n.client.reader)
  {
    hide N.Inv, AppItemList, WriteAll, Atoi, UpToNul;
    var m := N.Apply(n, N.AtClient(e), memory);
    N.StepKeeps(n, N.AtClient(e), memory);
    N.InvLinks(m, memory);
    LinkNeverRejects(m.session.writer, m.client.reader, m.toClient, memory.client);
    DecodeHeaderTotal(n.client.reader.buffer[..HEADER_SIZE]);
  }

  // ----- how often, and until when -----

  /** One step of the session: the counters, the pending deadline, and the deadline that the timer
      got when the session was made. */
  lemma SessionStepCounts(n: N.Net, e: S.Event, memory: N.Memory)
    requires N.Inv(n, memory) && N.Enabled(n, N.AtSession(e))
    ensures var s, t, step := n.session, N.Apply(n, N.AtSession(e), memory).session, N.AtSession(e);
            && t.headers == s.headers + (if SessionHeader(step) then 1 else 0)
            && |t.reader.seen| == |s.reader.seen| + (if SessionBody(step) then 1 else 0)
            && |t.fired| == |s.fired| + (if Beat(step) then 1 else 0)
            && |t.timer.ready| + |t.fired| == |s.timer.ready| + |s.fired| + (if Expiry(step) then 1 else 0)
            && t.timer.armed == s.timer.armed + (if Arms(step) then 1 else 0)
            && t.closes == s.closes + (if SessionFails(step) then 1 else 0)
            && |t.writer.popped| == |s.writer.popped| + (if SessionWriteDone(step) then 1 else 0)
            && |t.writer.broken| == |s.writer.broken| + (if SessionWriteFails(step) then 1 else 0)
    ensures var s, t := n.session, N.Apply(n, N.AtSession(e), memory).session;
            && S.Deadlines(t.timer) == S.NextDeadlines(s, e, n.now)
            && (e.Opened? ==> s.reader.pending.Idle?)
            && (t.reader.pending.Idle? ==> s.reader.pending.Idle? && t.timer.deadline == s.timer.deadline)
            && Reading(t.reader) == (e.Opened? || (Reading(s.reader) && !e.ReadError?))
  {
    hide S.Inv, C.Inv, S.Apply, AppItemList, HeaderAccepted, S.NextDeadlines, S.Deadlines;
    S.EventCounts(n.session, e, n.now, memory.session);
    S.EventWriteCounts(n.session, e, n.now, memory.session);
    if e.HeaderRead? {
      HeaderIsAccepted(n, e, memory);
    }
  }

  lemma ClientStepCounts(n: N.Net, e: C.Event, memory: N.Memory)
    requires N.Inv(n, memory) && N.Enabled(n, N.AtClient(e))
    ensures var c, t, step := n.client, N.Apply(n, N.AtClient(e), memory).client, N.AtClient(e);
            && |t.reader.seen| == |c.reader.seen| + (if ClientBody(step) then 1 else 0)
            && t.readErrors == c.readErrors + (if ClientReadFails(step) then 1 else 0)
            && Reading(t.reader) == (e.Connected? || (Reading(c.reader) && !ClientReadFails(step)))
            && t.connected == (c.connected || e.Connected?)
            && |t.writer.popped| == |c.writer.popped| + (if ClientWriteDone(step) then 1 else 0)
            && |t.writer.broken| == |c.writer.broken| + (if ClientWriteFails(step) then 1 else 0)
  {
    hide S.Inv, C.Inv, C.Apply, AppItemList, HeaderAccepted;
    C.EventCounts(n.client, e, memory.client);
    C.EventWriteCounts(n.client, e, memory.client);
    if e.HeaderRead? {
      ClientHeaderIsAccepted(n, e, memory);
    }
  }

  predicate SessionCounted(s: S.Session, steps: seq<N.Step>) {
    && s.headers == Count(steps, SessionHeader)
    && |s.reader.seen| == Count(steps, SessionBody)
    && |s.fired| == Count(steps, Beat)
    && |s.timer.ready| + |s.fired| == Count(steps, Expiry)
    && s.timer.armed == Count(steps, Arms)
    && s.closes == Count(steps, SessionFails)
    && |s.writer.popped| == Count(steps, SessionWriteDone)
    && |s.writer.broken| == Count(steps, SessionWriteFails)
  }

  predicate ClientCounted(c: C.Client, steps: seq<N.Step>) {
    && |c.reader.seen| == Count(steps, ClientBody)
    && c.readErrors == Count(steps, ClientReadFails)
    && |c.writer.popped| == Count(steps, ClientWriteDone)
    && |c.writer.broken| == Count(steps, ClientWriteFails)
  }

  lemma CountsKeep(s: S.Session, t: S.Session, steps: seq<N.Step>, step: N.Step)
    requires SessionCounted(s, steps)
    requires t.headers == s.headers + (if SessionHeader(step) then 1 else 0)
    requires |t.reader.seen| == |s.reader.seen| + (if SessionBody(step) then 1 else 0)
    requires |t.fired| == |s.fired| + (if Beat(step) then 1 else 0)
    requires |t.timer.ready| + |t.fired| == |s.timer.ready| + |s.fired| + (if Expiry(step) then 1 else 0)
    requires t.timer.armed == s.timer.armed + (if Arms(step) then 1 else 0)
    requires t.closes == s.closes + (if SessionFails(step) then 1 else 0)
    requires |t.writer.popped| == |s.writer.popped| + (if SessionWriteDone(step) then 1 else 0)
    requires |t.writer.broken| == |s.writer.broken| + (if SessionWriteFails(step) then 1 else 0)
    ensures SessionCounted(t, steps + [step])
  {
    assert (steps + [step])[..|steps|] == steps;
  }

  /** Every counter of an endpoint is the number of steps of its kind. */
  lemma {:induction false} Counted(now: nat, steps: seq<N.Step>, memory: N.Memory)
    requires N.Run(now, steps, memory).Some?
    ensures SessionCounted(N.Run(now, steps, memory).value.session, steps)
    ensures ClientCounted(N.Run(now, steps, memory).value.client, steps)
  {
    hide N.Run, S.Apply, C.Apply, S.Enabled, C.Enabled, N.Inv;
    hide SessionHeader, SessionBody, Beat, Expiry, Arms, SessionFails, SessionWriteDone, SessionWriteFails;
    hide ClientBody, ClientReadFails, ClientWriteDone, ClientWriteFails, SessionCounted;
    if steps == [] {
      RunStarts(now, memory);
      StartsCounted(now, memory);
    } else {
      var init, last := steps[..|steps| - 1], steps[|steps| - 1];
      LastStep(now, steps, memory);
      Counted(now, init, memory);
      var n, m := N.Run(now, init, memory).value, N.Run(now, steps, memory).value;
      assert steps == init + [last];
      if last.AtSession? {
        SessionStepCounts(n, last.s, memory);
        CountsKeep(n.session, m.session, init, last);
        NotClient(last);
      } else {
        NotSession(last);
        CountsKeep(n.session, m.session, init, last);
        if last.AtClient? {
          ClientStepCounts(n, last.c, memory);
        } else {
          NotClient(last);
        }
      }
    }
  }

  lemma NotClient(step: N.Step)
    requires !step.AtClient?
    ensures !ClientBody(step) && !ClientReadFails(step) && !ClientWriteDone(step) && !ClientWriteFails(step)
  {
  }

  lemma NotSession(step: N.Step)
    requires !step.AtSession?
    ensures !SessionHeader(step) && !SessionBody(step) && !Beat(step) && !Expiry(step)
    ensures !Arms(step) && !SessionFails(step) && !SessionWriteDone(step) && !SessionWriteFails(step)
  {
  }

  lemma StartsCounted(now: nat, memory: N.Memory)
    ensures SessionCounted(N.Initial(now, memory).session, [])
    ensures S.Deadlines(N.Initial(now, memory).session.timer) == []
    ensures N.Initial(now, memory).session.timer.deadline == now + 10
  {
  }

  function Pending(now: nat, steps: seq<N.Step>): seq<nat> {
    if Deadline(now, steps).Some? then [Deadline(now, steps).value] else []
  }

  /** The clock and the pending wait of every reachable state, read off the steps. */
  lemma {:induction false} TimerIsRead(now: nat, steps: seq<N.Step>, memory: N.Memory)
    requires N.Run(now, steps, memory).Some?
    ensures var n := N.Run(now, steps, memory).value;
            && n.now == Clock(now, steps)
            && S.Deadlines(n.session.timer) == Pending(now, steps)
            && (n.session.reader.pending.Idle? ==> n.session.timer.deadline == now + 10)
  {
    hide N.Run, S.Apply, C.Apply, S.Enabled, C.Enabled, N.Inv, S.Deadlines, HeaderAccepted;
    if steps == [] {
      RunStarts(now, memory);
      StartsCounted(now, memory);
    } else {
      var init, last := steps[..|steps| - 1], steps[|steps| - 1];
      LastStep(now, steps, memory);
      TimerIsRead(now, init, memory);
      var n := N.Run(now, init, memory).value;
      if last.AtSession? {
        SessionStepCounts(n, last.s, memory);
        if last.s.HeaderRead? {
          HeaderIsAccepted(n, last.s, memory);
        }
      }
    }
  }

  /** Who is still reading, read off the steps. */
  lemma {:induction false} ReadingIsRead(now: nat, steps: seq<N.Step>, memory: N.Memory)
    requires N.Run(now, steps, memory).Some?
    ensures var n := N.Run(now, steps, memory).value;
            && Reading(n.session.reader) == SessionReading(steps)
            && Reading(n.client.reader) == ClientReading(steps)
            && n.client.connected == (Count(steps, ClientConnects) > 0)
  {
    hide N.Run, S.Apply, C.Apply, N.Inv, HeaderAccepted;
    if steps == [] {
      RunStarts(now, memory);
    } else {
      var init, last := steps[..|steps| - 1], steps[|steps| - 1];
      LastStep(now, steps, memory);
      ReadingIsRead(now, init, memory);
      var n := N.Run(now, init, memory).value;
      if last.AtSession? {
        SessionStepCounts(n, last.s, memory);
      } else if last.AtClient? {
        ClientStepCounts(n, last.c, memory);
      }
    }
  }

  /** The step that armed the pending wait. */
  lemma {:induction false} ArmedBy(now: nat, steps: seq<N.Step>) returns (i: nat)
    requires Deadline(now, steps).Some?
    ensures i < |steps| && Arms(steps[i]) && forall m :: i < m < |steps| ==> !Arms(steps[m])
    ensures Deadline(now, steps).value
         == 10 + if steps[i].s.Opened? then now else Clock(now, steps[..i])
  {
    var init, last := steps[..|steps| - 1], steps[|steps| - 1];
    if Arms(last) {
      i := |steps| - 1;
    } else {
      i := ArmedBy(now, init);
      assert steps[..i] == init[..i];
    }
  }

  lemma {:induction false} PrefixRuns(now: nat, steps: seq<N.Step>, k: nat, memory: N.Memory)
    requires N.Run(now, steps, memory).Some? && k <= |steps|
    ensures N.Run(now, steps[..k], memory).Some?
    decreases |steps| - k
  {
    hide N.Run, N.Inv, N.Enabled, N.Apply;
    if k == |steps| {
      assert steps[..k] == steps;
    } else {
      PrefixRuns(now, steps, k + 1, memory);
      LastStep(now, steps[..k + 1], memory);
      assert steps[..k + 1][..k] == steps[..k];
    }
  }

  /** A wait that expires in a run was armed ten seconds earlier or more, and since then no header
      was accepted and no other wait armed. (The wait of `start` counts from the construction of
      the session.) */
  lemma ExpiresAfterSilence(now: nat, steps: seq<N.Step>, j: nat, memory: N.Memory) returns (i: nat)
    requires N.Run(now, steps, memory).Some? && j < |steps| && Expiry(steps[j])
    ensures i < j && Arms(steps[i]) && forall m :: i < m < j ==> !Arms(steps[m])
    ensures Clock(now, steps[..j]) >= 10 + if steps[i].s.Opened? then now else Clock(now, steps[..i])
  {
    hide N.Run, N.Inv, N.Apply, Arms;
    PrefixRuns(now, steps, j + 1, memory);
    LastStep(now, steps[..j + 1], memory);
    assert steps[..j + 1][..j] == steps[..j];
    TimerIsRead(now, steps[..j], memory);
    var timer, k := N.Run(now, steps[..j], memory).value.session.timer, steps[j].s.k;
    assert S.Deadlines(timer)[k] == timer.waits[k].deadline;
    i := ArmedBy(now, steps[..j]);
    assert steps[..j][..i] == steps[..i];
  }

  /** Conversely, the next expiry can happen exactly when the steps say that a deadline is pending
      and has passed, and a heartbeat can be sent exactly when more waits expired than were
      handled. */
  lemma TimerCanMove(now: nat, steps: seq<N.Step>, memory: N.Memory)
    requires N.Run(now, steps, memory).Some?
    ensures var n := N.Run(now, steps, memory).value;
            && (N.Enabled(n, N.AtSession(S.TimerExpired(0)))
                <==> Deadline(now, steps).Some? && Deadline(now, steps).value <= Clock(now, steps))
            && (N.Enabled(n, N.AtSession(S.TimerHandled(0))) <==> Count(steps, Beat) < Count(steps, Expiry))
  {
    hide N.Run, Expiry, Beat, Count, Deadline;
    TimerIsRead(now, steps, memory);
    Counted(now, steps, memory);
    var timer := N.Run(now, steps, memory).value.session.timer;
    if timer.waits != [] {
      assert S.Deadlines(timer)[0] == timer.waits[0].deadline;
    }
  }
}
