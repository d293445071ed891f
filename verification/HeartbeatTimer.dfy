/** The `deadline_timer` of a session. Completions that were already queued when `cancel` runs
    are still delivered as success. */
module HeartbeatTimer {
  const HEARTBEAT_INTERVAL: nat := 10

  /** The `index`-th `async_wait`, armed at `armedAt` when `headers` headers had been accepted. */
  datatype Wait = Wait(index: nat, armedAt: nat, deadline: nat, headers: nat)

  /** A wait that expired at `at`, when `headers` headers had been accepted. */
  datatype Expiry = Expiry(wait: Wait, at: nat, headers: nat)

  /** `waits` are pending, `ready` have a successful completion queued; `armed` counts the calls
      of `async_wait`. */
  datatype Timer = Timer(deadline: nat, waits: seq<Wait>, ready: seq<Expiry>, armed: nat)

  function NewTimer(now: nat): Timer {
    Timer(now + HEARTBEAT_INTERVAL, [], [], 0)
  }

  function Cancel(t: Timer): Timer {
    t.(waits := [])
  }

  /** `expires_from_now` cancels the pending waits too. */
  function ExpiresFromNow(t: Timer, now: nat): Timer {
    Cancel(t).(deadline := now + HEARTBEAT_INTERVAL)
  }

  function AsyncWait(t: Timer, now: nat, headers: nat): Timer {
    t.(waits := t.waits + [Wait(t.armed, now, t.deadline, headers)], armed := t.armed + 1)
  }

  /** The clock passed the deadline of the k-th pending wait. */
  function Expire(t: Timer, k: nat, now: nat, headers: nat): Timer
    requires k < |t.waits|
  {
    t.(waits := t.waits[..k] + t.waits[k + 1..], ready := t.ready + [Expiry(t.waits[k], now, headers)])
  }

  /** The handler of the k-th queued completion starts. */
  function Take(t: Timer, k: nat): Timer
    requires k < |t.ready|
  {
    t.(ready := t.ready[..k] + t.ready[k + 1..])
  }

  /** Not before its deadline; and, unless it is the first wait, not before ten seconds without
      an accepted header have passed since it was armed. */
  predicate Due(e: Expiry) {
    && e.wait.deadline <= e.at
    && (e.wait.index > 0 ==> e.wait.armedAt + HEARTBEAT_INTERVAL <= e.at && e.wait.headers == e.headers)
  }

  predicate WaitRight(w: Wait, t: Timer, now: nat, headers: nat) {
    && w.index < t.armed && w.armedAt <= now && w.headers == headers
    && (w.index > 0 ==> w.deadline == w.armedAt + HEARTBEAT_INTERVAL)
  }

  predicate Inv(t: Timer, now: nat, headers: nat) {
    && |t.waits| <= 1
    && (forall w <- t.waits :: WaitRight(w, t, now, headers))
    && (forall e <- t.ready :: Due(e))
  }

  lemma RearmKeeps(t: Timer, now: nat, headers: nat, before: nat, next: nat)
    requires Inv(t, before, headers) && before <= now && t.armed > 0
    ensures var armed := AsyncWait(ExpiresFromNow(t, now), now, next);
            Inv(armed, now, next) && |armed.waits| == 1
  {
  }

  lemma ExpireKeeps(t: Timer, k: nat, now: nat, headers: nat)
    requires Inv(t, now, headers) && k < |t.waits| && t.waits[k].deadline <= now
    ensures Inv(Expire(t, k, now, headers), now, headers)
  {
    assert t.waits[k] in t.waits;
    assert Due(Expiry(t.waits[k], now, headers));
  }

  lemma TakeKeeps(t: Timer, k: nat, now: nat, headers: nat)
    requires Inv(t, now, headers) && k < |t.ready|
    ensures Inv(Take(t, k), now, headers) && Due(t.ready[k])
  {
    assert t.ready[k] in t.ready;
  }
}
