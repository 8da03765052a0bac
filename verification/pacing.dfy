/**
  Pacing of customer messages: the gates of `notifyOrder` and the one timestamp that spaces sends.

  Times are milliseconds. `sends` is the ghost history of the clock values at which a message was
  given its place; `Scheduled` is the send time each of them was given.
*/
module Pacing {
  import opened Common
  import opened Text

  const GAP: nat := 30000
  const CAP: nat := 900000

  datatype SkipReason = Disabled | NoOrder | NoPhone | OptOut | AlreadySent | TestOrder | DailyLimit

  datatype Config = Config(enabled: bool, sentToday: nat, dailyLimit: nat)

  datatype Order = Order(hasPhone: bool, optOut: bool, notified: bool, isTest: bool)

  /** `Unsent`: an await threw; `scheduled` tells whether that was after the timestamp had moved. */
  datatype NotifyResult = Skipped(reason: SkipReason) | Sent(delayMs: nat) | Unsent(scheduled: bool)

  /** What the awaits after the gates do: the public token, the queueing, the mark on the order. */
  datatype Awaits = Awaits(token: bool, queued: bool, marked: bool)

  predicate Admitted(cfg: Config, order: Option<Order>, force: bool) {
    && (cfg.enabled || force)
    && order.Some?
    && order.value.hasPhone && !order.value.optOut
    && (force || (!order.value.notified && !order.value.isTest))
    && cfg.sentToday < cfg.dailyLimit
  }

  /** The gates in the order they are asked: a reason is given when its gate fails and those before it do not. */
  predicate Fails(cfg: Config, order: Option<Order>, force: bool, gate: SkipReason) {
    match gate
    case Disabled => !cfg.enabled && !force
    case NoOrder => order.None?
    case NoPhone => order.Some? && !order.value.hasPhone
    case OptOut => order.Some? && order.value.optOut
    case AlreadySent => !force && order.Some? && order.value.notified
    case TestOrder => !force && order.Some? && order.value.isTest
    case DailyLimit => cfg.sentToday >= cfg.dailyLimit
  }

  function Place(gate: SkipReason): nat {
    match gate
    case Disabled => 0
    case NoOrder => 1
    case NoPhone => 2
    case OptOut => 3
    case AlreadySent => 4
    case TestOrder => 5
    case DailyLimit => 6
  }

  predicate FirstFailing(cfg: Config, order: Option<Order>, force: bool, reason: SkipReason) {
    && Fails(cfg, order, force, reason)
    && forall g: SkipReason :: Place(g) < Place(reason) ==> !Fails(cfg, order, force, g)
  }

  /** Whatever the button does: no phone number, an opt-out or a full day always stop a message. */
  lemma NeverSentTo(cfg: Config, order: Option<Order>, force: bool)
    requires Admitted(cfg, order, force)
    ensures order.Some? && order.value.hasPhone && !order.value.optOut && cfg.sentToday < cfg.dailyLimit
    ensures !force ==> cfg.enabled && !order.value.notified && !order.value.isTest
  {
  }

  /** A message goes out exactly when no gate fails. */
  lemma AdmittedIff(cfg: Config, order: Option<Order>, force: bool)
    ensures Admitted(cfg, order, force) <==> forall g: SkipReason :: !Fails(cfg, order, force, g)
  {
    if forall g: SkipReason :: !Fails(cfg, order, force, g) {
      assert !Fails(cfg, order, force, Disabled) && !Fails(cfg, order, force, NoOrder);
      assert !Fails(cfg, order, force, NoPhone) && !Fails(cfg, order, force, OptOut);
      assert !Fails(cfg, order, force, AlreadySent) && !Fails(cfg, order, force, TestOrder);
      assert !Fails(cfg, order, force, DailyLimit);
    }
  }

  function Max(a: nat, b: nat): nat { if a < b then b else a }

  /** The send time given to the last of `sends`; 0 before the first. */
  function Scheduled(sends: seq<nat>): nat {
    if sends == [] then 0
    else
      var now := sends[|sends| - 1];
      now + Min(Max(now, Scheduled(sends[..|sends| - 1]) + GAP) - now, CAP)
  }

  class CustomerNotify {
    var lastScheduledAt: nat
    ghost var sends: seq<nat>

    ghost predicate Valid()
      reads this
    {
      lastScheduledAt == Scheduled(sends)
    }

    constructor ()
      ensures Valid() && sends == []
    {
      lastScheduledAt := 0;
      sends := [];
    }

    /**
      `notifyOrder`, with what the database returned, the clock at the moment of pacing, and which
      of the awaits succeed. A send that throws has used up its place in the queue.
    */
    method NotifyOrder(cfg: Config, order: Option<Order>, force: bool, now: nat, io: Awaits) returns (r: NotifyResult)
      requires Valid()
      modifies this
      ensures Valid()
      ensures r.Skipped? <==> !Admitted(cfg, order, force)
      ensures r.Skipped? ==> FirstFailing(cfg, order, force, r.reason)
      ensures r.Sent? <==> Admitted(cfg, order, force) && io.token && io.queued && io.marked
      ensures r.Unsent? ==> (r.scheduled <==> io.token)
      ensures sends == if r.Sent? || r == Unsent(true) then old(sends) + [now] else old(sends)
      ensures r.Sent? ==> now + r.delayMs == lastScheduledAt
      ensures r.Sent? || r == Unsent(true) ==> now <= lastScheduledAt <= now + CAP
      ensures r.Skipped? || r == Unsent(false) ==> lastScheduledAt == old(lastScheduledAt)
    {
      if !cfg.enabled && !force { return Skipped(Disabled); }
      if order.None? { return Skipped(NoOrder); }
      var info := order.value;
      if !info.hasPhone { return Skipped(NoPhone); }
      if info.optOut { return Skipped(OptOut); }
      if !force && info.notified { return Skipped(AlreadySent); }
      if !force && info.isTest { return Skipped(TestOrder); }
      if cfg.sentToday >= cfg.dailyLimit { return Skipped(DailyLimit); }
      if !io.token { return Unsent(false); }
      var base := Max(now, lastScheduledAt + GAP);
      var delayMs := Min(base - now, CAP);
      lastScheduledAt := now + delayMs;
      assert (sends + [now])[..|sends|] == sends;
      sends := sends + [now];
      if !io.queued || !io.marked { return Unsent(true); }
      r := Sent(delayMs);
    }
  }

  // ---- every arrival pattern ----

  predicate Nondecreasing(ts: seq<nat>) {
    forall i, j :: 0 <= i <= j < |ts| ==> ts[i] <= ts[j]
  }

  /** The send time of message `i`. */
  function At(ts: seq<nat>, i: nat): nat
    requires i < |ts|
  {
    Scheduled(ts[..i + 1])
  }

  /** The previous send time plus the gap lies beyond the cap, so the cap cuts the delay short. */
  predicate CutShort(ts: seq<nat>, i: nat)
    requires i < |ts|
  {
    Scheduled(ts[..i]) + GAP > ts[i] + CAP
  }

  lemma AtStep(ts: seq<nat>, i: nat)
    requires i < |ts|
    ensures At(ts, i) == if CutShort(ts, i) then ts[i] + CAP else Max(ts[i], Scheduled(ts[..i]) + GAP)
  {
    assert ts[..i + 1][..i] == ts[..i];
  }

  /** Delays stay within the cap and send times never decrease. */
  lemma DelaysBounded(ts: seq<nat>, i: nat)
    requires Nondecreasing(ts) && i < |ts|
    ensures ts[i] <= At(ts, i) <= ts[i] + CAP
    ensures i > 0 ==> At(ts, i - 1) <= At(ts, i)
  {
    AtStep(ts, i);
    if i > 0 {
      AtStep(ts, i - 1);
    }
  }

  /** Consecutive sends are at least 30 s apart exactly when the later one was not cut short. */
  lemma SpacedUnlessCut(ts: seq<nat>, i: nat)
    requires 0 < i < |ts|
    ensures At(ts, i) >= At(ts, i - 1) + GAP <==> !CutShort(ts, i)
    ensures CutShort(ts, i) ==> At(ts, i) == ts[i] + CAP
  {
    AtStep(ts, i);
  }

  /** Going back from a late send time, the queue was full: each send is one gap after the one before. */
  lemma {:induction false} QueueBehind(ts: seq<nat>, i: nat, k: nat)
    requires Nondecreasing(ts) && i < |ts| && CutShort(ts, i)
    requires forall j :: 0 <= j < i ==> !CutShort(ts, j)
    requires k < 30
    ensures k < i && At(ts, i - 1 - k) > ts[i] + CAP - GAP - GAP * k
  {
    assert ts[..0] == [];
    if k > 0 {
      QueueBehind(ts, i, k - 1);
      AtStep(ts, i - k);
    }
  }

  /** The first send that is cut short finds at least 30 earlier sends still in the future. */
  lemma FirstCutNeedsThirty(ts: seq<nat>, i: nat)
    requires Nondecreasing(ts) && i < |ts| && CutShort(ts, i)
    requires forall j :: 0 <= j < i ==> !CutShort(ts, j)
    ensures i >= 30 && forall j :: i - 30 <= j < i ==> At(ts, j) > ts[i]
  {
    QueueBehind(ts, i, 29);
    forall j | i - 30 <= j < i ensures At(ts, j) > ts[i] {
      QueueBehind(ts, i, i - 1 - j);
    }
  }

  // ---- a burst at one instant ----

  function Burst(t: nat, n: nat): (b: seq<nat>)
    ensures |b| == n
  {
    seq(n, _ => t)
  }

  lemma {:induction false} BurstTimes(t: nat, n: nat, i: nat)
    requires t >= GAP && i < n
    ensures At(Burst(t, n), i) == t + Min(GAP * i, CAP)
  {
    var b := Burst(t, n);
    AtStep(b, i);
    if i == 0 {
      assert b[..0] == [];
    } else {
      BurstTimes(t, n, i - 1);
    }
  }

  /**
    Thirty is tight: of messages that arrive together the 32nd is the first to be cut short, with
    exactly 30 sends still to come; and from there on all of them share one send time.
  */
  lemma BurstCutsAtThirtyTwo(t: nat, n: nat, i: nat)
    requires t >= GAP && i < n
    ensures CutShort(Burst(t, n), i) <==> i >= 31
    ensures At(Burst(t, n), i) > t <==> i > 0
    ensures i >= 31 ==> At(Burst(t, n), i) == At(Burst(t, n), i - 1)
  {
    BurstTimes(t, n, i);
    if i == 0 {
      assert Burst(t, n)[..0] == [];
    } else {
      BurstTimes(t, n, i - 1);
    }
  }
}
