/**
  When a change of the networks is seen, and runs in which a completed change or save is not.
*/
module NetworkChanges {
  import opened Text
  import opened Network
  import opened NetworkVisit

  // ---- when a change is seen ----

  /** The cached status can still be used. */
  predicate Usable(s: State, ip: string) { FreshIp(s.caches, ip, s.now).Some? }

  /** No older address status is usable or in flight: everything is from version `v` on. */
  predicate SeesChange(s: State, v: nat) {
    && s.statusesVersion >= v
    && (forall ip :: ip in s.caches.ip && Usable(s, ip) ==> s.caches.ip[ip].read.version >= v)
    && (forall id :: id in s.reqs && s.reqs[id].IpWait? && s.reqs[id].status.Some? ==>
          s.reqs[id].status.value.version >= v)
  }

  /** Checks outside `before` used a status of version `v` or later. */
  predicate UsesFrom(s: State, before: set<nat>, v: nat) {
    forall id :: id in s.reqs && id !in before && s.reqs[id].Answered? && s.reqs[id].ipUse.Some? ==>
      s.reqs[id].ipUse.value.entry.read.version >= v
  }

  lemma NextSeesChange(s: State, e: Event, v: nat, before: set<nat>)
    requires SeesChange(s, v) && UsesFrom(s, before, v) && Enabled(s, e)
    ensures SeesChange(Next(s, e), v) && UsesFrom(Next(s, e), before, v)
  {
    hide Guards;
  }

  /** The checks that were answered before. */
  function Answers(s: State): set<nat> { set id | id in s.reqs && s.reqs[id].Answered? }

  /** From such a state on, every check still to be answered uses a status of version `v` or later. */
  lemma {:induction false} ChangeSeenForEver(s: State, es: seq<Event>, v: nat)
    requires SeesChange(s, v) && Run(s, es).Some?
    ensures SeesChange(Run(s, es).value, v) && UsesFrom(Run(s, es).value, Answers(s), v)
  {
    hide Next, Enabled;
    if es != [] {
      ChangeSeenForEver(s, es[..|es| - 1], v);
      NextSeesChange(Run(s, es[..|es| - 1]).value, es[|es| - 1], v, Answers(s));
    }
  }

  /** Cached and fetched statuses never run ahead of the database. */
  predicate IpVersionsOk(s: State) {
    && (forall ip :: ip in s.caches.ip ==> s.caches.ip[ip].read.version <= s.statusesVersion)
    && (forall id :: id in s.reqs && s.reqs[id].IpWait? && s.reqs[id].status.Some? ==>
          s.reqs[id].status.value.version <= s.statusesVersion)
  }

  lemma NextIpVersions(s: State, e: Event)
    requires IpVersionsOk(s) && Enabled(s, e)
    ensures IpVersionsOk(Next(s, e))
  {
    hide Guards;
  }

  lemma {:induction false} AlwaysIpVersions(now: nat, screens: set<string>, statuses: map<string, IpStatus>,
                                            es: seq<Event>)
    requires Run(Initial(now, screens, statuses), es).Some?
    ensures IpVersionsOk(Run(Initial(now, screens, statuses), es).value)
  {
    hide Next, Enabled;
    if es != [] {
      AlwaysIpVersions(now, screens, statuses, es[..|es| - 1]);
      NextIpVersions(Run(Initial(now, screens, statuses), es[..|es| - 1]).value, es[|es| - 1]);
    }
  }

  // ---- what later checks use ----

  /** However it goes on, no check that begins after `s` is decided by a status older than version `v`. */
  ghost predicate LaterChecksSee(s: State, v: nat) {
    forall es :: Run(s, es).Some? ==> UsesFrom(Run(s, es).value, s.reqs.Keys, v)
  }

  /** Every cached status has expired and no address read is on its way back. */
  predicate NothingOld(s: State) {
    && (forall ip :: ip in s.caches.ip ==> s.now >= s.caches.ip[ip].at + IP_TTL)
    && (forall id :: id in s.reqs && s.reqs[id].IpWait? ==> s.reqs[id].status.None?)
  }

  lemma Above(s: set<nat>) returns (n: nat)
    ensures forall x :: x in s ==> x < n
  {
    n := 0;
    if s != {} {
      var x :| x in s;
      var m := Above(s - {x});
      n := if x < m then m else x + 1;
      assert s == s - {x} + {x};
    }
  }

  /** Save `n` makes a guarded controller of "orders". */
  lemma OrdersGuarded(s: State, n: nat) returns (t: State)
    requires n !in s.reqs
    ensures Run(s, [SaveBegins(n, {"/orders"}), SaveWrites(n)] + [SaveEnds(n)]) == Some(t)
    ensures t.screens == {"/orders"} && t.caches == Busted(s.caches) && t.now == s.now
    ensures t.reqs.Keys == s.reqs.Keys + {n}
  {
    hide Run, Guards;
    var routes := {"/orders"};
    RunTwo(s, SaveBegins(n, routes), SaveWrites(n));
    var u := Next(Next(s, SaveBegins(n, routes)), SaveWrites(n));
    t := Next(u, SaveEnds(n));
    var first := [SaveBegins(n, routes), SaveWrites(n)];
    RunStep(s, first, SaveEnds(n), first + [SaveEnds(n)]);
  }

  lemma OrdersIsGuarded()
    ensures Guards({"/orders"}, "orders")
  {
    assert CONTROLLER_SCREENS[0].0 == "orders" && CONTROLLER_SCREENS[0].1 == ["/orders"];
    assert AllGuarded(CONTROLLER_SCREENS[0].1, {"/orders"});
  }

  /** A new check of "orders" is decided by the usable cached status. */
  lemma CheckUsesCache(s: State, m: nat, ip: string) returns (t: State)
    requires m !in s.reqs && s.screens == {"/orders"} && s.caches.guard.None? && ip in s.caches.ip && Usable(s, ip)
    ensures Run(s, [Ask(m, "orders", ip), ReadGuard(m), GuardArrives(m), GoOn(m)]) == Some(t)
    ensures m in t.reqs && t.reqs[m].Answered? && t.reqs[m].ipUse == Some(Use(s.caches.ip[ip], s.now))
  {
    hide Run, Guards;
    OrdersIsGuarded();
    RunFour(s, Ask(m, "orders", ip), ReadGuard(m), GuardArrives(m), GoOn(m));
    t := Next(Next(Next(Next(s, Ask(m, "orders", ip)), ReadGuard(m)), GuardArrives(m)), GoOn(m));
  }

  /** A usable cached status decides some check that has not begun yet. */
  lemma CachedIsUsed(s: State, ip: string) returns (es: seq<Event>, m: nat)
    requires ip in s.caches.ip && Usable(s, ip)
    ensures Run(s, es).Some? && m !in s.reqs
    ensures var t := Run(s, es).value;
            m in t.reqs && t.reqs[m].Answered? && t.reqs[m].ipUse == Some(Use(s.caches.ip[ip], s.now))
  {
    hide Run, Guards, Next, Enabled;
    var n := Above(s.reqs.Keys);
    m := n + 1;
    var t := OrdersGuarded(s, n);
    var save := [SaveBegins(n, {"/orders"}), SaveWrites(n)] + [SaveEnds(n)];
    assert t.caches.ip == s.caches.ip && FreshIp(t.caches, ip, t.now) == FreshIp(s.caches, ip, s.now);
    var u := CheckUsesCache(t, m, ip);
    var check := [Ask(m, "orders", ip), ReadGuard(m), GuardArrives(m), GoOn(m)];
    RunConcat(s, save, check);
    es := save + check;
  }

  /** An address read on its way back decides some check that has not begun yet. */
  lemma FetchedIsUsed(s: State, j: nat) returns (es: seq<Event>, m: nat)
    requires j in s.reqs && s.reqs[j].IpWait? && s.reqs[j].status.Some?
    ensures Run(s, es).Some? && m !in s.reqs
    ensures var t := Run(s, es).value;
            m in t.reqs && t.reqs[m].Answered? && t.reqs[m].ipUse.Some? &&
            t.reqs[m].ipUse.value.entry.read == s.reqs[j].status.value
  {
    hide Run, Guards;
    var t := Next(s, IpArrives(j));
    var ip := s.reqs[j].ip;
    RunNothing(s);
    RunStep(s, [], IpArrives(j), [IpArrives(j)]);
    assert t.caches.ip[ip] == Entry(s.reqs[j].status.value, t.now) && Usable(t, ip);
    var more;
    more, m := CachedIsUsed(t, ip);
    RunConcat(s, [IpArrives(j)], more);
    es := [IpArrives(j)] + more;
  }

  /**
    In every run: a network change that completes is seen by every check that begins after it,
    however the run goes on, exactly when, as it is written, every cached status has expired and
    no address read is on its way back. Clearing the cache when the change begins gives neither.
  */
  lemma CompletedChangeSeen(now: nat, screens: set<string>, statuses: map<string, IpStatus>, es: seq<Event>,
                            changed: map<string, IpStatus>)
    requires Run(Initial(now, screens, statuses), es).Some?
    ensures var s := Run(Initial(now, screens, statuses), es).value;
            LaterChecksSee(Next(s, NetworksWrite(changed)), s.statusesVersion + 1) <==> NothingOld(s)
  {
    AlwaysIpVersions(now, screens, statuses, es);
    var s := Run(Initial(now, screens, statuses), es).value;
    if NothingOld(s) {
      NothingOldIsSeen(s, changed);
    } else {
      OldIsUsed(s, changed);
    }
  }

  lemma NothingOldIsSeen(s: State, changed: map<string, IpStatus>)
    requires NothingOld(s)
    ensures LaterChecksSee(Next(s, NetworksWrite(changed)), s.statusesVersion + 1)
  {
    hide Run, UsesFrom;
    var t, v := Next(s, NetworksWrite(changed)), s.statusesVersion + 1;
    assert SeesChange(t, v);
    forall es | Run(t, es).Some? ensures UsesFrom(Run(t, es).value, t.reqs.Keys, v) {
      ChangeSeenForEver(t, es, v);
      UsesFromFewer(Run(t, es).value, Answers(t), t.reqs.Keys, v);
    }
  }

  lemma UsesFromFewer(s: State, a: set<nat>, b: set<nat>, v: nat)
    requires UsesFrom(s, a, v) && a <= b
    ensures UsesFrom(s, b, v)
  {
  }

  lemma OldIsUsed(s: State, changed: map<string, IpStatus>)
    requires IpVersionsOk(s) && !NothingOld(s)
    ensures !LaterChecksSee(Next(s, NetworksWrite(changed)), s.statusesVersion + 1)
  {
    hide Run;
    var t := Next(s, NetworksWrite(changed));
    var es, m;
    if j :| j in s.reqs && s.reqs[j].IpWait? && s.reqs[j].status.Some? {
      es, m := FetchedIsUsed(t, j);
    } else {
      var ip :| ip in s.caches.ip && s.now < s.caches.ip[ip].at + IP_TTL;
      es, m := CachedIsUsed(t, ip);
    }
    assert !UsesFrom(Run(t, es).value, t.reqs.Keys, s.statusesVersion + 1);
  }

  // ---- a change that is missed ----

  /** A check of a guarded controller up to its address lookup, from the start. */
  lemma FirstCheck(now: nat, screens: set<string>, statuses: map<string, IpStatus>, ctrl: string, ip: string)
    returns (t: State)
    requires Guards(screens, ctrl)
    ensures Run(Initial(now, screens, statuses), [Ask(1, ctrl, ip), ReadGuard(1), GuardArrives(1), GoOn(1)]) == Some(t)
    ensures var entry := Entry(Read(now, 0, screens), now);
            && t.now == now && t.caches == Caches(Some(entry), map[])
            && t.reqs == map[1 := IpWait(ctrl, ip, Some(Use(entry, now)), None)]
            && t.statuses == statuses && t.statusesVersion == 0
  {
    hide Guards, Run;
    var s := Initial(now, screens, statuses);
    RunFour(s, Ask(1, ctrl, ip), ReadGuard(1), GuardArrives(1), GoOn(1));
    t := Next(Next(Next(Next(s, Ask(1, ctrl, ip)), ReadGuard(1)), GuardArrives(1)), GoOn(1));
  }

  /** The change begins, the check's address is read and stored, the change is written. */
  lemma RefilledBeforeWrite(s: State, changed: map<string, IpStatus>) returns (t: State)
    requires s.reqs.Keys == {1} && s.reqs[1].IpWait? && s.reqs[1].status.None?
    ensures Run(s, [NetworksBegin, ReadIp(1), IpArrives(1), NetworksWrite(changed)]) == Some(t)
    ensures t.now == s.now && t.caches.guard == s.caches.guard && t.statusesVersion == s.statusesVersion + 1
    ensures t.caches.ip ==
            map[s.reqs[1].ip := Entry(Read(s.now, s.statusesVersion, Status(s, s.reqs[1].ip)), s.now)]
    ensures t.reqs.Keys == {1} && t.reqs[1].Answered?
  {
    hide Guards, Run;
    RunFour(s, NetworksBegin, ReadIp(1), IpArrives(1), NetworksWrite(changed));
    t := Next(Next(Next(Next(s, NetworksBegin), ReadIp(1)), IpArrives(1)), NetworksWrite(changed));
  }

  /**
    Changing the networks clears the address cache before the write, not after it. A check whose
    address read falls in between refills the cache; the change completes with nothing in flight;
    and a check that begins after that is decided by the status from before the change.
  */
  lemma NetworkChangeMissed(now: nat, screens: set<string>, statuses: map<string, IpStatus>, ctrl: string, ip: string,
                            changed: map<string, IpStatus>)
    requires Guards(screens, ctrl)
    ensures var before := if ip in statuses then statuses[ip] else OPEN;
            var t := Run(Initial(now, screens, statuses),
                         [Ask(1, ctrl, ip), ReadGuard(1), GuardArrives(1), GoOn(1)] +
                         [NetworksBegin, ReadIp(1), IpArrives(1), NetworksWrite(changed)] +
                         [Ask(2, ctrl, ip), GoOn(2)]);
            && t.Some? && t.value.statusesVersion == 1
            && 2 in t.value.reqs && t.value.reqs[2].Answered? && t.value.reqs[2].ipUse.Some?
            && t.value.reqs[2].ipUse.value.entry.read == Read(now, 0, before)
            && (t.value.reqs[2].blocked <==> Refuses(before))
  {
    hide Guards, Run;
    var check := [Ask(1, ctrl, ip), ReadGuard(1), GuardArrives(1), GoOn(1)];
    var change := [NetworksBegin, ReadIp(1), IpArrives(1), NetworksWrite(changed)];
    var s := FirstCheck(now, screens, statuses, ctrl, ip);
    var t := RefilledBeforeWrite(s, changed);
    RunConcat(Initial(now, screens, statuses), check, change);
    RunTwo(t, Ask(2, ctrl, ip), GoOn(2));
    RunConcat(Initial(now, screens, statuses), check + change, [Ask(2, ctrl, ip), GoOn(2)]);
  }

  // ---- a block that rests on old reads ----

  /**
    The times to live count from when a read is stored, not from when it saw the database: a block
    can rest on a guard set read `d` ms and an address status read `e` ms before they were used, for
    every `d` and `e`.
  */
  lemma BlockedOnOldReads(now: nat, screens: set<string>, statuses: map<string, IpStatus>, ctrl: string, ip: string,
                          d: nat, e: nat)
    requires Guards(screens, ctrl) && ip in statuses && Refuses(statuses[ip])
    ensures var s := Initial(now, screens, statuses);
            var t := Run(s, Events(s, 1, ctrl, ip, Waits(0, d, 0, 0, e), true, true));
            && t.Some? && 1 in t.value.reqs && t.value.reqs[1].Answered? && t.value.reqs[1].blocked
            && t.value.reqs[1].guard.Some? && t.value.reqs[1].ipUse.Some?
            && t.value.reqs[1].guard.value.usedAt - t.value.reqs[1].guard.value.entry.read.at == d
            && t.value.reqs[1].ipUse.value.usedAt - t.value.reqs[1].ipUse.value.entry.read.at == e
  {
    hide Run, Guards, Events;
    VisitIsRun(Initial(now, screens, statuses), 1, ctrl, ip, Waits(0, d, 0, 0, e), true, true);
  }

  // ---- a save that is undone ----

  /** Check 1 has read the guard set when save 2 writes another; the save completes, and the read arrives after it. */
  lemma CompletedSaveUndone(now: nat, screens: set<string>, statuses: map<string, IpStatus>, ctrl: string, ip: string,
                            saved: set<string>)
    ensures var t := Run(Initial(now, screens, statuses),
                         [Ask(1, ctrl, ip), ReadGuard(1), SaveBegins(2, saved), SaveWrites(2)] +
                         [SaveEnds(2), GuardArrives(1), Ask(3, ctrl, ip)]);
            && t.Some? && 3 in t.value.reqs && GuardOf(t.value.reqs[3]).Some?
            && GuardOf(t.value.reqs[3]).value.entry.read == Read(now, 0, screens)
  {
    hide Run, Guards;
    var s0 := Initial(now, screens, statuses);
    var first := [Ask(1, ctrl, ip), ReadGuard(1), SaveBegins(2, saved), SaveWrites(2)];
    RunFour(s0, Ask(1, ctrl, ip), ReadGuard(1), SaveBegins(2, saved), SaveWrites(2));
    var s := Next(Next(Next(Next(s0, Ask(1, ctrl, ip)), ReadGuard(1)), SaveBegins(2, saved)), SaveWrites(2));
    assert s.reqs == map[1 := GuardWait(ctrl, ip, Some(Read(now, 0, screens))), 2 := Saving(saved, Some(1))];
    StaleFetchReturns(s, 2, 1, 3, ctrl, ip);
    RunConcat(s0, first, [SaveEnds(2), GuardArrives(1), Ask(3, ctrl, ip)]);
  }

  // ---- when a save is seen by later checks ----

  /** However it goes on, no check that begins after `s` gets a guard set older than version `v`. */
  ghost predicate LaterChecksGet(s: State, v: nat) {
    forall es :: Run(s, es).Some? ==> GetFrom(Run(s, es).value, s.reqs.Keys, v)
  }

  predicate GetFrom(s: State, before: set<nat>, v: nat) {
    forall id :: id in s.reqs && id !in before && GuardOf(s.reqs[id]).Some? ==>
      GuardOf(s.reqs[id]).value.entry.read.version >= v
  }

  /**
    A completed save is seen by every check that begins after it, however the run goes on, exactly
    when no guard fetch that read an older version is still in flight.
  */
  lemma CompletedSaveSeenLater(s: State, id: nat)
    requires Enabled(s, SaveEnds(id)) && s.screensVersion >= s.reqs[id].written.value
    ensures LaterChecksGet(Next(s, SaveEnds(id)), s.reqs[id].written.value) <==>
            forall j :: j in s.reqs && s.reqs[j].GuardWait? && s.reqs[j].got.Some? ==>
              s.reqs[j].got.value.version >= s.reqs[id].written.value
  {
    hide Run, Next;
    var t, v := Next(s, SaveEnds(id)), s.reqs[id].written.value;
    CompletedSaveSeen(s, id);
    if SeesSave(t, v) {
      forall es | Run(t, es).Some? ensures GetFrom(Run(t, es).value, t.reqs.Keys, v) {
        SaveSeenForEver(t, es, v);
      }
    } else {
      var j :| j in s.reqs && s.reqs[j].GuardWait? && s.reqs[j].got.Some? && s.reqs[j].got.value.version < v;
      StaleIsUsed(s, id, j);
    }
  }

  lemma StaleIsUsed(s: State, id: nat, j: nat)
    requires Enabled(s, SaveEnds(id)) && j in s.reqs && s.reqs[j].GuardWait? && s.reqs[j].got.Some?
    requires s.reqs[j].got.value.version < s.reqs[id].written.value
    ensures !LaterChecksGet(Next(s, SaveEnds(id)), s.reqs[id].written.value)
  {
    hide Run;
    var t := Next(s, SaveEnds(id));
    var k := Above(s.reqs.Keys);
    StaleFetchReturns(s, id, j, k, "", "");
    var es := [GuardArrives(j), Ask(k, "", "")];
    assert [SaveEnds(id)] + es == [SaveEnds(id), GuardArrives(j), Ask(k, "", "")];
    RunConcat(s, [SaveEnds(id)], es);
    RunNothing(s);
    RunStep(s, [], SaveEnds(id), [SaveEnds(id)]);
    assert !GetFrom(Run(t, es).value, t.reqs.Keys, s.reqs[id].written.value);
  }
}
