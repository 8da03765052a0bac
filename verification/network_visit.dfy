/**
  One request on its own: what `isBlocked` does to the caches and answers is what the events of
  that request do in a run.
*/
module NetworkVisit {
  import opened Text
  import opened Network

  /**
    How long each stretch takes: to the guard read, to its arrival, to going on, to the address read, to
    its arrival.
  */
  datatype Waits = Waits(guardRead: nat, guardBack: nat, goOn: nat, ipRead: nat, ipBack: nat)

  /** What the awaits of a request that starts in `s` return, when nothing else happens meanwhile. */
  function VisitOf(s: State, ip: string, w: Waits, guardOk: bool, ipOk: bool): Visit {
    var guardRead := s.now + w.guardRead;
    var guardAt := if FreshGuard(s.caches, s.now).Some? then s.now else guardRead + w.guardBack;
    var wentOn := guardAt + w.goOn;
    var ipRead := wentOn + w.ipRead;
    Visit(s.now, if guardOk then Some(Read(guardRead, s.screensVersion, s.screens)) else None, guardAt,
          wentOn, if ipOk then Some(Read(ipRead, s.statusesVersion, Status(s, ip))) else None, ipRead + w.ipBack)
  }

  function GuardEvents(s: State, id: nat, ctrl: string, ip: string, w: Waits, ok: bool): seq<Event> {
    if FreshGuard(s.caches, s.now).Some? then [Ask(id, ctrl, ip)]
    else [Ask(id, ctrl, ip), Tick(w.guardRead), ReadGuard(id), Tick(w.guardBack),
          if ok then GuardArrives(id) else GuardFails(id)]
  }

  function IpEvents(id: nat, w: Waits, ok: bool): seq<Event> {
    [Tick(w.ipRead), ReadIp(id), Tick(w.ipBack), if ok then IpArrives(id) else IpFails(id)]
  }

  /** The events of the whole request. */
  function Events(s: State, id: nat, ctrl: string, ip: string, w: Waits, guardOk: bool, ipOk: bool): seq<Event> {
    var v := VisitOf(s, ip, w, guardOk, ipOk);
    var (c, guard) := AfterGuard(s.caches, v);
    GuardEvents(s, id, ctrl, ip, w, guardOk) + [Tick(w.goOn), GoOn(id)] +
    (if !Guards(GuardValue(guard), ctrl) || FreshIp(c, ip, v.wentOn).Some? then [] else IpEvents(id, w, ipOk))
  }

  lemma {:induction false} RunConcat(s: State, a: seq<Event>, b: seq<Event>)
    ensures Run(s, a + b) == if Run(s, a).None? then None else Run(Run(s, a).value, b)
  {
    hide Next, Enabled;
    if b == [] {
      assert a + b == a;
    } else {
      assert (a + b)[..|a + b| - 1] == a + b[..|b| - 1];
      RunConcat(s, a, b[..|b| - 1]);
    }
  }

  lemma RunTwo(s: State, e: Event, f: Event)
    requires Enabled(s, e) && Enabled(Next(s, e), f)
    ensures Run(s, [e, f]) == Some(Next(Next(s, e), f))
  {
    hide Next, Enabled, Run;
    RunNothing(s);
    RunStep(s, [], e, [e]);
    RunStep(s, [e], f, [e, f]);
  }

  lemma RunFour(s: State, e: Event, f: Event, g: Event, h: Event)
    requires Enabled(s, e) && Enabled(Next(s, e), f)
    requires var t := Next(Next(s, e), f); Enabled(t, g) && Enabled(Next(t, g), h)
    ensures Run(s, [e, f, g, h]) == Some(Next(Next(Next(Next(s, e), f), g), h))
  {
    hide Next, Enabled, Run;
    RunTwo(s, e, f);
    RunTwo(Next(Next(s, e), f), g, h);
    RunConcat(s, [e, f], [g, h]);
    assert [e, f] + [g, h] == [e, f, g, h];
  }

  /** The first stage: the request obtains its guard set. */
  lemma GuardStage(s: State, id: nat, ctrl: string, ip: string, w: Waits, guardOk: bool, ipOk: bool) returns (t: State)
    requires id !in s.reqs
    ensures Run(s, GuardEvents(s, id, ctrl, ip, w, guardOk)) == Some(t)
    ensures var v := VisitOf(s, ip, w, guardOk, ipOk);
            && t.caches == AfterGuard(s.caches, v).0
            && t.reqs == s.reqs[id := GuardKnown(ctrl, ip, AfterGuard(s.caches, v).1)]
            && t.now == v.guardAt && t.statuses == s.statuses && t.statusesVersion == s.statusesVersion
  {
    hide Run;
    var ask := Ask(id, ctrl, ip);
    var s1 := Next(s, ask);
    RunNothing(s);
    RunStep(s, [], ask, [ask]);
    if FreshGuard(s.caches, s.now).Some? {
      t := s1;
    } else {
      var last := if guardOk then GuardArrives(id) else GuardFails(id);
      RunFour(s1, Tick(w.guardRead), ReadGuard(id), Tick(w.guardBack), last);
      RunConcat(s, [ask], [Tick(w.guardRead), ReadGuard(id), Tick(w.guardBack), last]);
      t := Next(Next(Next(Next(s1, Tick(w.guardRead)), ReadGuard(id)), Tick(w.guardBack)), last);
      assert [ask] + [Tick(w.guardRead), ReadGuard(id), Tick(w.guardBack), last] ==
             GuardEvents(s, id, ctrl, ip, w, guardOk);
    }
  }

  /** The last stage: the address is looked up. */
  lemma IpStage(s: State, id: nat, w: Waits, ok: bool) returns (t: State)
    requires id in s.reqs && s.reqs[id].IpWait? && s.reqs[id].status.None?
    ensures Run(s, IpEvents(id, w, ok)) == Some(t)
    ensures var r := s.reqs[id];
            var read := Read(s.now + w.ipRead, s.statusesVersion, Status(s, r.ip));
            var at := s.now + w.ipRead + w.ipBack;
            && t.caches == StoreIp(s.caches, r.ip, at, if ok then Some(read) else None)
            && t.reqs ==
               s.reqs[id := Answer(r.ctrl, r.ip, r.guard, if ok then Some(Use(Entry(read, at), at)) else None)]
  {
    hide Run, Guards;
    var last := if ok then IpArrives(id) else IpFails(id);
    RunFour(s, Tick(w.ipRead), ReadIp(id), Tick(w.ipBack), last);
    t := Next(Next(Next(Next(s, Tick(w.ipRead)), ReadIp(id)), Tick(w.ipBack)), last);
  }

  /** `isBlocked` of one request refines its events: the same answer, the same caches, nothing else touched. */
  lemma VisitIsRun(s: State, id: nat, ctrl: string, ip: string, w: Waits, guardOk: bool, ipOk: bool)
    requires id !in s.reqs
    ensures var t := Run(s, Events(s, id, ctrl, ip, w, guardOk, ipOk));
            var r := Visited(s.caches, ctrl, ip, VisitOf(s, ip, w, guardOk, ipOk));
            t.Some? && t.value.caches == r.0 && t.value.reqs == s.reqs[id := r.1]
  {
    hide Run, Guards;
    var v := VisitOf(s, ip, w, guardOk, ipOk);
    var guard := AfterGuard(s.caches, v).1;
    var t := GuardStage(s, id, ctrl, ip, w, guardOk, ipOk);
    var go := [Tick(w.goOn), GoOn(id)];
    RunTwo(t, Tick(w.goOn), GoOn(id));
    RunConcat(s, GuardEvents(s, id, ctrl, ip, w, guardOk), go);
    var u := Next(Next(t, Tick(w.goOn)), GoOn(id));
    var first := GuardEvents(s, id, ctrl, ip, w, guardOk) + go;
    assert Run(s, first) == Some(u);
    if !Guards(GuardValue(guard), ctrl) || FreshIp(t.caches, ip, v.wentOn).Some? {
      assert first + [] == first;
    } else {
      var z := IpStage(u, id, w, ipOk);
      RunConcat(s, first, IpEvents(id, w, ipOk));
    }
  }
}
