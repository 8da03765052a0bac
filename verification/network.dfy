/**
  The network guard: two caches with a time to live, a database that may fail, and requests that
  interleave at every await.

  `NetworkService` holds the synchronous stretches between awaits. A run of the system is a list of
  events over `State`: the clock, the database, the caches, and every request and save in flight.
  Each database read is remembered with the time and version it saw, so that an answer can be
  traced back to what it was based on.
*/
module Network {
  import opened Text

  const CONTROLLER_SCREENS: seq<(string, seq<string>)> := [
    ("orders", ["/orders"]),
    ("shipping", ["/shipping"]),
    ("promotions", ["/promotions"]),
    ("transactions", ["/finance/overview", "/finance/ledger", "/finance/reconcile"]),
    ("revenue", ["/finance/overview"]),
    ("products", ["/storage"]),
    ("recipes", ["/recipes"]),
    ("customers", ["/partners/customers"]),
    ("carriers", ["/partners/carriers"]),
    ("stock-receipts", ["/expenses/receipts", "/expenses/materials", "/partners/suppliers"]),
    ("assets", ["/expenses/assets"]),
    ("manual-expenses", ["/expenses/opex"]),
    ("employees", ["/employees"]),
    ("shifts", ["/shifts"]),
    ("wages", ["/shifts"]),
    ("attendance", ["/attendance", "/attendance/register", "/attendance/manage"]),
    ("users", ["/users"]),
    ("calendar", ["/calendar"])]

  const GUARD_TTL: nat := 15000
  const IP_TTL: nat := 10000

  datatype IpStatus = IpStatus(configured: bool, allowed: bool)

  const OPEN := IpStatus(false, false)

  predicate AllGuarded(screens: seq<string>, guarded: set<string>) {
    |screens| > 0 && forall i :: 0 <= i < |screens| ==> screens[i] in guarded
  }

  /** The controller is in the map and every screen that uses it is guarded. */
  predicate Guards(guarded: set<string>, controller: string) {
    exists i :: 0 <= i < |CONTROLLER_SCREENS| && CONTROLLER_SCREENS[i].0 == controller
                && AllGuarded(CONTROLLER_SCREENS[i].1, guarded)
  }

  lemma NothingGuarded(controller: string)
    ensures !Guards({}, controller)
  {
    var none: set<string> := {};
    forall i | 0 <= i < |CONTROLLER_SCREENS| ensures !AllGuarded(CONTROLLER_SCREENS[i].1, none) {
      var screens := CONTROLLER_SCREENS[i].1;
      assert |screens| > 0 ==> screens[0] !in none;
    }
  }

  /** `guardedControllers` after its await. */
  method GuardedControllers(guarded: set<string>) returns (out: set<string>)
    ensures forall c :: c in out <==> Guards(guarded, c)
  {
    out := {};
    if guarded == {} {
      forall c { NothingGuarded(c); }
      return;
    }
    for i := 0 to |CONTROLLER_SCREENS|
      invariant forall c :: c in out <==>
                  exists j :: 0 <= j < i && CONTROLLER_SCREENS[j].0 == c && AllGuarded(CONTROLLER_SCREENS[j].1, guarded)
    {
      if AllGuarded(CONTROLLER_SCREENS[i].1, guarded) {
        out := out + {CONTROLLER_SCREENS[i].0};
      }
    }
  }

  // ---- the caches ----

  /** What a database read saw: when, at which version of the data, and the value. */
  datatype Read<V> = Read(at: nat, version: nat, value: V)

  /** A cache entry: the read it came from and the time it was stored. */
  datatype Entry<V> = Entry(read: Read<V>, at: nat)

  datatype Caches = Caches(guard: Option<Entry<set<string>>>, ip: map<string, Entry<IpStatus>>)

  function FreshGuard(c: Caches, now: nat): Option<Entry<set<string>>> {
    if c.guard.Some? && now - c.guard.value.at < GUARD_TTL then c.guard else None
  }

  function FreshIp(c: Caches, ip: string, now: nat): Option<Entry<IpStatus>> {
    if ip in c.ip && now - c.ip[ip].at < IP_TTL then Some(c.ip[ip]) else None
  }

  /** A cached guard set is used exactly for 15 seconds, a cached address status exactly for 10. */
  lemma CachesUsedIff(c: Caches, ip: string, now: nat)
    ensures FreshGuard(c, now).Some? <==> c.guard.Some? && now < c.guard.value.at + 15000
    ensures FreshGuard(c, now).Some? ==> FreshGuard(c, now) == c.guard
    ensures FreshIp(c, ip, now).Some? <==> ip in c.ip && now < c.ip[ip].at + 10000
    ensures FreshIp(c, ip, now).Some? ==> FreshIp(c, ip, now).value == c.ip[ip]
  {
  }

  class NetworkService {
    var guardedCache: Option<Entry<set<string>>>
    var ipCache: map<string, Entry<IpStatus>>

    function Content(): Caches
      reads this
    {
      Caches(guardedCache, ipCache)
    }

    constructor ()
      ensures Content() == Caches(None, map[])
    {
      guardedCache := None;
      ipCache := map[];
    }

    /** `guardedSet` up to its await: the cached set while it is fresh. */
    method CachedGuard(now: nat) returns (r: Option<Entry<set<string>>>)
      ensures r == FreshGuard(Content(), now)
    {
      if guardedCache.Some? && now - guardedCache.value.at < GUARD_TTL { return guardedCache; }
      r := None;
    }

    /** `guardedSet` after its await: stores what was read, or fails open without storing. */
    method GuardFetched(now: nat, reply: Option<Read<set<string>>>) returns (screens: set<string>)
      modifies this
      ensures Content() == StoreGuard(old(Content()), now, reply)
      ensures screens == if reply.Some? then reply.value.value else {}
    {
      if reply.None? { return {}; }
      guardedCache := Some(Entry(reply.value, now));
      screens := reply.value.value;
    }

    method CachedIp(ip: string, now: nat) returns (r: Option<Entry<IpStatus>>)
      ensures r == FreshIp(Content(), ip, now)
    {
      if ip in ipCache && now - ipCache[ip].at < IP_TTL { return Some(ipCache[ip]); }
      r := None;
    }

    method IpFetched(ip: string, now: nat, reply: Option<Read<IpStatus>>) returns (status: IpStatus)
      modifies this
      ensures Content() == StoreIp(old(Content()), ip, now, reply)
      ensures status == if reply.Some? then reply.value.value else OPEN
    {
      if reply.None? { return OPEN; }
      ipCache := ipCache[ip := Entry(reply.value, now)];
      status := reply.value.value;
    }

    /** `saveGuardedScreens`: busts the cache once the write has succeeded, not when it throws. */
    method SaveGuardedScreens(written: bool)
      modifies this
      ensures Content() == if written then Busted(old(Content())) else old(Content())
    {
      if !written { return; }
      guardedCache := None;
    }

    /** `upsertNetwork` and `deleteNetwork`: clear the cache first, whatever the write then does. */
    method ChangeNetworks()
      modifies this
      ensures Content() == Cleared(old(Content()))
    {
      ipCache := map[];
    }

    /** `isBlocked` for one request on its own; `v` is what its awaits return and when. */
    method IsBlocked(controller: string, ip: string, v: Visit) returns (blocked: bool)
      modifies this
      ensures Content() == Visited(old(Content()), controller, ip, v).0
      ensures blocked == Visited(old(Content()), controller, ip, v).1.blocked
      ensures var (c, guard) := AfterGuard(old(Content()), v);
              var use := AfterIp(c, ip, v).1;
              blocked <==>
                && guard.Some? && use.Some?
                && (exists i :: 0 <= i < |CONTROLLER_SCREENS| && CONTROLLER_SCREENS[i].0 == controller &&
                      |CONTROLLER_SCREENS[i].1| > 0 &&
                      forall j :: 0 <= j < |CONTROLLER_SCREENS[i].1| ==>
                        CONTROLLER_SCREENS[i].1[j] in guard.value.entry.read.value)
                && use.value.entry.read.value.configured && !use.value.entry.read.value.allowed
    {
      NothingGuarded(controller);
      var hit := CachedGuard(v.asked);
      var screens;
      if hit.Some? {
        screens := hit.value.read.value;
      } else {
        screens := GuardFetched(v.guardAt, v.guardReply);
      }
      var ctrls := GuardedControllers(screens);
      if controller !in ctrls { return false; }
      var known := CachedIp(ip, v.wentOn);
      var status;
      if known.Some? {
        status := known.value.read.value;
      } else {
        status := IpFetched(ip, v.ipAt, v.ipReply);
      }
      if !status.configured { return false; }
      blocked := !status.allowed;
    }
  }

  /** The awaits of one request: when it asked, what the two reads returned (None: an error) and when it went on. */
  datatype Visit = Visit(asked: nat, guardReply: Option<Read<set<string>>>, guardAt: nat,
                         wentOn: nat, ipReply: Option<Read<IpStatus>>, ipAt: nat)

  /** The caches after a request has obtained its guard set, and the set. */
  function AfterGuard(c: Caches, v: Visit): (Caches, Option<Use<set<string>>>) {
    var hit := FreshGuard(c, v.asked);
    if hit.Some? then (c, Some(Use(hit.value, v.asked)))
    else (StoreGuard(c, v.guardAt, v.guardReply),
          if v.guardReply.Some? then Some(Use(Entry(v.guardReply.value, v.guardAt), v.guardAt)) else None)
  }

  function AfterIp(c: Caches, ip: string, v: Visit): (Caches, Option<Use<IpStatus>>) {
    var hit := FreshIp(c, ip, v.wentOn);
    if hit.Some? then (c, Some(Use(hit.value, v.wentOn)))
    else (StoreIp(c, ip, v.ipAt, v.ipReply),
          if v.ipReply.Some? then Some(Use(Entry(v.ipReply.value, v.ipAt), v.ipAt)) else None)
  }

  /** The caches a request leaves and its answer; an unguarded controller's address is not looked up. */
  function Visited(c: Caches, ctrl: string, ip: string, v: Visit): (r: (Caches, Request))
    ensures r.1.Answered?
  {
    var (c1, guard) := AfterGuard(c, v);
    if !Guards(GuardValue(guard), ctrl) then (c1, Answer(ctrl, ip, guard, None))
    else
      var (c2, use) := AfterIp(c1, ip, v);
      (c2, Answer(ctrl, ip, guard, use))
  }

  function Busted(c: Caches): Caches { c.(guard := None) }

  function Cleared(c: Caches): Caches { c.(ip := map[]) }

  function StoreGuard(c: Caches, now: nat, reply: Option<Read<set<string>>>): Caches {
    if reply.Some? then c.(guard := Some(Entry(reply.value, now))) else c
  }

  function StoreIp(c: Caches, ip: string, now: nat, reply: Option<Read<IpStatus>>): Caches {
    if reply.Some? then c.(ip := c.ip[ip := Entry(reply.value, now)]) else c
  }

  predicate Refuses(status: IpStatus) { status.configured && !status.allowed }

  // ---- requests, saves and the database ----

  /** A value in use: the entry it came from and when it was taken; None when the read failed. */
  datatype Use<V> = Use(entry: Entry<V>, usedAt: nat)

  datatype Request =
    | GuardWait(ctrl: string, ip: string, got: Option<Read<set<string>>>)
    | GuardKnown(ctrl: string, ip: string, guard: Option<Use<set<string>>>)
    | IpWait(ctrl: string, ip: string, guard: Option<Use<set<string>>>, status: Option<Read<IpStatus>>)
    | Answered(ctrl: string, ip: string, guard: Option<Use<set<string>>>, ipUse: Option<Use<IpStatus>>, blocked: bool)
    | Saving(routes: set<string>, written: Option<nat>)   // written: the version its write produced
    | Saved(version: nat)

  datatype State = State(
    now: nat,
    screens: set<string>, screensVersion: nat,
    statuses: map<string, IpStatus>, statusesVersion: nat,
    caches: Caches,
    reqs: map<nat, Request>,
    guardReads: set<Read<set<string>>>,
    ipReads: set<(string, Read<IpStatus>)>)

  datatype Event =
    | Tick(ms: nat)
    | Ask(id: nat, ctrl: string, ip: string)
    | ReadGuard(id: nat)
    | GuardArrives(id: nat)
    | GuardFails(id: nat)
    | GoOn(id: nat)
    | ReadIp(id: nat)
    | IpArrives(id: nat)
    | IpFails(id: nat)
    | SaveBegins(id: nat, routes: set<string>)
    | SaveWrites(id: nat)
    | SaveEnds(id: nat)
    | ForeignSave(routes: set<string>)              // another process, or by hand
    | NetworksBegin                                 // upsert or delete: clears, then awaits
    | NetworksWrite(statuses: map<string, IpStatus>)

  function Status(s: State, ip: string): IpStatus { if ip in s.statuses then s.statuses[ip] else OPEN }

  predicate Enabled(s: State, e: Event) {
    match e
    case Ask(id, _, _) => id !in s.reqs
    case ReadGuard(id) => id in s.reqs && s.reqs[id].GuardWait? && s.reqs[id].got.None?
    case GuardArrives(id) => id in s.reqs && s.reqs[id].GuardWait? && s.reqs[id].got.Some?
    case GuardFails(id) => id in s.reqs && s.reqs[id].GuardWait?
    case GoOn(id) => id in s.reqs && s.reqs[id].GuardKnown?
    case ReadIp(id) => id in s.reqs && s.reqs[id].IpWait? && s.reqs[id].status.None?
    case IpArrives(id) => id in s.reqs && s.reqs[id].IpWait? && s.reqs[id].status.Some?
    case IpFails(id) => id in s.reqs && s.reqs[id].IpWait?
    case SaveBegins(id, _) => id !in s.reqs
    case SaveWrites(id) => id in s.reqs && s.reqs[id].Saving? && s.reqs[id].written.None?
    case SaveEnds(id) => id in s.reqs && s.reqs[id].Saving? && s.reqs[id].written.Some?
    case _ => true
  }

  function Put(s: State, id: nat, r: Request): State { s.(reqs := s.reqs[id := r]) }

  function GuardValue(guard: Option<Use<set<string>>>): set<string> {
    if guard.Some? then guard.value.entry.read.value else {}
  }

  function IpValue(use: Option<Use<IpStatus>>): IpStatus {
    if use.Some? then use.value.entry.read.value else OPEN
  }

  function Answer(ctrl: string, ip: string, guard: Option<Use<set<string>>>, use: Option<Use<IpStatus>>): Request {
    Answered(ctrl, ip, guard, use, Guards(GuardValue(guard), ctrl) && Refuses(IpValue(use)))
  }

  function Next(s: State, e: Event): State
    requires Enabled(s, e)
  {
    match e
    case Tick(ms) => s.(now := s.now + ms)
    case Ask(id, ctrl, ip) =>
      var hit := FreshGuard(s.caches, s.now);
      Put(s, id, if hit.Some? then GuardKnown(ctrl, ip, Some(Use(hit.value, s.now))) else GuardWait(ctrl, ip, None))
    case ReadGuard(id) =>
      var read := Read(s.now, s.screensVersion, s.screens);
      Put(s.(guardReads := s.guardReads + {read}), id, s.reqs[id].(got := Some(read)))
    case GuardArrives(id) =>
      var r := s.reqs[id];
      Put(s.(caches := StoreGuard(s.caches, s.now, r.got)), id,
          GuardKnown(r.ctrl, r.ip, Some(Use(Entry(r.got.value, s.now), s.now))))
    case GuardFails(id) => Put(s, id, GuardKnown(s.reqs[id].ctrl, s.reqs[id].ip, None))
    case GoOn(id) =>
      var r := s.reqs[id];
      var hit := FreshIp(s.caches, r.ip, s.now);
      Put(s, id, if !Guards(GuardValue(r.guard), r.ctrl) then Answer(r.ctrl, r.ip, r.guard, None)
                 else if hit.Some? then Answer(r.ctrl, r.ip, r.guard, Some(Use(hit.value, s.now)))
                 else IpWait(r.ctrl, r.ip, r.guard, None))
    case ReadIp(id) =>
      var read := Read(s.now, s.statusesVersion, Status(s, s.reqs[id].ip));
      Put(s.(ipReads := s.ipReads + {(s.reqs[id].ip, read)}), id, s.reqs[id].(status := Some(read)))
    case IpArrives(id) =>
      var r := s.reqs[id];
      Put(s.(caches := StoreIp(s.caches, r.ip, s.now, r.status)), id,
          Answer(r.ctrl, r.ip, r.guard, Some(Use(Entry(r.status.value, s.now), s.now))))
    case IpFails(id) => Put(s, id, Answer(s.reqs[id].ctrl, s.reqs[id].ip, s.reqs[id].guard, None))
    case SaveBegins(id, routes) => Put(s, id, Saving(routes, None))
    case SaveWrites(id) =>
      Put(s.(screens := s.reqs[id].routes, screensVersion := s.screensVersion + 1), id,
          s.reqs[id].(written := Some(s.screensVersion + 1)))
    case SaveEnds(id) => Put(s.(caches := Busted(s.caches)), id, Saved(s.reqs[id].written.value))
    case ForeignSave(routes) => s.(screens := routes, screensVersion := s.screensVersion + 1)
    case NetworksBegin => s.(caches := Cleared(s.caches))
    case NetworksWrite(statuses) => s.(statuses := statuses, statusesVersion := s.statusesVersion + 1)
  }

  /** All events of `es` in turn; None if one of them is not enabled. */
  function Run(s: State, es: seq<Event>): Option<State> {
    if es == [] then Some(s)
    else
      var t := Run(s, es[..|es| - 1]);
      if t.None? || !Enabled(t.value, es[|es| - 1]) then None else Some(Next(t.value, es[|es| - 1]))
  }

  function Initial(now: nat, screens: set<string>, statuses: map<string, IpStatus>): State {
    State(now, screens, 0, statuses, 0, Caches(None, map[]), map[], {}, {})
  }

  // ---- what every answer rests on ----

  /** The entry holds what some read of the database returned, and was stored after that read. */
  predicate TracedGuard(s: State, e: Entry<set<string>>) { e.read in s.guardReads && e.read.at <= e.at <= s.now }

  predicate TracedIp(s: State, ip: string, e: Entry<IpStatus>) {
    (ip, e.read) in s.ipReads && e.read.at <= e.at <= s.now
  }

  /** The set used was stored less than 15 seconds before it was used. */
  predicate GuardUseOk(s: State, u: Option<Use<set<string>>>) {
    u.Some? ==> TracedGuard(s, u.value.entry) && u.value.entry.at <= u.value.usedAt <= s.now
                && u.value.usedAt - u.value.entry.at < GUARD_TTL
  }

  predicate IpUseOk(s: State, ip: string, u: Option<Use<IpStatus>>) {
    u.Some? ==> TracedIp(s, ip, u.value.entry) && u.value.entry.at <= u.value.usedAt <= s.now
                && u.value.usedAt - u.value.entry.at < IP_TTL
  }

  predicate RequestOk(s: State, r: Request) {
    match r
    case GuardWait(_, _, got) => got.Some? ==> got.value in s.guardReads && got.value.at <= s.now
    case GuardKnown(_, _, guard) => GuardUseOk(s, guard)
    case IpWait(_, ip, guard, status) =>
      GuardUseOk(s, guard) && (status.Some? ==> (ip, status.value) in s.ipReads && status.value.at <= s.now)
    case Answered(ctrl, ip, guard, use, blocked) =>
      GuardUseOk(s, guard) && IpUseOk(s, ip, use)
      && (blocked <==> Guards(GuardValue(guard), ctrl) && Refuses(IpValue(use)))
    case _ => true
  }

  predicate Traced(s: State) {
    && (s.caches.guard.Some? ==> TracedGuard(s, s.caches.guard.value))
    && (forall ip :: ip in s.caches.ip ==> TracedIp(s, ip, s.caches.ip[ip]))
    && (forall id :: id in s.reqs ==> RequestOk(s, s.reqs[id]))
  }

  /** Later states have seen every read that earlier ones have. */
  predicate Extends(s: State, t: State) {
    s.now <= t.now && s.guardReads <= t.guardReads && s.ipReads <= t.ipReads
  }

  lemma RequestStaysOk(s: State, t: State, r: Request)
    requires RequestOk(s, r) && Extends(s, t)
    ensures RequestOk(t, r)
  {
  }

  lemma CachesStayTraced(s: State, e: Event)
    requires Traced(s) && Enabled(s, e)
    ensures var t := Next(s, e);
            && Extends(s, t)
            && (t.caches.guard.Some? ==> TracedGuard(t, t.caches.guard.value))
            && (forall ip :: ip in t.caches.ip ==> TracedIp(t, ip, t.caches.ip[ip]))
  {
    match e
    case GuardArrives(id) => assert RequestOk(s, s.reqs[id]);
    case IpArrives(id) => assert RequestOk(s, s.reqs[id]);
    case _ =>
  }

  /** The request an event moves. */
  function Mover(e: Event): Option<nat> {
    match e
    case Ask(id, _, _) => Some(id)
    case ReadGuard(id) => Some(id)
    case GuardArrives(id) => Some(id)
    case GuardFails(id) => Some(id)
    case GoOn(id) => Some(id)
    case ReadIp(id) => Some(id)
    case IpArrives(id) => Some(id)
    case IpFails(id) => Some(id)
    case SaveBegins(id, _) => Some(id)
    case SaveWrites(id) => Some(id)
    case SaveEnds(id) => Some(id)
    case _ => None
  }

  lemma OthersStay(s: State, e: Event, id: nat)
    requires Enabled(s, e) && Mover(e) != Some(id)
    ensures id in Next(s, e).reqs <==> id in s.reqs
    ensures id in s.reqs ==> Next(s, e).reqs[id] == s.reqs[id]
  {
  }

  lemma MovedOk(s: State, e: Event)
    requires Traced(s) && Enabled(s, e) && Mover(e).Some?
    ensures Mover(e).value in Next(s, e).reqs && RequestOk(Next(s, e), Next(s, e).reqs[Mover(e).value])
  {
    hide Guards;
    var id := Mover(e).value;
    if id in s.reqs {
      assert RequestOk(s, s.reqs[id]);
    }
    match e
    case GoOn(id) =>
      RequestStaysOk(s, Next(s, e), s.reqs[id]);
    case IpArrives(id) =>
      RequestStaysOk(s, Next(s, e), s.reqs[id]);
    case _ =>
  }

  lemma NextTraced(s: State, e: Event)
    requires Traced(s) && Enabled(s, e)
    ensures Traced(Next(s, e))
  {
    var t := Next(s, e);
    CachesStayTraced(s, e);
    forall id | id in t.reqs ensures RequestOk(t, t.reqs[id]) {
      if Mover(e) == Some(id) {
        MovedOk(s, e);
      } else {
        OthersStay(s, e, id);
        RequestStaysOk(s, t, s.reqs[id]);
      }
    }
  }

  lemma {:induction false} AlwaysTraced(now: nat, screens: set<string>, statuses: map<string, IpStatus>, es: seq<Event>)
    requires Run(Initial(now, screens, statuses), es).Some?
    ensures Traced(Run(Initial(now, screens, statuses), es).value)
  {
    if es != [] {
      AlwaysTraced(now, screens, statuses, es[..|es| - 1]);
      NextTraced(Run(Initial(now, screens, statuses), es[..|es| - 1]).value, es[|es| - 1]);
    }
  }

  /**
    In every run, an answered check is blocked exactly when it has a guard set and a status, the
    controller is in the map with all its screens in that set, and the address is configured but
    not allowed.
  */
  lemma BlockedIff(now: nat, screens: set<string>, statuses: map<string, IpStatus>, es: seq<Event>, id: nat)
    requires Run(Initial(now, screens, statuses), es).Some?
    requires var s := Run(Initial(now, screens, statuses), es).value; id in s.reqs && s.reqs[id].Answered?
    ensures var r := Run(Initial(now, screens, statuses), es).value.reqs[id];
            r.blocked <==>
              && r.guard.Some? && r.ipUse.Some?
              && (exists i :: 0 <= i < |CONTROLLER_SCREENS| && CONTROLLER_SCREENS[i].0 == r.ctrl &&
                    |CONTROLLER_SCREENS[i].1| > 0 &&
                    forall j :: 0 <= j < |CONTROLLER_SCREENS[i].1| ==>
                      CONTROLLER_SCREENS[i].1[j] in r.guard.value.entry.read.value)
              && r.ipUse.value.entry.read.value.configured && !r.ipUse.value.entry.read.value.allowed
  {
    AlwaysTraced(now, screens, statuses, es);
    var s := Run(Initial(now, screens, statuses), es).value;
    assert RequestOk(s, s.reqs[id]);
    NothingGuarded(s.reqs[id].ctrl);
  }

  /**
    Whoever is blocked, in any run: the controller is in the map; all its screens were guarded in a
    database read whose result was stored less than 15 s before it was used; and the address was
    configured but not allowed in a read stored less than 10 s before it was used.
  */
  lemma BlockedIsJustified(now: nat, screens: set<string>, statuses: map<string, IpStatus>, es: seq<Event>, id: nat)
    requires Run(Initial(now, screens, statuses), es).Some?
    requires var s := Run(Initial(now, screens, statuses), es).value;
             id in s.reqs && s.reqs[id].Answered? && s.reqs[id].blocked
    ensures var s := Run(Initial(now, screens, statuses), es).value;
            var r := s.reqs[id];
            && r.guard.Some? && r.ipUse.Some?
            && var g, i := r.guard.value, r.ipUse.value;
               && g.entry.read in s.guardReads && Guards(g.entry.read.value, r.ctrl)
               && g.entry.read.at <= g.entry.at <= g.usedAt < g.entry.at + 15000
               && (r.ip, i.entry.read) in s.ipReads
               && i.entry.read.value.configured && !i.entry.read.value.allowed
               && i.entry.read.at <= i.entry.at <= i.usedAt < i.entry.at + 10000
  {
    AlwaysTraced(now, screens, statuses, es);
    var s := Run(Initial(now, screens, statuses), es).value;
    assert RequestOk(s, s.reqs[id]);
    NothingGuarded(s.reqs[id].ctrl);
  }

  /**
    In every run: a controller outside the map, or with a screen missing from the set that was used, is
    let through.
  */
  lemma {:induction false} UnguardedNeverBlocked(now: nat, screens: set<string>, statuses: map<string, IpStatus>,
                                                 es: seq<Event>, id: nat)
    requires Run(Initial(now, screens, statuses), es).Some?
    requires var s := Run(Initial(now, screens, statuses), es).value;
             id in s.reqs && s.reqs[id].Answered? &&
             forall i :: 0 <= i < |CONTROLLER_SCREENS| && CONTROLLER_SCREENS[i].0 == s.reqs[id].ctrl ==>
               exists j :: 0 <= j < |CONTROLLER_SCREENS[i].1| &&
                           CONTROLLER_SCREENS[i].1[j] !in GuardValue(s.reqs[id].guard)
    ensures !Run(Initial(now, screens, statuses), es).value.reqs[id].blocked
  {
    AlwaysTraced(now, screens, statuses, es);
    var s := Run(Initial(now, screens, statuses), es).value;
    assert RequestOk(s, s.reqs[id]);
  }

  // ---- when a save is seen ----

  /** No stale guard set is cached or in flight: everything from version `v` on. */
  predicate SeesSave(s: State, v: nat) {
    && s.screensVersion >= v
    && (s.caches.guard.Some? ==> s.caches.guard.value.read.version >= v)
    && (forall id :: id in s.reqs && s.reqs[id].GuardWait? && s.reqs[id].got.Some? ==>
          s.reqs[id].got.value.version >= v)
  }

  function GuardOf(r: Request): Option<Use<set<string>>> {
    match r
    case GuardKnown(_, _, g) => g
    case IpWait(_, _, g, _) => g
    case Answered(_, _, g, _, _) => g
    case _ => None
  }

  /** The checks that had their guard set before. */
  function Settled(s: State): set<nat> { set id | id in s.reqs && GuardOf(s.reqs[id]).Some? }

  lemma NextSeesSave(s: State, e: Event, v: nat, before: set<nat>)
    requires SeesSave(s, v) && Enabled(s, e)
    requires forall id :: id in s.reqs && id !in before && GuardOf(s.reqs[id]).Some? ==>
               GuardOf(s.reqs[id]).value.entry.read.version >= v
    ensures SeesSave(Next(s, e), v)
    ensures forall id :: id in Next(s, e).reqs && id !in before && GuardOf(Next(s, e).reqs[id]).Some? ==>
              GuardOf(Next(s, e).reqs[id]).value.entry.read.version >= v
  {
  }

  /** From such a state on, every check that still has to get its guard set gets one of version `v` or later. */
  lemma {:induction false} SaveSeenForEver(s: State, es: seq<Event>, v: nat)
    requires SeesSave(s, v) && Run(s, es).Some?
    ensures SeesSave(Run(s, es).value, v)
    ensures var t := Run(s, es).value;
            forall id :: id in t.reqs && id !in Settled(s) && GuardOf(t.reqs[id]).Some? ==>
              GuardOf(t.reqs[id]).value.entry.read.version >= v
  {
    if es != [] {
      SaveSeenForEver(s, es[..|es| - 1], v);
      NextSeesSave(Run(s, es[..|es| - 1]).value, es[|es| - 1], v, Settled(s));
    }
  }

  /**
    A save that completes is seen by all later checks exactly when no guard fetch that read an
    older version is still in flight: the fetch would put the old set back into the cache.
  */
  lemma CompletedSaveSeen(s: State, id: nat)
    requires Enabled(s, SaveEnds(id)) && s.screensVersion >= s.reqs[id].written.value
    ensures SeesSave(Next(s, SaveEnds(id)), s.reqs[id].written.value) <==>
            forall j :: j in s.reqs && s.reqs[j].GuardWait? && s.reqs[j].got.Some? ==>
              s.reqs[j].got.value.version >= s.reqs[id].written.value
  {
    var t := Next(s, SaveEnds(id));
    forall j | j in s.reqs && j != id ensures t.reqs[j] == s.reqs[j] {
    }
  }

  /** The written version never runs ahead of the database. */
  predicate VersionsOk(s: State) {
    forall id :: id in s.reqs && s.reqs[id].Saving? && s.reqs[id].written.Some? ==>
      s.reqs[id].written.value <= s.screensVersion
  }

  lemma {:induction false} AlwaysVersions(now: nat, screens: set<string>, statuses: map<string, IpStatus>,
                                          es: seq<Event>)
    requires Run(Initial(now, screens, statuses), es).Some?
    ensures VersionsOk(Run(Initial(now, screens, statuses), es).value)
  {
    if es != [] {
      AlwaysVersions(now, screens, statuses, es[..|es| - 1]);
    }
  }

  /** And it does: with fetch `j` in flight, its arrival and the next check use the set from before the save. */
  lemma StaleFetchReturns(s: State, id: nat, j: nat, k: nat, ctrl: string, ip: string)
    requires Enabled(s, SaveEnds(id)) && k !in s.reqs && k != id
    requires j in s.reqs && s.reqs[j].GuardWait? && s.reqs[j].got.Some?
    requires s.reqs[j].got.value.version < s.reqs[id].written.value
    ensures var t := Run(s, [SaveEnds(id), GuardArrives(j), Ask(k, ctrl, ip)]);
            && t.Some? && k in t.value.reqs
            && GuardOf(t.value.reqs[k]).Some?
            && GuardOf(t.value.reqs[k]).value.entry.read == s.reqs[j].got.value
  {
    hide Guards;
    var es := [SaveEnds(id), GuardArrives(j), Ask(k, ctrl, ip)];
    assert es[..2] == [SaveEnds(id), GuardArrives(j)] && es[..2][..1] == [SaveEnds(id)] && [SaveEnds(id)][..0] == [];
    assert Run(s, []) == Some(s);
    var s1 := Next(s, SaveEnds(id));
    assert Run(s, [SaveEnds(id)]) == Some(s1);
    var s2 := Next(s1, GuardArrives(j));
    assert Run(s, es[..2]) == Some(s2);
  }

  lemma RunNothing(s: State)
    ensures Run(s, []) == Some(s)
  {
  }

  lemma RunStep(s: State, es: seq<Event>, e: Event, all: seq<Event>)
    requires all == es + [e]
    ensures Run(s, all) ==
            if Run(s, es).None? || !Enabled(Run(s, es).value, e) then None else Some(Next(Run(s, es).value, e))
  {
    assert all[..|all| - 1] == es;
  }
}
