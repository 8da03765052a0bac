/**
  The boot-time migration runner.

  One boot reads the recorded file names, then runs every pending file in sorted order, each in a
  transaction with the insert that records it, then re-applies the stored functions. Boots crash
  at any point and overlap (a new pod starts while the old one is still migrating). Only what is
  committed survives a crash, and the primary key refuses a file that is already recorded.
*/
module Migrate {
  import opened Common

  // ---- the directory listing ----

  /** The order of the default sort: by code units, left to right. */
  predicate Less(a: string, b: string) {
    b != "" && (a == "" || a[0] < b[0] || (a[0] == b[0] && Less(a[1..], b[1..])))
  }

  predicate Sorted(fs: seq<string>) {
    forall i, j :: 0 <= i < j < |fs| ==> Less(fs[i], fs[j])
  }

  predicate Distinct(fs: seq<string>) {
    forall i, j :: 0 <= i < j < |fs| ==> fs[i] != fs[j]
  }

  predicate IsSql(f: string) { |f| >= 4 && f[|f| - 4..] == ".sql" }

  function InsertName(f: string, fs: seq<string>): seq<string> {
    if fs == [] || Less(f, fs[0]) then [f] + fs else [fs[0]] + InsertName(f, fs[1..])
  }

  /** `readdirSync(dir).filter(f => f.endsWith('.sql')).sort()`. */
  function ListSql(names: seq<string>): seq<string> {
    if names == [] then []
    else if IsSql(names[0]) then InsertName(names[0], ListSql(names[1..]))
    else ListSql(names[1..])
  }

  lemma {:induction false} LessTotal(a: string, b: string)
    ensures Less(a, b) || a == b || Less(b, a)
    ensures !Less(a, a)
    ensures !(Less(a, b) && Less(b, a))
  {
    if a != "" {
      LessTotal(a[1..], a[1..]);
      if b != "" && a[0] == b[0] {
        LessTotal(a[1..], b[1..]);
        assert a == [a[0]] + a[1..] && b == [b[0]] + b[1..];
      }
    }
  }

  /** One name comes before another when, where they first differ, it ends or has the smaller code unit. */
  lemma {:induction false} LessIff(a: string, b: string)
    ensures Less(a, b) <==>
            exists k :: 0 <= k <= |a| && k < |b| && a[..k] == b[..k] && (k == |a| || a[k] < b[k])
  {
    if b == "" {
    } else if a == "" || a[0] != b[0] {
      assert a[..0] == b[..0];
      forall k | 0 < k <= |a| && k < |b| ensures a[..k] != b[..k] {
        assert a[..k][0] == a[0] && b[..k][0] == b[0];
      }
    } else {
      LessIff(a[1..], b[1..]);
      forall k | 0 <= k < |a| && k + 1 < |b| ensures a[..k + 1] == b[..k + 1] <==> a[1..][..k] == b[1..][..k] {
        assert a[..k + 1] == [a[0]] + a[1..][..k] && b[..k + 1] == [b[0]] + b[1..][..k];
      }
      if Less(a[1..], b[1..]) {
        var k :| 0 <= k <= |a[1..]| && k < |b[1..]| && a[1..][..k] == b[1..][..k]
                 && (k == |a[1..]| || a[1..][k] < b[1..][k]);
        assert a[..k + 1] == b[..k + 1];
      }
      if k :| 0 <= k <= |a| && k < |b| && a[..k] == b[..k] && (k == |a| || a[k] < b[k]) {
        assert k > 0;
        assert a[1..][..k - 1] == b[1..][..k - 1];
      }
    }
  }

  // ---- numbered names ----

  function Pow10(d: nat): (p: nat)
    ensures p >= 1
  {
    if d == 0 then 1 else 10 * Pow10(d - 1)
  }

  /** The first `w` characters are digits. */
  predicate Numbered(f: string, w: nat) {
    w <= |f| && forall i :: 0 <= i < w ==> '0' <= f[i] <= '9'
  }

  /** The number they write. */
  function Number(f: string, w: nat): nat
    requires Numbered(f, w)
  {
    if w == 0 then 0 else (f[0] - '0') as nat * Pow10(w - 1) + Number(f[1..], w - 1)
  }

  lemma {:induction false} NumberBound(f: string, w: nat)
    requires Numbered(f, w)
    ensures Number(f, w) < Pow10(w)
  {
    if w > 0 {
      NumberBound(f[1..], w - 1);
      DigitTimes((f[0] - '0') as nat, 9, Pow10(w - 1));
    }
  }

  lemma DigitTimes(d: nat, e: nat, p: nat)
    ensures d <= e ==> d * p <= e * p
    ensures d < e ==> d * p + p <= e * p
  {
    if d < e {
      assert (d + 1) * p == d * p + p;
      assert (d + 1) * p <= e * p;
    }
  }

  /** Of two names with numbers of the same width the one with the smaller number comes first. */
  lemma {:induction false} SmallerNumberFirst(f: string, g: string, w: nat)
    requires Numbered(f, w) && Numbered(g, w)
    ensures Number(f, w) < Number(g, w) ==> Less(f, g)
  {
    if w > 0 {
      var d, e := (f[0] - '0') as nat, (g[0] - '0') as nat;
      var m, n := Number(f[1..], w - 1), Number(g[1..], w - 1);
      NumberBound(f[1..], w - 1);
      NumberBound(g[1..], w - 1);
      SmallerNumberFirst(f[1..], g[1..], w - 1);
      FirstDigitDecides(d, e, m, n, Pow10(w - 1));
      assert Number(f, w) == d * Pow10(w - 1) + m && Number(g, w) == e * Pow10(w - 1) + n;
      assert d < e ==> f[0] < g[0];
      assert d == e ==> f[0] == g[0];
    }
  }

  lemma FirstDigitDecides(d: nat, e: nat, m: nat, n: nat, p: nat)
    requires m < p && n < p
    ensures d * p + m < e * p + n ==> d < e || (d == e && m < n)
  {
    DigitTimes(e, d, p);
  }

  /** `f` carries a smaller number than `g`, of the same width, as `098_x.sql` does before `100_y.sql`. */
  predicate NumberedBefore(f: string, g: string, w: nat) {
    Numbered(f, w) && Numbered(g, w) && Number(f, w) < Number(g, w)
  }

  /** A file with a smaller number stands before every file with a larger one. */
  ghost predicate NumbersAscend(fs: seq<string>) {
    forall i, j, w: nat :: 0 <= i < |fs| && 0 <= j < |fs| && NumberedBefore(fs[i], fs[j], w) ==> i < j
  }

  lemma SortedByNumber(fs: seq<string>)
    requires Sorted(fs)
    ensures NumbersAscend(fs)
  {
    hide Less, Number;
    forall i, j, w: nat | 0 <= i < |fs| && 0 <= j < |fs| && NumberedBefore(fs[i], fs[j], w) ensures i < j {
      SmallerNumberFirst(fs[i], fs[j], w);
      LessTotal(fs[i], fs[j]);
    }
  }

  lemma {:induction false} LessTransitive(a: string, b: string, c: string)
    requires Less(a, b) && Less(b, c)
    ensures Less(a, c)
  {
    if a != "" && a[0] == b[0] == c[0] {
      LessTransitive(a[1..], b[1..], c[1..]);
    }
  }

  lemma {:induction false} InsertNameSorted(f: string, fs: seq<string>)
    requires Sorted(fs) && f !in fs
    ensures Sorted(InsertName(f, fs))
    ensures forall x :: x in InsertName(f, fs) <==> x == f || x in fs
  {
    if fs == [] {
    } else if Less(f, fs[0]) {
      forall j | 0 <= j < |fs| ensures Less(f, fs[j]) {
        if j > 0 { LessTransitive(f, fs[0], fs[j]); }
      }
    } else {
      InsertNameSorted(f, fs[1..]);
      LessTotal(f, fs[0]);
      var rest := InsertName(f, fs[1..]);
      forall j | 0 <= j < |rest| ensures Less(fs[0], rest[j]) {
        assert rest[j] in rest;
      }
      assert forall x :: x in fs <==> x == fs[0] || x in fs[1..];
    }
  }

  lemma {:induction false} ListSqlOrder(names: seq<string>)
    requires Distinct(names)
    ensures Sorted(ListSql(names))
    ensures forall x :: x in ListSql(names) <==> x in names && IsSql(x)
  {
    hide Less, IsSql;
    if names != [] {
      ListSqlOrder(names[1..]);
      assert forall x :: x in names <==> x == names[0] || x in names[1..];
      if IsSql(names[0]) {
        InsertNameSorted(names[0], ListSql(names[1..]));
      }
    }
  }

  /**
    The listing is strictly sorted, with smaller numbers before larger ones, and holds exactly the
    names of the directory that end in ".sql".
  */
  lemma ListSqlSorted(names: seq<string>)
    requires Distinct(names)
    ensures Sorted(ListSql(names)) && Distinct(ListSql(names)) && NumbersAscend(ListSql(names))
    ensures forall x :: x in ListSql(names) <==> x in names && |x| >= 4 && x[|x| - 4..] == ".sql"
  {
    hide Less, ListSql, NumbersAscend;
    ListSqlOrder(names);
    SortedDistinct(ListSql(names));
    SortedByNumber(ListSql(names));
  }

  lemma SortedDistinct(fs: seq<string>)
    requires Sorted(fs)
    ensures Distinct(fs)
  {
    forall i, j | 0 <= i < j < |fs| ensures fs[i] != fs[j] {
      LessTotal(fs[i], fs[i]);
    }
  }

  // ---- what is pending ----

  /** The files of the listing that are not recorded yet, in order. */
  function Pending(files: seq<string>, recorded: set<string>): seq<string> {
    if files == [] then []
    else Pending(files[..|files| - 1], recorded) +
         (if files[|files| - 1] in recorded then [] else [files[|files| - 1]])
  }

  lemma {:induction false} PendingMembers(files: seq<string>, recorded: set<string>)
    ensures forall x :: x in Pending(files, recorded) <==> x in files && x !in recorded
  {
    if files != [] {
      PendingMembers(files[..|files| - 1], recorded);
      assert files == files[..|files| - 1] + [files[|files| - 1]];
    }
  }

  lemma {:induction false} PendingPrefix(files: seq<string>, recorded: set<string>, pos: nat)
    requires pos <= |files|
    ensures Pending(files[..pos], recorded) <= Pending(files, recorded)
    ensures pos < |files| && files[pos] !in recorded ==>
              |Pending(files[..pos], recorded)| < |Pending(files, recorded)| &&
              Pending(files, recorded)[|Pending(files[..pos], recorded)|] == files[pos]
  {
    if pos == |files| {
      assert files[..pos] == files;
    } else {
      var init := files[..|files| - 1];
      PendingPrefix(init, recorded, pos);
      assert init[..pos] == files[..pos];
    }
  }

  lemma {:induction false} PendingOrder(files: seq<string>, recorded: set<string>)
    requires Sorted(files)
    ensures Sorted(Pending(files, recorded))
  {
    if files != [] {
      var init, last := files[..|files| - 1], files[|files| - 1];
      PendingOrder(init, recorded);
      PendingMembers(init, recorded);
      var p := Pending(init, recorded);
      forall i | 0 <= i < |p| ensures Less(p[i], last) {
        assert p[i] in p;
        var j :| 0 <= j < |init| && init[j] == p[i];
        assert files[j] == p[i];
      }
    }
  }

  // ---- one boot ----

  datatype Outcome = Commits | Fails | Crashes

  class Database {
    var recorded: set<string>
    ghost var log: seq<string>  // the migrations committed, in order

    constructor (recorded: set<string>)
      ensures this.recorded == recorded && log == []
    {
      this.recorded := recorded;
      log := [];
    }

    /** One transaction: the body of `f` and its row, both or neither. */
    method Transaction(f: string, fate: Outcome) returns (ok: bool)
      modifies this
      ensures ok <==> fate.Commits? && f !in old(recorded)
      ensures recorded == if ok then old(recorded) + {f} else old(recorded)
      ensures log == if ok then old(log) + [f] else old(log)
    {
      ok := fate.Commits? && f !in recorded;
      if ok {
        recorded := recorded + {f};
        log := log + [f];
      }
    }
  }

  /** Going one file further in the listing: nothing for a recorded file, else the next pending one, not run yet. */
  lemma PendingStep(files: seq<string>, recorded: set<string>, i: nat)
    requires Distinct(files) && i < |files|
    ensures var ran := Pending(files[..i], recorded);
            var more := Pending(files[..i + 1], recorded);
            if files[i] in recorded then more == ran
            else
              && more == ran + [files[i]] && SetOf(more) == SetOf(ran) + {files[i]}
              && files[i] !in recorded + SetOf(ran)
              && ran <= Pending(files, recorded) && |ran| < |Pending(files, recorded)|
  {
    assert files[..i + 1][..i] == files[..i];
    PendingMembers(files[..i], recorded);
    PendingPrefix(files, recorded, i);
  }

  /** From `before` / `applied`, exactly the first `n` pending files have been committed. */
  predicate HasRun(migrations: seq<string>, before: seq<string>, applied: set<string>, n: nat, log: seq<string>,
                   recorded: set<string>) {
    var todo := Pending(migrations, applied);
    n <= |todo| && log == before + todo[..n] && recorded == applied + SetOf(todo[..n])
  }

  lemma RunsNext(migrations: seq<string>, i: nat, before: seq<string>, applied: set<string>, n: nat, log: seq<string>,
                 recorded: set<string>)
    requires Distinct(migrations) && i < |migrations| && migrations[i] !in applied
    requires n == |Pending(migrations[..i], applied)| && HasRun(migrations, before, applied, n, log, recorded)
    ensures n < |Pending(migrations, applied)| && migrations[i] !in recorded
    ensures HasRun(migrations, before, applied, n + 1, log + [migrations[i]], recorded + {migrations[i]})
  {
    hide SetOf;
    PendingStep(migrations, applied, i);
    PendingPrefix(migrations, applied, i);
    var todo := Pending(migrations, applied);
    TakeOneMore(todo, n);
    TakeOfPrefix(Pending(migrations[..i], applied), todo);
    assert log + [migrations[i]] == before + todo[..n] + [todo[n]] == before + (todo[..n] + [todo[n]]);
  }

  lemma TakeOneMore(fs: seq<string>, n: nat)
    requires n < |fs|
    ensures fs[..n + 1] == fs[..n] + [fs[n]] && SetOf(fs[..n + 1]) == SetOf(fs[..n]) + {fs[n]}
  {
  }

  lemma TakeOfPrefix(a: seq<string>, b: seq<string>)
    requires a <= b
    ensures b[..|a|] == a
  {
  }

  /** One turn of the migration loop: skips an applied file, runs a pending one. */
  method RunFile(db: Database, migrations: seq<string>, i: nat, applied: set<string>, ghost before: seq<string>,
                 n: nat, fate: Outcome)
    returns (ok: bool, m: nat)
    requires Distinct(migrations) && i < |migrations|
    requires n == |Pending(migrations[..i], applied)| && HasRun(migrations, before, applied, n, db.log, db.recorded)
    modifies db
    ensures HasRun(migrations, before, applied, m, db.log, db.recorded)
    ensures ok ==> m == |Pending(migrations[..i + 1], applied)|
    ensures m == if ok && migrations[i] !in applied then n + 1 else n
    ensures m == n + 1 ==> fate.Commits?
    ensures !ok ==> n < |Pending(migrations, applied)| && !fate.Commits?
  {
    PendingStep(migrations, applied, i);
    if migrations[i] in applied { return true, n; }
    RunsNext(migrations, i, before, applied, n, db.log, db.recorded);
    ok := db.Transaction(migrations[i], fate);
    m := if ok then n + 1 else n;
  }

  /** The migration loop of `main`: `fates(k)` is what happens to the k-th transaction. */
  method RunMigrations(db: Database, migrations: seq<string>, fates: nat -> Outcome) returns (ok: bool, ranCount: nat)
    requires Distinct(migrations)
    modifies db
    ensures HasRun(migrations, old(db.log), old(db.recorded), ranCount, db.log, db.recorded)
    ensures forall k :: 0 <= k < ranCount ==> fates(k).Commits?
    ensures ok <==> ranCount == |Pending(migrations, old(db.recorded))|
    ensures !ok ==> !fates(ranCount).Commits?
  {
    var applied := db.recorded;
    ghost var before := db.log;
    ranCount := 0;
    for i := 0 to |migrations|
      invariant ranCount == |Pending(migrations[..i], applied)|
      invariant HasRun(migrations, before, applied, ranCount, db.log, db.recorded)
      invariant forall k :: 0 <= k < ranCount ==> fates(k).Commits?
    {
      ok, ranCount := RunFile(db, migrations, i, applied, before, ranCount, fates(ranCount));
      if !ok { return; }
    }
    assert migrations[..|migrations|] == migrations;
    ok := true;
  }

  /** `main`, on its own; `fnFates(k)` is what happens to the k-th function file. */
  method MigrateOnBoot(db: Database, names: seq<string>, fnNames: seq<string>, fates: nat -> Outcome,
                       fnFates: nat -> Outcome)
    returns (finished: bool, ranCount: nat)
    requires Distinct(names)
    modifies db
    ensures HasRun(ListSql(names), old(db.log), old(db.recorded), ranCount, db.log, db.recorded)
    ensures forall k :: 0 <= k < ranCount ==> fates(k).Commits?
    ensures var todo := Pending(ListSql(names), old(db.recorded));
            && (ranCount < |todo| ==> !fates(ranCount).Commits?)
            && (finished <==> ranCount == |todo| && forall k :: 0 <= k < |ListSql(fnNames)| ==> fnFates(k).Commits?)
  {
    hide ListSql, NumbersAscend;
    ListSqlSorted(names);
    finished, ranCount := RunMigrations(db, ListSql(names), fates);
    if !finished { return; }
    var fnFiles := ListSql(fnNames);
    for i := 0 to |fnFiles|
      invariant forall k :: 0 <= k < i ==> fnFates(k).Commits?
    {
      if !fnFates(i).Commits? { return false, ranCount; }
    }
  }

  // ---- boots that crash and overlap ----

  datatype Phase =
    | Starting
    | Migrating(applied: set<string>, pos: nat)
    | Replacing(fnPos: nat)  // re-applying the stored functions
    | Done(replaced: nat)    // how many function files it has re-applied
    | Ended                  // failed or crashed

  /** A boot of one image: its listings are fixed, its phase moves. */
  datatype Boot = Boot(files: seq<string>, fns: seq<string>, phase: Phase)

  datatype State = State(recorded: set<string>, log: seq<string>, boots: seq<Boot>)

  datatype Event =
    | Launch(files: seq<string>, fns: seq<string>)
    | Read(b: nat)              // SELECT filename FROM schema_migrations
    | Skip(b: nat)              // the file was in the set read
    | Commit(b: nat)            // body and row
    | Conflict(b: nat)          // the row is already there: rolled back
    | LastFile(b: nat)
    | Replace(b: nat)
    | LastFunction(b: nat)
    | Stop(b: nat)              // an error or a crash, at any moment

  function Phase'(s: State, b: nat): Phase { if b < |s.boots| then s.boots[b].phase else Ended }

  /** Boot `b` stands before a file it has not seen as applied. */
  predicate AtPending(s: State, b: nat) {
    var ph := Phase'(s, b);
    ph.Migrating? && ph.pos < |s.boots[b].files| && s.boots[b].files[ph.pos] !in ph.applied
  }

  predicate Enabled(s: State, e: Event) {
    match e
    case Launch(_, _) => true
    case Read(b) => Phase'(s, b).Starting?
    case Skip(b) =>
      var ph := Phase'(s, b);
      ph.Migrating? && ph.pos < |s.boots[b].files| && s.boots[b].files[ph.pos] in ph.applied
    case Commit(b) => AtPending(s, b) && s.boots[b].files[Phase'(s, b).pos] !in s.recorded
    case Conflict(b) => AtPending(s, b) && s.boots[b].files[Phase'(s, b).pos] in s.recorded
    case LastFile(b) => Phase'(s, b).Migrating? && Phase'(s, b).pos == |s.boots[b].files|
    case Replace(b) => Phase'(s, b).Replacing? && Phase'(s, b).fnPos < |s.boots[b].fns|
    case LastFunction(b) => Phase'(s, b).Replacing? && Phase'(s, b).fnPos == |s.boots[b].fns|
    case Stop(b) => b < |s.boots| && !Phase'(s, b).Done?
  }

  function Move(s: State, b: nat, ph: Phase): State
    requires b < |s.boots|
  {
    s.(boots := s.boots[b := s.boots[b].(phase := ph)])
  }

  function Next(s: State, e: Event): State
    requires Enabled(s, e)
  {
    match e
    case Launch(files, fns) => s.(boots := s.boots + [Boot(files, fns, Starting)])
    case Read(b) => Move(s, b, Migrating(s.recorded, 0))
    case Skip(b) => Move(s, b, Phase'(s, b).(pos := Phase'(s, b).pos + 1))
    case Commit(b) =>
      var ph := Phase'(s, b);
      var f := s.boots[b].files[ph.pos];
      Move(s.(recorded := s.recorded + {f}, log := s.log + [f]), b, ph.(pos := ph.pos + 1))
    case Conflict(b) => Move(s, b, Ended)
    case LastFile(b) => Move(s, b, Replacing(0))
    case Replace(b) => Move(s, b, Replacing(Phase'(s, b).fnPos + 1))
    case LastFunction(b) => Move(s, b, Done(Phase'(s, b).fnPos))
    case Stop(b) => Move(s, b, Ended)
  }

  /** The runs from a database with `baseline` recorded, as event lists. */
  predicate Possible(baseline: set<string>, es: seq<Event>)
    decreases |es|, 0
  {
    es == [] || (Possible(baseline, es[..|es| - 1]) && Enabled(After(baseline, es[..|es| - 1]), es[|es| - 1]))
  }

  function After(baseline: set<string>, es: seq<Event>): State
    requires Possible(baseline, es)
    decreases |es|, 1
  {
    if es == [] then State(baseline, [], []) else Next(After(baseline, es[..|es| - 1]), es[|es| - 1])
  }

  predicate BootOk(s: State, boot: Boot) {
    match boot.phase
    case Starting => true
    case Migrating(applied, pos) =>
      applied <= s.recorded && pos <= |boot.files| && forall i :: 0 <= i < pos ==> boot.files[i] in s.recorded
    case Replacing(fnPos) => fnPos <= |boot.fns| && forall i :: 0 <= i < |boot.files| ==> boot.files[i] in s.recorded
    case Done(replaced) => replaced == |boot.fns| && forall i :: 0 <= i < |boot.files| ==> boot.files[i] in s.recorded
    case Ended => true
  }

  /** What holds in every reachable state. */
  predicate Consistent(baseline: set<string>, s: State) {
    && s.recorded == baseline + SetOf(s.log)
    && Distinct(s.log)
    && (forall f :: f in s.log ==> f !in baseline)
    && (forall b :: 0 <= b < |s.boots| ==> BootOk(s, s.boots[b]))
  }

  lemma NextConsistent(baseline: set<string>, s: State, e: Event)
    requires Consistent(baseline, s) && Enabled(s, e)
    ensures Consistent(baseline, Next(s, e))
  {
    var t := Next(s, e);
    assert s.recorded <= t.recorded;
    forall b | 0 <= b < |t.boots| ensures BootOk(t, t.boots[b]) {
      if b < |s.boots| && t.boots[b] == s.boots[b] {
        assert BootOk(s, s.boots[b]);
      } else if b < |s.boots| {
        assert BootOk(s, s.boots[b]);
      }
    }
  }

  /**
    Across any boots, crashes and overlaps: the recorded names are the baseline and the committed
    migrations, each file commits at most once and never when it was in the baseline, a boot that is
    past its migrations has all of its files recorded, and one that finishes has re-applied every
    function file.
  */
  lemma AlwaysConsistent(baseline: set<string>, es: seq<Event>)
    requires Possible(baseline, es)
    ensures var s := After(baseline, es);
            && (forall f :: f in s.recorded <==> f in baseline || f in s.log)
            && (forall i, j :: 0 <= i < j < |s.log| ==> s.log[i] != s.log[j])
            && (forall f :: f in s.log ==> f !in baseline)
            && (forall boot, f :: boot in s.boots && f in boot.files && (boot.phase.Replacing? || boot.phase.Done?) ==>
                  f in s.recorded)
            && (forall boot :: boot in s.boots && boot.phase.Done? ==> boot.phase.replaced == |boot.fns|)
  {
    hide After, Possible;
    ReachableConsistent(baseline, es);
    var s := After(baseline, es);
    assert forall b :: 0 <= b < |s.boots| ==> BootOk(s, s.boots[b]);
  }

  lemma {:induction false} ReachableConsistent(baseline: set<string>, es: seq<Event>)
    requires Possible(baseline, es)
    ensures Consistent(baseline, After(baseline, es))
  {
    if es != [] {
      ReachableConsistent(baseline, es[..|es| - 1]);
      NextConsistent(baseline, After(baseline, es[..|es| - 1]), es[|es| - 1]);
    }
  }

  lemma FinishedBootApplied(baseline: set<string>, es: seq<Event>, b: nat, f: string)
    requires Possible(baseline, es) && b < |After(baseline, es).boots|
    requires After(baseline, es).boots[b].phase.Done? && f in After(baseline, es).boots[b].files
    ensures f in baseline || f in After(baseline, es).log
  {
    hide After, Possible;
    AlwaysConsistent(baseline, es);
  }

  // ---- a fixed directory ----

  /** Every launch lists the same files. */
  predicate FixedDirectory(es: seq<Event>, files: seq<string>) {
    forall i :: 0 <= i < |es| ==> es[i].Launch? ==> es[i].files == files
  }

  predicate AllList(s: State, files: seq<string>) {
    forall b :: 0 <= b < |s.boots| ==> s.boots[b].files == files
  }

  /**
    In a list without repetitions, an entry outside a prefix stands right after it if all earlier
    entries are inside.
  */
  lemma PrefixPosition(prefix: seq<string>, all: seq<string>, n: nat)
    requires prefix <= all && Distinct(all) && n < |all| && all[n] !in prefix
    requires forall i :: 0 <= i < n ==> all[i] in prefix
    ensures n == |prefix|
  {
    assert forall i :: 0 <= i < |prefix| ==> prefix[i] == all[i];
    if n > 0 {
      var j :| 0 <= j < |prefix| && prefix[j] == all[n - 1];
      assert all[j] == all[n - 1];
    }
  }

  /** The file a boot commits is the next pending one, whoever committed those before it. */
  lemma CommitsNext(baseline: set<string>, s: State, files: seq<string>, b: nat)
    requires Consistent(baseline, s) && AllList(s, files) && Distinct(files)
    requires Enabled(s, Commit(b)) && s.log <= Pending(files, baseline)
    ensures s.log + [files[s.boots[b].phase.pos]] <= Pending(files, baseline)
  {
    var pos := s.boots[b].phase.pos;
    assert BootOk(s, s.boots[b]);
    assert forall i :: 0 <= i < pos ==> s.boots[b].files[i] in s.recorded;
    NextPending(baseline, s.log, files, pos);
  }

  lemma NextPending(baseline: set<string>, log: seq<string>, files: seq<string>, pos: nat)
    requires Distinct(files) && pos < |files| && log <= Pending(files, baseline)
    requires files[pos] !in baseline && files[pos] !in log
    requires forall i :: 0 <= i < pos ==> files[i] in baseline || files[i] in log
    ensures log + [files[pos]] <= Pending(files, baseline)
  {
    var todo := Pending(files, baseline);
    var seen := Pending(files[..pos], baseline);
    PendingPrefix(files, baseline, pos);
    PendingMembers(files[..pos], baseline);
    PendingDistinct(files, baseline);
    forall i | 0 <= i < |seen| ensures todo[i] in log {
      assert seen[i] in seen;
    }
    PrefixPosition(log, todo, |seen|);
  }

  lemma {:induction false} PendingDistinct(files: seq<string>, recorded: set<string>)
    requires Distinct(files)
    ensures Distinct(Pending(files, recorded))
  {
    if files != [] {
      var init := files[..|files| - 1];
      PendingDistinct(init, recorded);
      PendingMembers(init, recorded);
      var last := files[|files| - 1];
      assert last !in init;
      assert last !in Pending(init, recorded);
    }
  }

  lemma {:induction false} CommitsFollowListing(baseline: set<string>, es: seq<Event>, files: seq<string>)
    requires Possible(baseline, es) && Distinct(files) && FixedDirectory(es, files)
    ensures After(baseline, es).log <= Pending(files, baseline)
    ensures AllList(After(baseline, es), files)
  {
    if es != [] {
      var before := es[..|es| - 1];
      CommitsFollowListing(baseline, before, files);
      ReachableConsistent(baseline, before);
      if es[|es| - 1].Commit? {
        CommitsNext(baseline, After(baseline, before), files, es[|es| - 1].b);
      }
    }
  }

  /**
    With one sorted directory the commits follow its order: after any run, and so after every
    crash, what has been committed is a prefix of the sorted pending files, even when boots overlap;
    a file with a smaller number is committed before every file with a larger one.
  */
  lemma CommitsAreSortedPrefix(baseline: set<string>, es: seq<Event>, names: seq<string>)
    requires Possible(baseline, es) && Distinct(names) && FixedDirectory(es, ListSql(names))
    ensures After(baseline, es).log <= Pending(ListSql(names), baseline)
    ensures Sorted(After(baseline, es).log) && NumbersAscend(After(baseline, es).log)
    ensures AllList(After(baseline, es), ListSql(names))
  {
    hide Less, ListSql, NumbersAscend, Pending, After;
    ListSqlSorted(names);
    PendingOrder(ListSql(names), baseline);
    CommitsFollowListing(baseline, es, ListSql(names));
    PrefixSorted(After(baseline, es).log, Pending(ListSql(names), baseline));
    SortedByNumber(After(baseline, es).log);
  }

  lemma PrefixSorted(a: seq<string>, b: seq<string>)
    requires a <= b && Sorted(b)
    ensures Sorted(a)
  {
  }

  /** When such a boot finishes, exactly the pending files have been committed, in sorted order. */
  lemma FinishedMeansComplete(baseline: set<string>, es: seq<Event>, names: seq<string>, b: nat)
    requires Possible(baseline, es) && Distinct(names) && FixedDirectory(es, ListSql(names))
    requires b < |After(baseline, es).boots| && After(baseline, es).boots[b].phase.Done?
    ensures After(baseline, es).log == Pending(ListSql(names), baseline)
  {
    var files := ListSql(names);
    var s := After(baseline, es);
    var todo := Pending(files, baseline);
    CommitsAreSortedPrefix(baseline, es, names);
    ListSqlSorted(names);
    PendingMembers(files, baseline);
    PendingDistinct(files, baseline);
    if todo != [] {
      var last := todo[|todo| - 1];
      assert last in todo;
      FinishedBootApplied(baseline, es, b, last);
      var j :| 0 <= j < |s.log| && s.log[j] == last;
      assert todo[j] == last;
    }
  }
}
