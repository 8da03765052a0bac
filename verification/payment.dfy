/**
  The payment account table through migrations 005, 099, 100 and 101.

  Each statement is executed against the constraints in force at that moment: adding a CHECK or a
  unique index validates the rows that are there, and an UPDATE is checked row by row, against the
  other rows as they are at that point. A statement that violates one makes the migration fail.
*/
module Payment {

  /** An account. `kind` is the column called `purpose` by 099 and `kind` from 100 on. */
  datatype Row = Row(id: string, active: bool, kind: string)

  datatype Column = NoColumn | Purpose | Kind

  datatype Index =
    | OneActive         // (is_active) WHERE is_active
    | OneActivePerKind  // (purpose) or (kind) WHERE is_active
    | OnePerKind        // (kind) WHERE kind <> 'none'

  predicate Collide(x: Index, a: Row, b: Row) {
    match x
    case OneActive => a.active && b.active
    case OneActivePerKind => a.active && b.active && a.kind == b.kind
    case OnePerKind => a.kind == b.kind && a.kind != "none"
  }

  predicate UniqueOn(x: Index, rows: seq<Row>) {
    forall i, j :: 0 <= i < j < |rows| ==> !Collide(x, rows[i], rows[j])
  }

  predicate KindsIn(allowed: set<string>, rows: seq<Row>) {
    forall i :: 0 <= i < |rows| ==> rows[i].kind in allowed
  }

  /** No two accounts collide, whichever comes first. */
  lemma UniqueEitherWay(x: Index, rows: seq<Row>)
    ensures UniqueOn(x, rows) <==>
            forall i, j | 0 <= i < |rows| && 0 <= j < |rows| && Collide(x, rows[i], rows[j]) :: i == j
  {
    if UniqueOn(x, rows) {
      forall i, j | 0 <= i < |rows| && 0 <= j < |rows| && Collide(x, rows[i], rows[j]) ensures i == j {
        var first, second := if i < j then i else j, if i < j then j else i;
        assert Collide(x, rows[first], rows[second]);
      }
    }
  }

  /** What the three indexes allow, account by account. */
  lemma IndexesMean(rows: seq<Row>)
    ensures UniqueOn(OneActive, rows) <==>
            forall i, j :: 0 <= i < |rows| && 0 <= j < |rows| && rows[i].active && rows[j].active ==> i == j
    ensures UniqueOn(OneActivePerKind, rows) <==>
            forall i, j | 0 <= i < |rows| && 0 <= j < |rows| && rows[i].active && rows[j].active &&
                          rows[i].kind == rows[j].kind
              :: i == j
    ensures UniqueOn(OnePerKind, rows) <==>
            forall i, j | 0 <= i < |rows| && 0 <= j < |rows| && rows[i].kind != "none" &&
                          rows[i].kind == rows[j].kind
              :: i == j
  {
    UniqueEitherWay(OneActive, rows);
    UniqueEitherWay(OneActivePerKind, rows);
    UniqueEitherWay(OnePerKind, rows);
  }

  // ---- what each migration does to a row ----

  function Receive(r: Row): Row { r.(kind := "receive") }

  function ToKind(r: Row): Row {
    if r.kind == "receive" then r.(kind := "hkd") else if r.kind == "spend" then r.(kind := "personal") else r
  }

  function DropUnused(r: Row): Row { if !r.active then r.(kind := "none") else r }

  function DeriveActive(r: Row): Row { r.(active := r.kind != "none") }

  /** `rows` with the first `n` of them changed by `f`. */
  function MapFirst(f: Row -> Row, rows: seq<Row>, n: nat): (out: seq<Row>)
    requires n <= |rows|
    ensures |out| == |rows|
  {
    seq(|rows|, i requires 0 <= i < |rows| => if i < n then f(rows[i]) else rows[i])
  }

  function MapAll(f: Row -> Row, rows: seq<Row>): (out: seq<Row>)
    ensures |out| == |rows|
    ensures forall i :: 0 <= i < |rows| ==> out[i] == f(rows[i])
  {
    MapFirst(f, rows, |rows|)
  }

  const PURPOSES := {"receive", "spend"}
  const KINDS := {"hkd", "personal"}
  const KINDS_OR_NONE := {"hkd", "personal", "none"}

  class PaymentAccounts {
    var rows: seq<Row>
    var column: Column
    var check: set<string>   // the values allowed by the CHECK in force; everything when there is none
    var hasCheck: bool
    var indexes: set<Index>

    /** Every constraint in force holds of the rows. */
    ghost predicate Consistent()
      reads this
    {
      (hasCheck ==> KindsIn(check, rows)) && forall x :: x in indexes ==> UniqueOn(x, rows)
    }

    ghost predicate After005()
      reads this
    {
      Consistent() && column == NoColumn && !hasCheck && indexes == {OneActive}
    }

    ghost predicate After099()
      reads this
    {
      Consistent() && column == Purpose && hasCheck && check == PURPOSES && indexes == {OneActivePerKind}
    }

    ghost predicate After100()
      reads this
    {
      Consistent() && column == Kind && hasCheck && check == KINDS && indexes == {OneActivePerKind}
    }

    ghost predicate After101()
      reads this
    {
      Consistent() && column == Kind && hasCheck && check == KINDS_OR_NONE && indexes == {OnePerKind}
    }

    /** 005 on an empty database: the table, its index, and the seeded account. */
    constructor (seedId: string)
      ensures After005() && rows == [Row(seedId, true, "")]
    {
      rows, column, check, hasCheck, indexes := [Row(seedId, true, "")], NoColumn, {}, false, {OneActive};
    }

    // ---- statements ----

    method DropCheck()
      modifies `hasCheck
      ensures !hasCheck
    {
      hasCheck := false;
    }

    /** ADD CONSTRAINT ... CHECK: fails when a row is outside. */
    method AddCheck(allowed: set<string>) returns (ok: bool)
      requires !hasCheck
      modifies `hasCheck, `check
      ensures ok <==> KindsIn(allowed, rows)
      ensures ok ==> hasCheck && check == allowed
    {
      for i := 0 to |rows|
        invariant !hasCheck && KindsIn(allowed, rows[..i])
      {
        if rows[i].kind !in allowed { return false; }
      }
      hasCheck, check, ok := true, allowed, true;
    }

    method DropIndex(x: Index)
      modifies `indexes
      ensures indexes == old(indexes) - {x}
    {
      indexes := indexes - {x};
    }

    /** CREATE UNIQUE INDEX: fails when two rows collide. */
    method CreateIndex(x: Index) returns (ok: bool)
      modifies `indexes
      ensures ok <==> UniqueOn(x, rows)
      ensures indexes == if ok then old(indexes) + {x} else old(indexes)
    {
      ok := UniqueOn(x, rows);
      if ok { indexes := indexes + {x}; }
    }

    /** One row version written by an UPDATE, checked against the constraints and the other rows at once. */
    method WriteRow(i: nat, r: Row) returns (ok: bool)
      requires i < |rows|
      modifies `rows
      ensures ok <==> (hasCheck ==> r.kind in check) &&
                      forall x, j :: x in indexes && 0 <= j < |old(rows)| && j != i ==> !Collide(x, r, old(rows)[j])
      ensures rows == if ok then old(rows)[i := r] else old(rows)
    {
      ok := (hasCheck ==> r.kind in check) &&
            forall x, j :: x in indexes && 0 <= j < |rows| && j != i ==> !Collide(x, r, rows[j]);
      if ok { rows := rows[i := r]; }
    }

    /** UPDATE ... SET by `f`; rows that `f` leaves alone are the ones the WHERE clause skips. */
    method Update(f: Row -> Row) returns (ok: bool)
      requires hasCheck ==> forall i :: 0 <= i < |rows| ==> f(rows[i]).kind in check
      requires forall n, x :: 0 <= n <= |rows| && x in indexes ==> UniqueOn(x, MapFirst(f, rows, n))
      modifies `rows
      ensures ok && rows == MapAll(f, old(rows))
    {
      ghost var before := rows;
      for i := 0 to |rows|
        invariant |rows| == |before| && rows == MapFirst(f, before, i)
      {
        var r := f(rows[i]);
        if r != rows[i] {
          ghost var next := MapFirst(f, before, i + 1);
          assert rows[i := r] == next;
          forall x, j | x in indexes && 0 <= j < |rows| && j != i ensures !Collide(x, r, rows[j]) {
            assert UniqueOn(x, next);
            assert next[i] == r && next[j] == rows[j];
          }
          ok := WriteRow(i, r);
          if !ok { return; }
        }
        assert rows == MapFirst(f, before, i + 1);
      }
      ok := true;
    }

    // ---- the migrations ----

    /** 099: adds the purpose column, its CHECK, and one active account per purpose. */
    method Migrate099() returns (ok: bool)
      requires After005()
      modifies this
      ensures ok && After099()
      ensures column == Purpose && hasCheck && check == {"receive", "spend"} && indexes == {OneActivePerKind}
      ensures rows == MapAll(Receive, old(rows))
    {
      if column == NoColumn {
        rows, column := MapAll(Receive, rows), Purpose;
      }
      DropCheck();
      ok := AddCheck(PURPOSES);
      if !ok { return; }
      DropIndex(OneActive);
      forall i, j | 0 <= i < j < |rows| ensures !Collide(OneActivePerKind, rows[i], rows[j]) {
        assert !Collide(OneActive, old(rows)[i], old(rows)[j]);
      }
      ok := CreateIndex(OneActivePerKind);
    }

    /** 100: renames the column, maps the values, swaps CHECK and index. */
    method Migrate100() returns (ok: bool)
      requires After099()
      modifies this
      ensures ok && After100()
      ensures column == Kind && hasCheck && check == {"hkd", "personal"} && indexes == {OneActivePerKind}
      ensures rows == MapAll(ToKind, old(rows))
    {
      if column == Purpose { column := Kind; }
      DropCheck();
      forall n | 0 <= n <= |rows| ensures UniqueOn(OneActivePerKind, MapFirst(ToKind, rows, n)) {
        MappingKeepsUnique(rows, n);
      }
      ok := Update(ToKind);
      if !ok { return; }
      ok := AddCheck(KINDS);
      if !ok { return; }
      DropIndex(OneActivePerKind);
      MappingKeepsUnique(old(rows), |rows|);
      ok := CreateIndex(OneActivePerKind);
    }

    /** 101: accounts that are not in use become 'none', is_active follows, and each real kind is unique. */
    method Migrate101() returns (ok: bool)
      requires After100()
      modifies this
      ensures ok && After101()
      ensures column == Kind && hasCheck && check == {"hkd", "personal", "none"} && indexes == {OnePerKind}
      ensures rows == MapAll(DeriveActive, MapAll(DropUnused, old(rows)))
    {
      DropCheck();
      forall n | 0 <= n <= |rows| ensures UniqueOn(OneActivePerKind, MapFirst(DropUnused, rows, n)) {
        DroppingKeepsUnique(rows, n);
      }
      ok := Update(DropUnused);
      if !ok { return; }
      ok := AddCheck(KINDS_OR_NONE);
      if !ok { return; }
      forall n | 0 <= n <= |rows| ensures UniqueOn(OneActivePerKind, MapFirst(DeriveActive, rows, n)) {
        DerivingChangesNothing(old(rows), n);
      }
      ok := Update(DeriveActive);
      if !ok { return; }
      DropIndex(OneActivePerKind);
      DerivingChangesNothing(old(rows), |rows|);
      ok := CreateIndex(OnePerKind);
    }
  }

  lemma MappingKeepsUnique(rows: seq<Row>, n: nat)
    requires n <= |rows| && UniqueOn(OneActivePerKind, rows) && KindsIn(PURPOSES, rows)
    ensures UniqueOn(OneActivePerKind, MapFirst(ToKind, rows, n))
  {
    var out := MapFirst(ToKind, rows, n);
    forall i, j | 0 <= i < j < |out| ensures !Collide(OneActivePerKind, out[i], out[j]) {
      assert !Collide(OneActivePerKind, rows[i], rows[j]);
    }
  }

  lemma DroppingKeepsUnique(rows: seq<Row>, n: nat)
    requires n <= |rows| && UniqueOn(OneActivePerKind, rows)
    ensures UniqueOn(OneActivePerKind, MapFirst(DropUnused, rows, n))
  {
    var out := MapFirst(DropUnused, rows, n);
    forall i, j | 0 <= i < j < |out| ensures !Collide(OneActivePerKind, out[i], out[j]) {
      assert !Collide(OneActivePerKind, rows[i], rows[j]);
    }
  }

  /** After the first UPDATE of 101 the second one finds every is_active right already. */
  lemma DerivingChangesNothing(rows: seq<Row>, n: nat)
    requires n <= |rows| && KindsIn(KINDS, rows) && UniqueOn(OneActivePerKind, rows)
    ensures var dropped := MapAll(DropUnused, rows);
            MapFirst(DeriveActive, dropped, n) == dropped
            && UniqueOn(OneActivePerKind, dropped) && UniqueOn(OnePerKind, dropped)
  {
    var dropped := MapAll(DropUnused, rows);
    var derived := MapFirst(DeriveActive, dropped, n);
    forall i | 0 <= i < |rows| ensures derived[i] == dropped[i] {
      assert rows[i].kind == "hkd" || rows[i].kind == "personal";
      assert |"hkd"| == 3 && |"personal"| == 8 && |"none"| == 4;
    }
    forall i, j | 0 <= i < j < |dropped|
      ensures !Collide(OneActivePerKind, dropped[i], dropped[j]) && !Collide(OnePerKind, dropped[i], dropped[j])
    {
      assert !Collide(OneActivePerKind, rows[i], rows[j]);
    }
  }

  // ---- the whole chain ----

  /** A table as the application may leave it between 099 and 100. */
  predicate Legal099(rows: seq<Row>) { KindsIn(PURPOSES, rows) && UniqueOn(OneActivePerKind, rows) }

  function Chain(rows: seq<Row>): seq<Row> {
    MapAll(DeriveActive, MapAll(DropUnused, MapAll(ToKind, rows)))
  }

  /**
    From any table legal after 099 to the one after 101: the same accounts in the same order, the
    same ones active, receive become hkd and spend personal, everything else 'none'; is_active is
    exactly kind <> 'none', and no two accounts share a real kind.
  */
  lemma ChainKeepsAccounts(rows: seq<Row>)
    requires Legal099(rows)
    ensures var out := Chain(rows);
            && |out| == |rows|
            && (forall i :: 0 <= i < |rows| ==>
                  out[i] == Row(rows[i].id, rows[i].active,
                                if !rows[i].active then "none" else if rows[i].kind == "receive" then "hkd"
                                else "personal"))
            && (forall i :: 0 <= i < |rows| ==> (out[i].active <==> out[i].kind != "none"))
            && UniqueOn(OnePerKind, out) && KindsIn(KINDS_OR_NONE, out)
  {
    var kinds := MapAll(ToKind, rows);
    MappingKeepsUnique(rows, |rows|);
    forall i | 0 <= i < |rows| ensures kinds[i].kind in KINDS {
      assert rows[i].kind in PURPOSES;
    }
    DerivingChangesNothing(kinds, |kinds|);
    forall i | 0 <= i < |rows|
      ensures Chain(rows)[i] == Row(rows[i].id, rows[i].active,
                if !rows[i].active then "none" else if rows[i].kind == "receive" then "hkd" else "personal")
    {
      assert rows[i].kind in PURPOSES;
    }
  }

  /**
    The whole chain from a table that 005 allows, with at most one active account: the same accounts
    in the same order, that one the shop's ("hkd"), every other unused, the active ones the same.
  */
  lemma ChainFrom005(rows: seq<Row>)
    requires forall i, j :: 0 <= i < |rows| && 0 <= j < |rows| && rows[i].active && rows[j].active ==> i == j
    ensures var out := Chain(MapAll(Receive, rows));
            && |out| == |rows|
            && (forall i :: 0 <= i < |rows| ==>
                  out[i] == Row(rows[i].id, rows[i].active, if rows[i].active then "hkd" else "none"))
  {
    var first := MapAll(Receive, rows);
    IndexesMean(first);
    ChainKeepsAccounts(first);
  }

  /** Running the updates of 101 again changes nothing. */
  lemma Rerun101NoOp(rows: seq<Row>)
    requires Legal099(rows)
    ensures MapAll(DropUnused, Chain(rows)) == Chain(rows)
    ensures MapAll(DeriveActive, Chain(rows)) == Chain(rows)
  {
    ChainKeepsAccounts(rows);
  }
}
