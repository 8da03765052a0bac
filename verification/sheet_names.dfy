/**
  Unique sheet names in the payroll workbook: the de-duplication loop of `buildFullWorkbook`.
*/
module SheetNames {
  import opened Common

  const SUMMARY := "Tổng hợp"

  predicate Forbidden(c: char) { c in {'\\', '/', '*', '?', ':', '[', ']'} }

  function Take(s: string, n: nat): (r: string)
    ensures |r| <= n && |r| <= |s|
  {
    if |s| <= n then s else s[..n]
  }

  function Cleaned(s: string): (r: string)
    ensures |r| == |s|
  {
    seq(|s|, i requires 0 <= i < |s| => if Forbidden(s[i]) then ' ' else s[i])
  }

  /** The name or 'NV', cut to 28 characters, with the characters Excel forbids replaced by spaces. */
  function BaseName(name: string): string {
    Cleaned(Take(if name == "" then "NV" else name, 28))
  }

  function Decimal(n: nat): (s: string)
    ensures s != "" && forall i :: 0 <= i < |s| ==> '0' <= s[i] <= '9'
  {
    if n < 10 then ['0' + n as char] else Decimal(n / 10) + ['0' + (n % 10) as char]
  }

  function Value(s: string): nat {
    if s == "" then 0
    else Value(s[..|s| - 1]) * 10 + (if '0' <= s[|s| - 1] <= '9' then (s[|s| - 1] - '0') as nat else 0)
  }

  lemma {:induction false} DecimalValue(n: nat)
    ensures Value(Decimal(n)) == n
  {
    var s := Decimal(n);
    if n < 10 {
      assert s[..0] == "";
    } else {
      DecimalValue(n / 10);
      assert s[..|s| - 1] == Decimal(n / 10);
    }
  }

  /** The name tried with suffix `k`: `${name.slice(0, 26)} ${k}`. */
  function Candidate(base: string, k: nat): string { Take(base, 26) + " " + Decimal(k) }

  /** Different suffixes give different names. */
  lemma CandidatesDiffer(base: string, j: nat, k: nat)
    requires Candidate(base, j) == Candidate(base, k)
    ensures j == k
  {
    var head := Take(base, 26) + " ";
    assert Candidate(base, j)[|head|..] == Decimal(j);
    assert Candidate(base, k)[|head|..] == Decimal(k);
    DecimalValue(j);
    DecimalValue(k);
  }

  /** The candidates tried before suffix `k`. */
  function Tried(base: string, k: nat): set<string> { set j | 2 <= j < k :: Candidate(base, j) }

  lemma {:induction false} TriedSize(base: string, k: nat)
    requires k >= 2
    ensures |Tried(base, k)| == k - 2
  {
    if k == 2 {
      assert Tried(base, 2) == {};
    } else {
      TriedSize(base, k - 1);
      assert Tried(base, k) == Tried(base, k - 1) + {Candidate(base, k - 1)};
      if Candidate(base, k - 1) in Tried(base, k - 1) {
        var j :| 2 <= j < k - 1 && Candidate(base, j) == Candidate(base, k - 1);
        CandidatesDiffer(base, j, k - 1);
      }
    }
  }

  lemma SubsetSize(a: set<string>, b: set<string>)
    requires a <= b
    ensures |a| <= |b|
  {
    if a != {} {
      var x :| x in a;
      SubsetSize(a - {x}, b - {x});
    }
  }

  /** When all suffixes below `k` are taken there are at least that many names in use. */
  lemma Pigeonhole(base: string, k: nat, used: set<string>)
    requires k >= 2 && Tried(base, k) <= used
    ensures k - 2 <= |used|
  {
    TriedSize(base, k);
    SubsetSize(Tried(base, k), used);
  }

  /** The name given to an employee: the base name, or the first free numbered one. */
  predicate IsFresh(base: string, used: set<string>, n: string) {
    && n !in used
    && (base !in used ==> n == base)
    && (base in used ==> exists k :: 2 <= k <= |used| + 2 && n == Candidate(base, k) && Tried(base, k) <= used)
  }

  /** The inner loop; it stops because each turn finds one more used name. */
  method FreshName(base: string, used: set<string>) returns (n: string)
    ensures IsFresh(base, used, n)
  {
    n := base;
    var k := 2;
    while n in used
      invariant k >= 2 && Tried(base, if k == 2 then 2 else k - 1) <= used
      invariant k == 2 ==> n == base
      invariant k > 2 ==> base in used && n == Candidate(base, k - 1)
      decreases |used| + 3 - k
    {
      Pigeonhole(base, if k == 2 then 2 else k - 1, used);
      if k > 2 {
        assert Tried(base, k) == Tried(base, k - 1) + {n};
        Pigeonhole(base, k, used);
      }
      n := Candidate(base, k);
      k := k + 1;
    }
    if k > 2 {
      Pigeonhole(base, k - 1, used);
    }
  }

  predicate Distinct(names: seq<string>) {
    forall i, j :: 0 <= i < j < |names| ==> names[i] != names[j]
  }

  /** Sheet `j + 1` carries the fresh name of employee `j`, given the names before it. */
  predicate NamedInTurn(employees: seq<string>, names: seq<string>) {
    && 1 <= |names| <= |employees| + 1 && names[0] == SUMMARY
    && forall j :: 1 <= j < |names| ==> NamedAt(employees, names, j)
  }

  predicate NamedAt(employees: seq<string>, names: seq<string>, j: nat)
    requires 1 <= j < |names| <= |employees| + 1
  {
    IsFresh(BaseName(employees[j - 1]), SetOf(names[..j]), names[j])
  }

  lemma NamedOneMore(employees: seq<string>, names: seq<string>, n: string)
    requires NamedInTurn(employees, names) && Distinct(names) && |names| <= |employees|
    requires IsFresh(BaseName(employees[|names| - 1]), SetOf(names), n)
    ensures NamedInTurn(employees, names + [n]) && Distinct(names + [n])
    ensures SetOf(names + [n]) == SetOf(names) + {n}
  {
    var more := names + [n];
    forall j | 1 <= j < |more| ensures NamedAt(employees, more, j) {
      if j < |names| {
        assert NamedAt(employees, names, j);
        assert more[..j] == names[..j];
      } else {
        assert more[..j] == names;
      }
    }
    assert forall i :: 0 <= i < |names| ==> names[i] in SetOf(names);
  }

  /** The sheet names of a workbook, in order: the summary, then one sheet per employee. */
  method NameSheets(employees: seq<string>) returns (names: seq<string>)
    ensures |names| == |employees| + 1
    ensures Distinct(names)
    ensures NamedInTurn(employees, names)
  {
    var used := {SUMMARY};
    names := [SUMMARY];
    for i := 0 to |employees|
      invariant |names| == i + 1
      invariant used == SetOf(names) && Distinct(names) && NamedInTurn(employees, names)
    {
      var n := FreshName(BaseName(employees[i]), used);
      NamedOneMore(employees, names, n);
      names := names + [n];
      used := used + {n};
    }
  }

  // ---- length ----

  /** A number has more than `d` digits exactly from 10^d on. */
  lemma {:induction false} DecimalLength(n: nat, d: nat)
    requires d >= 1
    ensures |Decimal(n)| <= d <==> n < Power10(d)
  {
    if n >= 10 {
      if d > 1 {
        DecimalLength(n / 10, d - 1);
      } else {
        assert Power10(1) == 10;
      }
    } else {
      PowerGrows(d);
    }
  }

  function Power10(d: nat): nat { if d == 0 then 1 else 10 * Power10(d - 1) }

  lemma {:induction false} PowerGrows(d: nat)
    requires d >= 1
    ensures Power10(d) >= 10
  {
    if d > 1 {
      PowerGrows(d - 1);
    }
  }

  /** A numbered name keeps to Excel's 31 characters exactly when its head and its number fit together. */
  lemma CandidateFits(base: string, k: nat)
    ensures |Candidate(base, k)| <= 31 <==> |Take(base, 26)| + |Decimal(k)| <= 30
    ensures k < 10000 ==> |Candidate(base, k)| <= 31
    ensures k >= 10000 && |base| >= 26 ==> |Candidate(base, k)| > 31
  {
    DecimalLength(k, 4);
    assert Power10(4) == 10000;
  }

  /** The characters Excel refuses in a sheet name. */
  predicate HasForbidden(s: string) {
    '\\' in s || '/' in s || '*' in s || '?' in s || ':' in s || '[' in s || ']' in s
  }

  lemma {:induction false} DecimalPlain(n: nat)
    ensures !HasForbidden(Decimal(n))
  {
    forall c | c in Decimal(n) ensures '0' <= c <= '9' {
      var i :| 0 <= i < |Decimal(n)| && Decimal(n)[i] == c;
    }
  }

  /** No sheet name contains one, and the base name is the employee's own first 28 characters with them blanked. */
  lemma NamePlain(name: string, used: set<string>, n: string)
    requires IsFresh(BaseName(name), used, n)
    ensures !HasForbidden(n)
  {
    hide Decimal;
    var base := BaseName(name);
    BasePlain(name);
    if base in used {
      var k :| 2 <= k <= |used| + 2 && n == Candidate(base, k) && Tried(base, k) <= used;
      DecimalPlain(k);
      assert forall c :: c in Take(base, 26) ==> c in base;
      assert forall c :: c in n ==> c in Take(base, 26) || c == ' ' || c in Decimal(k);
    }
  }

  lemma BasePlain(name: string)
    ensures !HasForbidden(BaseName(name))
    ensures var source := if name == "" then "NV" else name;
            var base := BaseName(name);
            && |base| == (if |source| < 28 then |source| else 28)
            && forall i :: 0 <= i < |base| ==>
                 base[i] == if HasForbidden([source[i]]) then ' ' else source[i]
  {
  }

  /** Every sheet name: at most 28 characters unnumbered, and at most 31 while the suffix stays below 10,000. */
  lemma NameFits(name: string, used: set<string>, n: string)
    requires IsFresh(BaseName(name), used, n)
    ensures 0 < |n|
    ensures n == BaseName(name) ==> |n| <= 28
    ensures n != BaseName(name) ==>
              exists k :: k >= 2 && n == Candidate(BaseName(name), k) && (k < 10000 ==> |n| <= 31)
  {
    var base := BaseName(name);
    if base in used {
      var k :| 2 <= k <= |used| + 2 && n == Candidate(base, k) && Tried(base, k) <= used;
      CandidateFits(base, k);
    }
  }

  /** The bound is tight: from suffix 10,000 on, a name of 26 characters or more does not fit. */
  lemma LongSuffixOverflows(name: string, k: nat)
    requires |name| >= 26 && k >= 10000
    ensures |Candidate(BaseName(name), k)| > 31
  {
    CandidateFits(BaseName(name), k);
  }
}
