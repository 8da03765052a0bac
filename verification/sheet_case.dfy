/**
  Sheet names up to case. The loop compares names as they are written, Excel ignores case: when
  are the names of a workbook pairwise different to Excel as well?

  Case is a fold of single characters that keeps spaces apart from everything else and digits
  apart from each other.
*/
module SheetCase {
  import opened Common
  import opened SheetNames

  ghost predicate FoldsCase(fold: char -> char) {
    && (forall c :: fold(c) == fold(' ') <==> c == ' ')
    && (forall c, d :: '0' <= c <= '9' && '0' <= d <= '9' && fold(c) == fold(d) ==> c == d)
  }

  /** The same name to Excel. */
  predicate Same(fold: char -> char, a: string, b: string) {
    |a| == |b| && forall i :: 0 <= i < |a| ==> fold(a[i]) == fold(b[i])
  }

  predicate DistinctToExcel(fold: char -> char, names: seq<string>) {
    forall i, j :: 0 <= i < j < |names| ==> !Same(fold, names[i], names[j])
  }

  /** What each sheet would like to be called: the summary, then the base name of each employee. */
  function Bases(employees: seq<string>): (b: seq<string>)
    ensures |b| == |employees| + 1
  {
    [SUMMARY] + seq(|employees|, i requires 0 <= i < |employees| => BaseName(employees[i]))
  }

  predicate Repeated(bases: seq<string>, j: nat) {
    j < |bases| && exists i :: 0 <= i < j && bases[i] == bases[j]
  }

  /** Names that occur in the workbook whatever the order: every base name, and number 2 of every repeated one. */
  function SureNames(bases: seq<string>): set<string> {
    (set b | b in bases) + (set j | 0 <= j < |bases| && Repeated(bases, j) :: Candidate(bases[j], 2))
  }

  /** Two of them that Excel takes for the same are the same. */
  predicate OneCase(fold: char -> char, sure: set<string>) {
    forall x, y :: x in sure && y in sure && Same(fold, x, y) ==> x == y
  }

  /** No base name looks, to Excel, like a numbered form of one. */
  ghost predicate NoNumberedTwin(fold: char -> char, bases: seq<string>) {
    forall i, j, k: nat :: 0 <= i < |bases| && 0 <= j < |bases| && k >= 2 ==>
      !Same(fold, bases[i], Candidate(bases[j], k))
  }

  // ---- numbered forms ----

  /** The space before the number is the last one. */
  lemma LastSpace(c: string, l: nat)
    ensures forall p :: |Take(c, 26)| < p < |Candidate(c, l)| ==> Candidate(c, l)[p] != ' '
  {
    var n := |Take(c, 26)|;
    forall p | n < p < |Candidate(c, l)| ensures Candidate(c, l)[p] != ' ' {
      assert Candidate(c, l)[p] == Decimal(l)[p - n - 1];
    }
  }

  /** It stands at the same place in both, so the numbers are as long. */
  lemma SameNumberLength(fold: char -> char, b: string, k: nat, c: string, l: nat)
    requires FoldsCase(fold) && Same(fold, Candidate(b, k), Candidate(c, l))
    ensures |Decimal(k)| >= |Decimal(l)|
  {
    var p := |Take(b, 26)|;
    assert Candidate(b, k)[p] == ' ';
    assert fold(Candidate(c, l)[p]) == fold(' ');
    LastSpace(c, l);
  }

  lemma SameNumbered(fold: char -> char, b: string, k: nat, c: string, l: nat)
    requires FoldsCase(fold) && Same(fold, Candidate(b, k), Candidate(c, l))
    ensures k == l && Same(fold, Take(b, 26), Take(c, 26))
  {
    SameNumberLength(fold, b, k, c, l);
    assert Same(fold, Candidate(c, l), Candidate(b, k));
    SameNumberLength(fold, c, l, b, k);
    var u, v, n := Candidate(b, k), Candidate(c, l), |Take(b, 26)|;
    forall i | 0 <= i < n ensures fold(Take(b, 26)[i]) == fold(Take(c, 26)[i]) {
      assert u[i] == Take(b, 26)[i] && v[i] == Take(c, 26)[i];
    }
    forall i | 0 <= i < |Decimal(k)| ensures Decimal(k)[i] == Decimal(l)[i] {
      assert u[n + 1 + i] == Decimal(k)[i] && v[n + 1 + i] == Decimal(l)[i];
    }
    assert Decimal(k) == Decimal(l);
    DecimalValue(k);
    DecimalValue(l);
  }

  lemma SameHeads(fold: char -> char, b: string, c: string, k: nat)
    requires Same(fold, Take(b, 26), Take(c, 26))
    ensures Same(fold, Candidate(b, k), Candidate(c, k))
    ensures Candidate(b, k) == Candidate(c, k) ==> Take(b, 26) == Take(c, 26)
  {
    var u, v, n := Candidate(b, k), Candidate(c, k), |Take(b, 26)|;
    forall i | 0 <= i < |u| ensures fold(u[i]) == fold(v[i]) {
      if i < n {
        assert u[i] == Take(b, 26)[i] && v[i] == Take(c, 26)[i];
      } else if i > n {
        assert u[i] == Decimal(k)[i - n - 1] == v[i];
      }
    }
    assert u[..n] == Take(b, 26) && v[..n] == Take(c, 26);
  }

  // ---- what the loop does with the base names ----

  ghost predicate Workbook(employees: seq<string>, names: seq<string>) {
    NamedInTurn(employees, names) && Distinct(names) && |names| == |employees| + 1
  }

  lemma BaseUsed(employees: seq<string>, names: seq<string>, j: nat)
    requires Workbook(employees, names) && j < |names|
    ensures Bases(employees)[j] in SetOf(names[..j + 1])
  {
    assert names[..j + 1][j] == names[j];
    if j > 0 {
      assert NamedAt(employees, names, j);
      assert forall n :: n in names[..j] ==> n in names[..j + 1];
    }
  }

  lemma UsedBefore(names: seq<string>, i: nat, j: nat)
    requires i <= j <= |names|
    ensures SetOf(names[..i]) <= SetOf(names[..j])
  {
    forall n | n in names[..i] ensures n in names[..j] {
      var k :| 0 <= k < i && names[..i][k] == n;
      assert names[..j][k] == n;
    }
  }

  /** A base name that repeats an earlier one has brought its number 2 into the workbook. */
  lemma NumberTwoUsed(employees: seq<string>, names: seq<string>, i: nat, j: nat)
    requires Workbook(employees, names) && i < j < |names|
    requires Bases(employees)[i] == Bases(employees)[j]
    ensures Candidate(Bases(employees)[j], 2) in names
  {
    hide Candidate, BaseName, Distinct;
    var base := Bases(employees)[j];
    BaseUsed(employees, names, i);
    UsedBefore(names, i + 1, j);
    assert NamedAt(employees, names, j);
    var used := SetOf(names[..j]);
    assert base in used;
    FirstNumberTried(base, used, names[j]);
    if Candidate(base, 2) in used {
      assert Candidate(base, 2) in names[..j];
    }
  }

  lemma FirstNumberTried(base: string, used: set<string>, n: string)
    requires IsFresh(base, used, n) && base in used
    ensures Candidate(base, 2) in used || n == Candidate(base, 2)
  {
    hide Candidate;
    var k :| 2 <= k <= |used| + 2 && n == Candidate(base, k) && Tried(base, k) <= used;
    if k > 2 {
      assert Candidate(base, 2) in Tried(base, k);
    }
  }

  /** Every sure name is the name of a sheet. */
  lemma SureNamesOccur(employees: seq<string>, names: seq<string>, x: string)
    requires Workbook(employees, names) && x in SureNames(Bases(employees))
    ensures x in names
  {
    hide Candidate, NamedInTurn, Distinct;
    var bases := Bases(employees);
    if x in bases {
      var j :| 0 <= j < |bases| && bases[j] == x;
      BaseUsed(employees, names, j);
    } else {
      var j :| 0 <= j < |bases| && Repeated(bases, j) && x == Candidate(bases[j], 2);
      var i :| 0 <= i < j && bases[i] == bases[j];
      NumberTwoUsed(employees, names, i, j);
    }
  }

  /** A sheet carries its base name or a numbered form; the latter only when the base name is taken. */
  lemma NameForm(employees: seq<string>, names: seq<string>, j: nat) returns (k: nat)
    requires Workbook(employees, names) && j < |names|
    ensures var bases := Bases(employees);
            names[j] == bases[j] || (k >= 2 && names[j] == Candidate(bases[j], k) && bases[j] in names[..j])
  {
    k := 2;
    if j > 0 {
      assert NamedAt(employees, names, j);
      if Bases(employees)[j] in SetOf(names[..j]) {
        k :| 2 <= k <= |SetOf(names[..j])| + 2 && names[j] == Candidate(Bases(employees)[j], k);
      }
    }
  }

  lemma NoTwin(fold: char -> char, bases: seq<string>, i: nat, j: nat, k: nat)
    requires NoNumberedTwin(fold, bases) && i < |bases| && j < |bases|
    ensures k >= 2 ==> bases[i] != Candidate(bases[j], k)
  {
    assert Same(fold, bases[i], bases[i]);
  }

  /** Without numbered twins a base name that is taken repeats an earlier one. */
  lemma NameKind(fold: char -> char, employees: seq<string>, names: seq<string>, j: nat) returns (k: nat)
    requires Workbook(employees, names) && NoNumberedTwin(fold, Bases(employees)) && j < |names|
    ensures var bases := Bases(employees);
            names[j] == bases[j] || (k >= 2 && names[j] == Candidate(bases[j], k) && Repeated(bases, j))
  {
    hide NoNumberedTwin;
    var bases := Bases(employees);
    k := NameForm(employees, names, j);
    if bases[j] in names[..j] {
      var m :| 0 <= m < j && names[..j][m] == bases[j];
      var l := NameForm(employees, names, m);
      NoTwin(fold, bases, j, m, l);
      assert bases[m] == bases[j];
    }
  }

  // ---- when the names are different to Excel ----

  lemma DistinctNeedsOneCase(fold: char -> char, employees: seq<string>, names: seq<string>)
    requires Workbook(employees, names) && DistinctToExcel(fold, names)
    ensures OneCase(fold, SureNames(Bases(employees)))
  {
    forall x, y | x in SureNames(Bases(employees)) && y in SureNames(Bases(employees)) && Same(fold, x, y)
      ensures x == y
    {
      SureNamesOccur(employees, names, x);
      SureNamesOccur(employees, names, y);
      var i :| 0 <= i < |names| && names[i] == x;
      var j :| 0 <= j < |names| && names[j] == y;
      assert Same(fold, y, x);
    }
  }

  lemma SameBothWays(fold: char -> char, a: string, b: string)
    ensures Same(fold, a, b) <==> Same(fold, b, a)
  {
  }

  lemma PairDistinct(fold: char -> char, employees: seq<string>, names: seq<string>, i: nat, j: nat)
    requires FoldsCase(fold) && Workbook(employees, names) && i < j < |names|
    requires NoNumberedTwin(fold, Bases(employees)) && OneCase(fold, SureNames(Bases(employees)))
    ensures !Same(fold, names[i], names[j])
  {
    hide Bases, NamedInTurn, Candidate, Same;
    var bases := Bases(employees);
    var k := NameKind(fold, employees, names, i);
    var l := NameKind(fold, employees, names, j);
    var sure := SureNames(bases);
    assert names[i] != names[j];
    SameBothWays(fold, names[i], names[j]);
    if names[i] == bases[i] && names[j] == bases[j] {
      assert names[i] in sure && names[j] in sure;
    } else if names[i] == bases[i] {
      assert !Same(fold, bases[i], Candidate(bases[j], l));
    } else if names[j] == bases[j] {
      assert !Same(fold, bases[j], Candidate(bases[i], k));
    } else if Same(fold, names[i], names[j]) {
      SameNumbered(fold, bases[i], k, bases[j], l);
      SameHeads(fold, bases[i], bases[j], 2);
      assert Candidate(bases[i], 2) in sure && Candidate(bases[j], 2) in sure;
      HeadsDecide(bases[i], bases[j], k);
    }
  }

  lemma HeadsDecide(b: string, c: string, k: nat)
    requires Take(b, 26) == Take(c, 26)
    ensures Candidate(b, k) == Candidate(c, k)
  {
  }

  /**
    The sheet names of a workbook are pairwise different up to case only if the sure names are;
    and exactly then when no base name is, up to case, a numbered form of one.
  */
  lemma DistinctToExcelIff(fold: char -> char, employees: seq<string>, names: seq<string>)
    requires FoldsCase(fold) && Workbook(employees, names)
    ensures DistinctToExcel(fold, names) ==> OneCase(fold, SureNames(Bases(employees)))
    ensures NoNumberedTwin(fold, Bases(employees)) ==>
              (DistinctToExcel(fold, names) <==> OneCase(fold, SureNames(Bases(employees))))
  {
    hide OneCase, NoNumberedTwin;
    if DistinctToExcel(fold, names) {
      DistinctNeedsOneCase(fold, employees, names);
    }
    if NoNumberedTwin(fold, Bases(employees)) && OneCase(fold, SureNames(Bases(employees))) {
      forall i, j | 0 <= i < j < |names| ensures !Same(fold, names[i], names[j]) {
        PairDistinct(fold, employees, names, i, j);
      }
    }
  }

  // ---- the loop with a comparison that ignores case ----

  predicate Taken(fold: char -> char, used: set<string>, n: string) {
    exists u :: u in used && Same(fold, u, n)
  }

  /** What the loop would choose if it asked whether a name is taken up to case. */
  ghost predicate IsFreshBlind(fold: char -> char, base: string, used: set<string>, n: string) {
    && !Taken(fold, used, n)
    && (!Taken(fold, used, base) ==> n == base)
    && (Taken(fold, used, base) ==> exists k :: 2 <= k && n == Candidate(base, k) && TakenUpTo(fold, base, used, k))
  }

  predicate TakenUpTo(fold: char -> char, base: string, used: set<string>, k: nat) {
    forall j :: 2 <= j < k ==> Taken(fold, used, Candidate(base, j))
  }

  ghost predicate NamedBlindly(fold: char -> char, employees: seq<string>, names: seq<string>)
    requires |names| == |employees| + 1
  {
    forall j :: 1 <= j < |names| ==> IsFreshBlind(fold, BaseName(employees[j - 1]), SetOf(names[..j]), names[j])
  }

  lemma UsedIsTaken(fold: char -> char, used: set<string>, n: string)
    requires n in used
    ensures Taken(fold, used, n)
  {
    assert Same(fold, n, n);
  }

  lemma FreshIsBlind(fold: char -> char, base: string, used: set<string>, n: string)
    requires IsFresh(base, used, n) && !Taken(fold, used, n)
    ensures IsFreshBlind(fold, base, used, n)
  {
    hide Taken, Candidate;
    if base in used {
      UsedIsTaken(fold, used, base);
      var k :| 2 <= k <= |used| + 2 && n == Candidate(base, k) && Tried(base, k) <= used;
      forall j | 2 <= j < k ensures Taken(fold, used, Candidate(base, j)) {
        assert Candidate(base, j) in Tried(base, k);
        UsedIsTaken(fold, used, Candidate(base, j));
      }
      assert TakenUpTo(fold, base, used, k);
    }
  }

  /**
    For every workbook: its names are different to Excel exactly when a loop that ignores case
    would choose the same ones.
  */
  lemma DistinctIffBlindAgrees(fold: char -> char, employees: seq<string>, names: seq<string>)
    requires Workbook(employees, names)
    ensures DistinctToExcel(fold, names) <==> NamedBlindly(fold, employees, names)
  {
    hide Same, BaseName, IsFresh;
    if DistinctToExcel(fold, names) {
      forall j | 1 <= j < |names|
        ensures IsFreshBlind(fold, BaseName(employees[j - 1]), SetOf(names[..j]), names[j])
      {
        assert NamedAt(employees, names, j);
        assert forall u :: u in SetOf(names[..j]) ==> !Same(fold, u, names[j]);
        FreshIsBlind(fold, BaseName(employees[j - 1]), SetOf(names[..j]), names[j]);
      }
    }
    if NamedBlindly(fold, employees, names) {
      forall i, j | 0 <= i < j < |names| ensures !Same(fold, names[i], names[j]) {
        assert names[..j][i] == names[i];
        assert names[i] in SetOf(names[..j]);
      }
    }
  }

  // ---- a workbook Excel does not accept ----

  function AsciiLower(c: char): char { if 'A' <= c <= 'Z' then 'a' + (c - 'A') else c }

  lemma BaseOfAn(name: string)
    requires name == "AN" || name == "An"
    ensures BaseName(name) == name
  {
  }

  /** Employees "AN" and "An": the loop keeps both names, which Excel takes for the same. */
  lemma CaseIsDistinguished(names: seq<string>)
    requires Workbook(["AN", "An"], names)
    ensures FoldsCase(AsciiLower)
    ensures names == [SUMMARY, "AN", "An"] && !DistinctToExcel(AsciiLower, names)
  {
    var employees := ["AN", "An"];
    BaseOfAn("AN");
    BaseOfAn("An");
    assert NamedAt(employees, names, 1) && NamedAt(employees, names, 2);
    assert names[..1] == [SUMMARY];
    assert |SUMMARY| == 8;
    assert names[1] == "AN";
    assert names[..2] == [SUMMARY, "AN"];
    assert "AN"[1] != "An"[1];
    assert names[2] == "An";
    assert Same(AsciiLower, names[1], names[2]);
  }
}
