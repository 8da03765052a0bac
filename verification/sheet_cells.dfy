/**
  The cells of the exported sheet one by one, and the texts they intern.
*/
module SheetCells {
  import opened Text
  import opened SpxExport

  /** There is a value at that position, and it is a number or a text with something besides white space. */
  predicate NonBlank(vals: seq<Value>, i: nat) {
    i < |vals| && match vals[i]
                  case Number(_) => true
                  case Str(s) => exists k :: 0 <= k < |s| && !IsWhitespace(s[k])
  }

  /** Column `c` holds a text that is interned: before the last two columns, and not empty. */
  predicate IsText(vals: seq<Value>, c: nat) {
    c + 2 < |vals| && vals[c].Str? && vals[c].s != ""
  }

  /**
    Row `i` of the data is row `i + 2` of the sheet, with the template's columns when they reach and
    plain ones by position otherwise; the last two values are the COD reminder and the eligibility,
    which asks for the values in columns 3 and 4; beyond the values cells are blank.
  */
  lemma CellIs(sheet: seq<seq<Cell>>, template: seq<Column>, rows: seq<seq<Value>>, unique: nat, interned: seq<string>,
               i: nat, c: nat)
    requires i < |rows| && |sheet| == |rows| && SheetOk(sheet, template, rows, unique, interned)
    ensures |sheet[i]| == if |template| >= |rows[i]| then |template| else |rows[i]|
    ensures c < |sheet[i]| ==>
              var cell, vals := sheet[i][c], rows[i];
              && cell.row == i + 2
              && cell.col == (if |template| >= |vals| then template[c].name else ColName(c))
              && cell.style == (if |template| >= |vals| then template[c].style else "")
              && (c + 2 == |vals| ==> cell.content == Reminder)
              && (c + 1 == |vals| ==> cell.content == Eligible(NonBlank(vals, 3) && NonBlank(vals, 4)))
              && (c >= |vals| ==> cell.content == Blank)
              && (c + 2 < |vals| && vals[c].Number? ==> cell.content == Num(vals[c].n))
              && (c + 2 < |vals| && vals[c] == Str("") ==> cell.content == Blank)
              && (IsText(vals, c) ==>
                    vals[c].s in interned && cell.content == Shared(unique + IndexOf(interned, vals[c].s)))
  {
    hide IsWhitespace, ColName, IndexOf;
    assert RowOk(sheet[i], template, rows[i], i + 2, unique, interned);
    if c < |sheet[i]| {
      assert CellOk(sheet[i][c], Columns(template, rows[i]), rows[i], c, i + 2, unique, interned);
      if IsText(rows[i], c) {
        assert rows[i][c].s in TextAt(rows[i], c);
      }
    }
  }

  lemma TextAtIs(vals: seq<Value>, c: nat)
    ensures TextAt(vals, c) == if IsText(vals, c) then [vals[c].s] else []
  {
  }

  // ---- the texts of a sheet, counted on its cells ----

  /** How many cells of a row refer to the table. */
  function References(cells: seq<Cell>): nat {
    if cells == [] then 0
    else References(cells[..|cells| - 1]) + (if cells[|cells| - 1].content.Shared? then 1 else 0)
  }

  function SheetReferences(sheet: seq<seq<Cell>>): nat {
    if sheet == [] then 0 else SheetReferences(sheet[..|sheet| - 1]) + References(sheet[|sheet| - 1])
  }

  lemma {:induction false} RowCounted(cells: seq<Cell>, cols: seq<Column>, vals: seq<Value>, r: nat, unique: nat,
                                      interned: seq<string>)
    requires CellsOk(cells, cols, vals, r, unique, interned)
    ensures References(cells) == |RowTexts(vals, |cells|)|
  {
    hide CellOk;
    if cells != [] {
      var last := |cells| - 1;
      RowCounted(cells[..last], cols, vals, r, unique, interned);
      CellCounted(cells[last], cols, vals, last, r, unique, interned);
    }
  }

  lemma CellCounted(cell: Cell, cols: seq<Column>, vals: seq<Value>, c: nat, r: nat, unique: nat, interned: seq<string>)
    requires CellOk(cell, cols, vals, c, r, unique, interned)
    ensures |TextAt(vals, c)| == if cell.content.Shared? then 1 else 0
  {
    hide IndexOf;
  }

  /** The references that the counts add up are the cells of the sheet that refer to the table. */
  lemma {:induction false} SheetCounted(sheet: seq<seq<Cell>>, template: seq<Column>, rows: seq<seq<Value>>,
                                        unique: nat, interned: seq<string>)
    requires |sheet| == |rows| && SheetOk(sheet, template, rows, unique, interned)
    ensures SheetReferences(sheet) == |SheetTexts(template, rows)|
  {
    hide CellsOk, Columns;
    if sheet != [] {
      var last := |sheet| - 1;
      assert RowOk(sheet[last], template, rows[last], last + 2, unique, interned);
      RowCounted(sheet[last], Columns(template, rows[last]), rows[last], last + 2, unique, interned);
      SheetCounted(sheet[..last], template, rows[..last], unique, interned);
    }
  }

  predicate Interns(vals: seq<Value>, t: string) {
    exists c :: 0 <= c < |vals| && IsText(vals, c) && vals[c].s == t
  }

  /** The texts interned are those of the text columns, nothing else. */
  lemma {:induction false} SheetTextsAre(template: seq<Column>, rows: seq<seq<Value>>, t: string)
    ensures t in SheetTexts(template, rows) <==> exists i :: 0 <= i < |rows| && Interns(rows[i], t)
  {
    hide IsText, Interns;
    if rows != [] {
      var last := |rows| - 1;
      SheetTextsAre(template, rows[..last], t);
      LastTextsAre(template, rows[last], t);
      InternsEarlier(rows, t);
    }
  }

  lemma LastTextsAre(template: seq<Column>, vals: seq<Value>, t: string)
    ensures t in RowTexts(vals, |Columns(template, vals)|) <==> Interns(vals, t)
  {
    RowTextsAre(vals, |Columns(template, vals)|, t);
  }

  lemma InternsEarlier(rows: seq<seq<Value>>, t: string)
    requires rows != []
    ensures var earlier := rows[..|rows| - 1];
            (exists i :: 0 <= i < |rows| && Interns(rows[i], t))
            <==> Interns(rows[|rows| - 1], t) || exists i :: 0 <= i < |earlier| && Interns(earlier[i], t)
  {
    hide Interns;
    if i :| 0 <= i < |rows| - 1 && Interns(rows[i], t) {
      assert Interns(rows[..|rows| - 1][i], t);
    }
  }

  lemma {:induction false} RowTextsAre(vals: seq<Value>, upto: nat, t: string)
    ensures t in RowTexts(vals, upto) <==> exists c :: 0 <= c < upto && IsText(vals, c) && vals[c].s == t
  {
    if upto > 0 {
      RowTextsAre(vals, upto - 1, t);
      TextAtIs(vals, upto - 1);
    }
  }
}
