/**
  Filling the SPX order template: column letters, XML escaping, and the shared string table
  (sections 18.3.1.4 and 18.4.9 of ECMA-376 Part 1).

  A sheet is a list of rows of cells; a text cell carries an index into the table, which grows by
  the texts the export adds behind the entries the template already has.
*/
module SpxExport {
  import opened Common
  import opened Text

  // ---- column letters ----

  function Letter(d: nat): char
    requires d < 26
  {
    'A' + d as char
  }

  /** Bijective base 26: A..Z, AA..ZZ, AAA.. */
  function ColName(i: nat): string
    decreases i
  {
    if i < 26 then [Letter(i)] else ColName(i / 26 - 1) + [Letter(i % 26)]
  }

  predicate IsColName(s: string) { s != "" && forall i :: 0 <= i < |s| ==> 'A' <= s[i] <= 'Z' }

  function ColIndex(s: string): nat
    requires IsColName(s)
  {
    var d := (s[|s| - 1] - 'A') as nat;
    if |s| == 1 then d else (ColIndex(s[..|s| - 1]) + 1) * 26 + d
  }

  /** `colLetter`. */
  method ColLetter(i: nat) returns (s: string)
    ensures s == ColName(i)
  {
    s := "";
    var n: int := i;
    while true
      invariant -1 <= n
      invariant if n >= 0 then ColName(n) + s == ColName(i) else s == ColName(i)
      decreases n
    {
      if n < 0 { break; }
      ghost var before := s;
      s := [Letter(n % 26)] + s;
      if n >= 26 {
        var high, low := ColName(n / 26 - 1), [Letter(n % 26)];
        assert high + (low + before) == high + low + before;
      }
      n := n / 26 - 1;
    }
  }

  lemma {:induction false} ColIndexOfName(i: nat)
    ensures IsColName(ColName(i)) && ColIndex(ColName(i)) == i
  {
    var s := ColName(i);
    if i >= 26 {
      ColIndexOfName(i / 26 - 1);
      assert s[..|s| - 1] == ColName(i / 26 - 1);
    }
  }

  lemma {:induction false} ColNameOfIndex(s: string)
    requires IsColName(s)
    ensures ColName(ColIndex(s)) == s
  {
    var d := (s[|s| - 1] - 'A') as nat;
    assert Letter(d) == s[|s| - 1];
    if |s| > 1 {
      var init := s[..|s| - 1];
      ColNameOfIndex(init);
      var n := (ColIndex(init) + 1) * 26 + d;
      assert n / 26 == ColIndex(init) + 1 && n % 26 == d;
      assert s == init + [s[|s| - 1]];
    } else {
      assert s == [s[0]];
    }
  }

  // ---- escaping ----

  /** `s.replace(/c/g, repl)`. */
  function ReplaceAll(s: string, c: char, repl: string): string {
    if s == "" then "" else (if s[0] == c then repl else [s[0]]) + ReplaceAll(s[1..], c, repl)
  }

  /** `escapeXml`: three passes, the ampersand first. */
  function EscapeXml(s: string): string {
    ReplaceAll(ReplaceAll(ReplaceAll(s, '&', "&amp;"), '<', "&lt;"), '>', "&gt;")
  }

  /** A reader of the three entities, in one pass. */
  function Unescape(s: string): string
    decreases |s|
  {
    if s == "" then ""
    else if "&amp;" <= s then "&" + Unescape(s[5..])
    else if "&lt;" <= s then "<" + Unescape(s[4..])
    else if "&gt;" <= s then ">" + Unescape(s[4..])
    else [s[0]] + Unescape(s[1..])
  }

  function EscapeChar(c: char): string {
    if c == '&' then "&amp;" else if c == '<' then "&lt;" else if c == '>' then "&gt;" else [c]
  }

  lemma {:induction false} ReplaceConcat(a: string, b: string, c: char, repl: string)
    ensures ReplaceAll(a + b, c, repl) == ReplaceAll(a, c, repl) + ReplaceAll(b, c, repl)
  {
    if a == "" {
      assert a + b == b;
    } else {
      assert (a + b)[1..] == a[1..] + b;
      ReplaceConcat(a[1..], b, c, repl);
      var head := if a[0] == c then repl else [a[0]];
      assert head + (ReplaceAll(a[1..], c, repl) + ReplaceAll(b, c, repl)) ==
        head + ReplaceAll(a[1..], c, repl) + ReplaceAll(b, c, repl);
    }
  }

  lemma {:induction false} ReplaceNothing(s: string, c: char, repl: string)
    requires forall i :: 0 <= i < |s| ==> s[i] != c
    ensures ReplaceAll(s, c, repl) == s
  {
    if s != "" {
      ReplaceNothing(s[1..], c, repl);
    }
  }

  /** The three passes never escape what an earlier pass wrote. */
  lemma EscapeOneChar(c: char)
    ensures EscapeXml([c]) == EscapeChar(c)
  {
    assert [c][1..] == "";
    if c == '&' {
      assert ReplaceAll([c], '&', "&amp;") == "&amp;";
      ReplaceNothing("&amp;", '<', "&lt;");
      ReplaceNothing("&amp;", '>', "&gt;");
    } else if c == '<' {
      ReplaceNothing([c], '&', "&amp;");
      assert ReplaceAll([c], '<', "&lt;") == "&lt;";
      ReplaceNothing("&lt;", '>', "&gt;");
    } else {
      ReplaceNothing([c], '&', "&amp;");
      ReplaceNothing([c], '<', "&lt;");
      if c == '>' {
        assert ReplaceAll([c], '>', "&gt;") == "&gt;";
      } else {
        ReplaceNothing([c], '>', "&gt;");
      }
    }
  }

  lemma EscapeConcat(a: string, b: string)
    ensures EscapeXml(a + b) == EscapeXml(a) + EscapeXml(b)
  {
    var amp := (s: string) => ReplaceAll(s, '&', "&amp;");
    ReplaceConcat(a, b, '&', "&amp;");
    ReplaceConcat(amp(a), amp(b), '<', "&lt;");
    ReplaceConcat(ReplaceAll(amp(a), '<', "&lt;"), ReplaceAll(amp(b), '<', "&lt;"), '>', "&gt;");
  }

  lemma UnescapeChar(c: char, rest: string)
    ensures Unescape(EscapeChar(c) + rest) == [c] + Unescape(rest)
  {
    var s := EscapeChar(c) + rest;
    if c == '&' {
      assert "&amp;" <= s && s[5..] == rest;
    } else if c == '<' {
      assert "&lt;" <= s && s[4..] == rest && s[1] == 'l';
    } else if c == '>' {
      assert "&gt;" <= s && s[4..] == rest && s[1] == 'g';
    } else {
      assert s[0] == c && s[1..] == rest;
    }
  }

  /** Unescaping undoes `escapeXml` on every text, entities in it included. */
  lemma {:induction false} UnescapeEscape(s: string)
    ensures Unescape(EscapeXml(s)) == s
  {
    if s != "" {
      assert s == [s[0]] + s[1..];
      EscapeConcat([s[0]], s[1..]);
      EscapeOneChar(s[0]);
      UnescapeChar(s[0], EscapeXml(s[1..]));
      UnescapeEscape(s[1..]);
    }
  }

  lemma {:induction false} EscapedIsPlain(s: string)
    ensures forall i :: 0 <= i < |EscapeXml(s)| ==> EscapeXml(s)[i] != '<' && EscapeXml(s)[i] != '>'
  {
    if s != "" {
      assert s == [s[0]] + s[1..];
      EscapeConcat([s[0]], s[1..]);
      EscapeOneChar(s[0]);
      EscapedIsPlain(s[1..]);
    }
  }

  // ---- interning ----

  /** The texts interned so far, oldest first, without repetitions. */
  function AddText(interned: seq<string>, s: string): seq<string> {
    if s in interned then interned else interned + [s]
  }

  function AddAll(interned: seq<string>, texts: seq<string>): seq<string> {
    if texts == [] then interned else AddText(AddAll(interned, texts[..|texts| - 1]), texts[|texts| - 1])
  }

  function IndexOf(interned: seq<string>, s: string): (k: nat)
    requires s in interned
    ensures k < |interned| && interned[k] == s
    ensures forall j :: 0 <= j < k ==> interned[j] != s
  {
    if interned[0] == s then 0 else 1 + IndexOf(interned[1..], s)
  }

  function EscapeAll(texts: seq<string>): (r: seq<string>)
    ensures |r| == |texts|
  {
    seq(|texts|, i requires 0 <= i < |texts| => EscapeXml(texts[i]))
  }

  predicate NoRepeats(texts: seq<string>) {
    forall i, j :: 0 <= i < j < |texts| ==> texts[i] != texts[j]
  }

  class SharedStrings {
    const unique: nat
    const count: nat
    var nextIndex: nat
    var strIndex: map<string, nat>
    var addedSi: seq<string>
    var refsAdded: nat
    ghost var interned: seq<string>

    ghost predicate Valid()
      reads this
    {
      && NoRepeats(interned)
      && addedSi == EscapeAll(interned)
      && nextIndex == unique + |interned|
      && (forall s :: s in strIndex <==> s in interned)
      && (forall s :: s in strIndex ==> strIndex[s] == unique + IndexOf(interned, s))
    }

    /** The counts of the template's `<sst>` tag. */
    constructor (count: nat, unique: nat)
      ensures Valid() && interned == [] && refsAdded == 0 && this.count == count && this.unique == unique
    {
      this.count, this.unique := count, unique;
      nextIndex, strIndex, addedSi, refsAdded, interned := unique, map[], [], 0, [];
    }

    /** `internString`. */
    method InternString(s: string) returns (idx: nat)
      requires Valid()
      modifies this
      ensures Valid() && refsAdded == old(refsAdded)
      ensures interned == AddText(old(interned), s)
      ensures idx == unique + IndexOf(interned, s)
    {
      if s in strIndex { return strIndex[s]; }
      idx := nextIndex;
      nextIndex := nextIndex + 1;
      strIndex := strIndex[s := idx];
      addedSi := addedSi + [EscapeXml(s)];
      forall t | t in interned ensures IndexOf(interned + [s], t) == IndexOf(interned, t) {
        IndexStable(interned, [s], t);
      }
      interned := interned + [s];
    }

    /** The counts written back: only when something was added. */
    method Counts() returns (newCount: nat, newUnique: nat)
      requires Valid()
      ensures newCount == if interned == [] then count else count + refsAdded
      ensures newUnique == unique + |interned|
    {
      newCount, newUnique := count, unique;
      if |addedSi| > 0 {
        newCount, newUnique := count + refsAdded, nextIndex;
      }
    }
  }

  lemma {:induction false} IndexStable(interned: seq<string>, more: seq<string>, s: string)
    requires s in interned
    ensures IndexOf(interned + more, s) == IndexOf(interned, s)
  {
    var k, j := IndexOf(interned + more, s), IndexOf(interned, s);
    assert (interned + more)[j] == s;
  }

  // ---- rows and cells ----

  datatype Value = Number(n: int) | Str(s: string)

  datatype Content = Reminder | Eligible(ok: bool) | Blank | Num(n: int) | Shared(idx: nat)

  datatype Cell = Cell(col: string, row: nat, style: string, content: Content)

  datatype Column = Column(name: string, style: string)

  /** The template's columns when they reach, else plain ones named by position. */
  function Columns(template: seq<Column>, vals: seq<Value>): seq<Column> {
    if |template| >= |vals| then template
    else seq(|vals|, i requires 0 <= i < |vals| => Column(ColName(i), ""))
  }

  predicate Filled(vals: seq<Value>, i: nat) {
    i < |vals| && (vals[i].Number? || exists k :: 0 <= k < |vals[i].s| && !IsWhitespace(vals[i].s[k]))
  }

  /** The text a cell interns, if it is a text cell: not one of the two formula columns, and not empty. */
  function TextAt(vals: seq<Value>, c: nat): seq<string> {
    if c as int == |vals| - 2 || c as int == |vals| - 1 || c >= |vals| then []
    else match vals[c] case Number(_) => [] case Str(s) => if s == "" then [] else [s]
  }

  function RowTexts(vals: seq<Value>, upto: nat): seq<string> {
    if upto == 0 then [] else RowTexts(vals, upto - 1) + TextAt(vals, upto - 1)
  }

  function SheetTexts(template: seq<Column>, rows: seq<seq<Value>>): seq<string> {
    if rows == [] then []
    else SheetTexts(template, rows[..|rows| - 1]) + RowTexts(rows[|rows| - 1], |Columns(template, rows[|rows| - 1])|)
  }

  function ContentAt(vals: seq<Value>, c: nat, unique: nat, interned: seq<string>): Content
    requires forall t :: t in TextAt(vals, c) ==> t in interned
  {
    if c as int == |vals| - 2 then Reminder
    else if c as int == |vals| - 1 then Eligible(Filled(vals, 3) && Filled(vals, 4))
    else if c >= |vals| then Blank
    else match vals[c]
      case Number(n) => Num(n)
      case Str(s) => if s == "" then Blank else (assert s in TextAt(vals, c); Shared(unique + IndexOf(interned, s)))
  }

  /** Cell `c` of a row is what it should be, its index read in `interned`. */
  ghost predicate CellOk(cell: Cell, cols: seq<Column>, vals: seq<Value>, c: nat, r: nat, unique: nat,
                         interned: seq<string>) {
    && c < |cols| && cell.col == cols[c].name && cell.style == cols[c].style && cell.row == r
    && (forall t :: t in TextAt(vals, c) ==> t in interned)
    && cell.content == ContentAt(vals, c, unique, interned)
  }

  ghost predicate RowOk(cells: seq<Cell>, template: seq<Column>, vals: seq<Value>, r: nat, unique: nat,
                        interned: seq<string>) {
    |cells| == |Columns(template, vals)| && CellsOk(cells, Columns(template, vals), vals, r, unique, interned)
  }

  lemma CellStaysOk(cell: Cell, cols: seq<Column>, vals: seq<Value>, c: nat, r: nat, unique: nat, a: seq<string>,
                    b: seq<string>)
    requires CellOk(cell, cols, vals, c, r, unique, a) && a <= b
    ensures CellOk(cell, cols, vals, c, r, unique, b)
  {
    var more := b[|a|..];
    assert b == a + more;
    if TextAt(vals, c) != [] {
      IndexStable(a, more, TextAt(vals, c)[0]);
    }
  }

  lemma {:induction false} AddAllConcat(interned: seq<string>, a: seq<string>, b: seq<string>)
    ensures AddAll(interned, a + b) == AddAll(AddAll(interned, a), b)
  {
    if b == [] {
      assert a + b == a;
    } else {
      assert (a + b)[..|a + b| - 1] == a + b[..|b| - 1];
      AddAllConcat(interned, a, b[..|b| - 1]);
    }
  }

  lemma {:induction false} AddAllGrows(interned: seq<string>, texts: seq<string>)
    ensures interned <= AddAll(interned, texts)
    ensures forall t :: t in AddAll(interned, texts) <==> t in interned || t in texts
    ensures NoRepeats(interned) ==> NoRepeats(AddAll(interned, texts))
  {
    if texts != [] {
      var init := texts[..|texts| - 1];
      AddAllGrows(interned, init);
      assert texts == init + [texts[|texts| - 1]];
    }
  }

  method WriteCell(ss: SharedStrings, cols: seq<Column>, vals: seq<Value>, c: nat, r: nat) returns (cell: Cell)
    requires ss.Valid() && c < |cols|
    modifies ss
    ensures ss.Valid() && ss.interned == AddAll(old(ss.interned), TextAt(vals, c))
    ensures ss.refsAdded == old(ss.refsAdded) + |TextAt(vals, c)|
    ensures CellOk(cell, cols, vals, c, r, ss.unique, ss.interned)
  {
    var content: Content;
    if c as int == |vals| - 2 {
      content := Reminder;
    } else if c as int == |vals| - 1 {
      content := Eligible(Filled(vals, 3) && Filled(vals, 4));
    } else {
      var v := if c < |vals| then vals[c] else Str("");
      if v == Str("") {
        content := Blank;
      } else if v.Number? {
        content := Num(v.n);
      } else {
        ss.refsAdded := ss.refsAdded + 1;
        var idx := ss.InternString(v.s);
        content := Shared(idx);
        assert TextAt(vals, c) == [v.s] && [v.s][..0] == [];
      }
    }
    cell := Cell(cols[c].name, r, cols[c].style, content);
  }

  method FillRow(ss: SharedStrings, template: seq<Column>, vals: seq<Value>, r: nat) returns (cells: seq<Cell>)
    requires ss.Valid()
    modifies ss
    ensures ss.Valid()
    ensures ss.interned == AddAll(old(ss.interned), RowTexts(vals, |Columns(template, vals)|))
    ensures ss.refsAdded == old(ss.refsAdded) + |RowTexts(vals, |Columns(template, vals)|)|
    ensures RowOk(cells, template, vals, r, ss.unique, ss.interned)
  {
    hide CellOk, Columns, TextAt;
    var cols := Columns(template, vals);
    ghost var before := ss.interned;
    cells := [];
    for c := 0 to |cols|
      invariant ss.Valid() && |cells| == c
      invariant ss.interned == AddAll(before, RowTexts(vals, c))
      invariant ss.refsAdded == old(ss.refsAdded) + |RowTexts(vals, c)|
      invariant CellsOk(cells, cols, vals, r, ss.unique, ss.interned)
    {
      ghost var interned := ss.interned;
      var cell := WriteCell(ss, cols, vals, c, r);
      AddAllConcat(before, RowTexts(vals, c), TextAt(vals, c));
      AddAllGrows(interned, TextAt(vals, c));
      CellsGrow(cells, cell, cols, vals, r, ss.unique, interned, ss.interned);
      cells := cells + [cell];
    }
  }

  /** The cells written so far are right, read in `interned`. */
  ghost predicate CellsOk(cells: seq<Cell>, cols: seq<Column>, vals: seq<Value>, r: nat, unique: nat,
                          interned: seq<string>) {
    forall c :: 0 <= c < |cells| ==> CellOk(cells[c], cols, vals, c, r, unique, interned)
  }

  lemma CellsGrow(cells: seq<Cell>, cell: Cell, cols: seq<Column>, vals: seq<Value>, r: nat, unique: nat,
                  a: seq<string>, b: seq<string>)
    requires CellsOk(cells, cols, vals, r, unique, a) && a <= b
    requires CellOk(cell, cols, vals, |cells|, r, unique, b)
    ensures CellsOk(cells + [cell], cols, vals, r, unique, b)
  {
    hide CellOk;
    forall c | 0 <= c < |cells| ensures CellOk(cells[c], cols, vals, c, r, unique, b) {
      CellStaysOk(cells[c], cols, vals, c, r, unique, a, b);
    }
  }

  /** `fillSheet`: row `i` of the data becomes row `i + 2` of the sheet. */
  method FillSheet(ss: SharedStrings, template: seq<Column>, rows: seq<seq<Value>>) returns (sheet: seq<seq<Cell>>)
    requires ss.Valid()
    modifies ss
    ensures ss.Valid()
    ensures ss.interned == AddAll(old(ss.interned), SheetTexts(template, rows))
    ensures ss.refsAdded == old(ss.refsAdded) + |SheetTexts(template, rows)|
    ensures |sheet| == |rows| && SheetOk(sheet, template, rows, ss.unique, ss.interned)
  {
    hide RowOk, RowTexts, Columns;
    ghost var before := ss.interned;
    sheet := [];
    for i := 0 to |rows|
      invariant ss.Valid() && |sheet| == i
      invariant ss.interned == AddAll(before, SheetTexts(template, rows[..i]))
      invariant ss.refsAdded == old(ss.refsAdded) + |SheetTexts(template, rows[..i])|
      invariant SheetOk(sheet, template, rows, ss.unique, ss.interned)
    {
      ghost var interned := ss.interned;
      var cells := FillRow(ss, template, rows[i], i + 2);
      SheetTextsStep(before, template, rows, i);
      SheetGrows(sheet, cells, template, rows, ss.unique, interned, ss.interned);
      sheet := sheet + [cells];
    }
    assert rows[..|rows|] == rows;
  }

  /** The rows written so far are right, read in `interned`. */
  ghost predicate SheetOk(sheet: seq<seq<Cell>>, template: seq<Column>, rows: seq<seq<Value>>, unique: nat,
                          interned: seq<string>) {
    |sheet| <= |rows| && forall i :: 0 <= i < |sheet| ==> RowOk(sheet[i], template, rows[i], i + 2, unique, interned)
  }

  lemma SheetTextsStep(before: seq<string>, template: seq<Column>, rows: seq<seq<Value>>, i: nat)
    requires i < |rows|
    ensures var texts := RowTexts(rows[i], |Columns(template, rows[i])|);
            var sofar := SheetTexts(template, rows[..i]);
            && SheetTexts(template, rows[..i + 1]) == sofar + texts
            && AddAll(before, sofar + texts) == AddAll(AddAll(before, sofar), texts)
            && AddAll(before, sofar) <= AddAll(before, sofar + texts)
  {
    assert rows[..i + 1][..i] == rows[..i];
    AddAllConcat(before, SheetTexts(template, rows[..i]), RowTexts(rows[i], |Columns(template, rows[i])|));
    AddAllGrows(AddAll(before, SheetTexts(template, rows[..i])), RowTexts(rows[i], |Columns(template, rows[i])|));
  }

  lemma SheetGrows(sheet: seq<seq<Cell>>, cells: seq<Cell>, template: seq<Column>, rows: seq<seq<Value>>, unique: nat,
                   a: seq<string>, b: seq<string>)
    requires SheetOk(sheet, template, rows, unique, a) && a <= b && |sheet| < |rows|
    requires RowOk(cells, template, rows[|sheet|], |sheet| + 2, unique, b)
    ensures SheetOk(sheet + [cells], template, rows, unique, b)
  {
    forall j | 0 <= j < |sheet| ensures RowOk(sheet[j], template, rows[j], j + 2, unique, b) {
      RowStaysOk(sheet[j], template, rows[j], j + 2, unique, a, b);
    }
  }

  lemma RowStaysOk(cells: seq<Cell>, template: seq<Column>, vals: seq<Value>, r: nat, unique: nat, a: seq<string>,
                   b: seq<string>)
    requires RowOk(cells, template, vals, r, unique, a) && a <= b
    ensures RowOk(cells, template, vals, r, unique, b)
  {
    forall c | 0 <= c < |cells| ensures CellOk(cells[c], Columns(template, vals), vals, c, r, unique, b) {
      CellStaysOk(cells[c], Columns(template, vals), vals, c, r, unique, a, b);
    }
  }

  // ---- the added entries ----

  /** Equal texts share an index and different ones do not. */
  lemma IndexShared(texts: seq<string>, s: string, t: string)
    requires s in texts && t in texts
    ensures s in AddAll([], texts) && t in AddAll([], texts)
    ensures IndexOf(AddAll([], texts), s) == IndexOf(AddAll([], texts), t) <==> s == t
  {
    AddAllGrows([], texts);
  }

  /** The table grows by exactly the distinct texts, and something is added as soon as there is a text cell. */
  lemma {:induction false} AddedAreDistinct(texts: seq<string>)
    ensures |AddAll([], texts)| == |SetOf(texts)|
    ensures AddAll([], texts) == [] <==> texts == []
  {
    if texts == [] {
    } else {
      var init, last := texts[..|texts| - 1], texts[|texts| - 1];
      AddedAreDistinct(init);
      AddAllGrows([], init);
      assert texts == init + [last];
      if last in init {
        assert SetOf(texts) == SetOf(init);
      } else {
        assert SetOf(texts) == SetOf(init) + {last};
      }
    }
  }
}
