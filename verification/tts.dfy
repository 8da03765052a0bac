/**
  Reading amounts aloud: `numberToVietnameseWords` and the payment sentence.

  The methods build strings as the source does. Beside them stands a reader for the spoken form,
  a left-to-right evaluator of Vietnamese number words that knows nothing of how they were made;
  the main theorem is that it recovers the number, up to the bound the cache key is clamped to.
*/
module Tts {
  import opened Text

  type Digit = d: nat | d < 10

  datatype NumWord =
    | D(d: Digit)
    | Tram      // hundred
    | Muoi      // tens, after a digit
    | Muoi10    // ten
    | Mot1      // one, after tens
    | Lam       // five, after tens
    | Le        // "and", between hundreds and units
    | Nghin | Trieu | Ty

  const DIGITS: seq<string> := ["không", "một", "hai", "ba", "bốn", "năm", "sáu", "bảy", "tám", "chín"]

  function Spell(w: NumWord): (s: string)
    ensures Word(IsWhitespace, s) && |s| <= 5
  {
    match w
    case D(d) => DigitSpelled(d); DIGITS[d]
    case Tram => "trăm"
    case Muoi => "mươi"
    case Muoi10 => "mười"
    case Mot1 => "mốt"
    case Lam => "lăm"
    case Le => "lẻ"
    case Nghin => "nghìn"
    case Trieu => "triệu"
    case Ty => "tỷ"
  }

  lemma DigitSpelled(d: Digit)
    ensures Word(IsWhitespace, DIGITS[d]) && |DIGITS[d]| <= 5
  {
    if d == 0 { assert DIGITS[d] == "không"; }
    else if d == 1 { assert DIGITS[d] == "một"; }
    else if d == 2 { assert DIGITS[d] == "hai"; }
    else if d == 3 { assert DIGITS[d] == "ba"; }
    else if d == 4 { assert DIGITS[d] == "bốn"; }
    else if d == 5 { assert DIGITS[d] == "năm"; }
    else if d == 6 { assert DIGITS[d] == "sáu"; }
    else if d == 7 { assert DIGITS[d] == "bảy"; }
    else if d == 8 { assert DIGITS[d] == "tám"; }
    else { assert DIGITS[d] == "chín"; }
  }

  function SpellAll(ws: seq<NumWord>): (r: seq<string>)
    ensures |r| == |ws| && Words(IsWhitespace, r)
  {
    seq(|ws|, i requires 0 <= i < |ws| => Spell(ws[i]))
  }

  /** The words of a text, separated by single spaces. */
  function Render(ws: seq<NumWord>): string { Join(SpellAll(ws)) }

  // ---- the words of a number ----

  function TensWords(tens: Digit, units: Digit, linked: bool): seq<NumWord> {
    if tens > 1 then
      [D(tens), Muoi] +
      (if units == 1 then [Mot1] else if units == 5 then [Lam] else if units > 0 then [D(units)] else [])
    else if tens == 1 then
      [Muoi10] + (if units == 5 then [Lam] else if units > 0 then [D(units)] else [])
    else if units > 0 then (if linked then [Le] else []) + [D(units)]
    else []
  }

  function HundredWords(hundreds: Digit, rest: bool, full: bool): seq<NumWord> {
    if hundreds > 0 then [D(hundreds), Tram] else if full && rest then [D(0), Tram] else []
  }

  function ThreeDigitWords(n: nat, full: bool): seq<NumWord>
    requires n < 1000
  {
    var hundreds, tens, units := n / 100, n % 100 / 10, n % 10;
    HundredWords(hundreds, tens > 0 || units > 0, full) + TensWords(tens, units, hundreds > 0 || full)
  }

  lemma TensForms(tens: Digit, units: Digit, linked: bool)
    ensures var ws := TensWords(tens, units, linked);
            && (Le in ws <==> tens == 0 && units > 0 && linked)
            && (Mot1 in ws <==> tens >= 2 && units == 1)
            && (Lam in ws <==> tens >= 1 && units == 5)
            && (Muoi10 in ws <==> tens == 1)
            && (Muoi in ws <==> tens >= 2)
            && Tram !in ws
  {
  }

  /** When each special form is spoken in the group with digits `hundreds`, `tens`, `units`. */
  lemma SpokenForms(hundreds: Digit, tens: Digit, units: Digit, full: bool)
    requires hundreds > 0 || tens > 0 || units > 0
    ensures var ws := ThreeDigitWords(100 * hundreds + 10 * tens + units, full);
            && (Le in ws <==> tens == 0 && units > 0 && (hundreds > 0 || full))
            && (Mot1 in ws <==> tens >= 2 && units == 1)
            && (Lam in ws <==> tens >= 1 && units == 5)
            && (Muoi10 in ws <==> tens == 1)
            && (Muoi in ws <==> tens >= 2)
            && (Tram in ws <==> hundreds > 0 || full)
            && (Tram in ws ==> [D(hundreds), Tram] <= ws)
  {
    ThreeDigitSplit(hundreds, tens, units, full);
    var tail := TensWords(tens, units, hundreds > 0 || full);
    TensForms(tens, units, hundreds > 0 || full);
    if hundreds > 0 || full {
      assert forall w :: w in [D(hundreds), Tram] + tail <==> w == D(hundreds) || w == Tram || w in tail;
    }
  }

  lemma ThreeDigitSplit(hundreds: Digit, tens: Digit, units: Digit, full: bool)
    requires hundreds > 0 || tens > 0 || units > 0
    ensures ThreeDigitWords(100 * hundreds + 10 * tens + units, full) ==
            (if hundreds > 0 || full then [D(hundreds), Tram] else []) + TensWords(tens, units, hundreds > 0 || full)
  {
    var n := 100 * hundreds + 10 * tens + units;
    assert n / 100 == hundreds && n % 100 == 10 * tens + units && n % 10 == units;
  }

  function Groups(n: nat): (g: seq<nat>)
    ensures forall i :: 0 <= i < |g| ==> g[i] < 1000
  {
    if n == 0 then [] else Groups(n / 1000) + [n % 1000]
  }

  /** `scale[unitIndex] || ''`: nothing from 10^12 on. */
  function ScaleWords(unit: nat): seq<NumWord> {
    if unit == 1 then [Nghin] else if unit == 2 then [Trieu] else if unit == 3 then [Ty] else []
  }

  function GroupWords(groups: seq<nat>, i: nat): seq<NumWord>
    requires i < |groups| && groups[i] < 1000
  {
    if groups[i] == 0 then [] else ThreeDigitWords(groups[i], i != 0) + ScaleWords(|groups| - 1 - i)
  }

  /** The words of the groups before position `upto`. */
  function WordsUpTo(groups: seq<nat>, upto: nat): seq<NumWord>
    requires upto <= |groups| && forall i :: 0 <= i < |groups| ==> groups[i] < 1000
  {
    if upto == 0 then [] else WordsUpTo(groups, upto - 1) + GroupWords(groups, upto - 1)
  }

  function NumberWords(n: nat): seq<NumWord> {
    if n == 0 then [D(0)] else WordsUpTo(Groups(n), |Groups(n)|)
  }

  // ---- the methods ----

  lemma RenderConcat(a: seq<NumWord>, b: seq<NumWord>)
    ensures Render(a + b) == if a == [] then Render(b) else if b == [] then Render(a) else Render(a) + " " + Render(b)
  {
    assert SpellAll(a + b) == SpellAll(a) + SpellAll(b);
    if a == [] { assert a + b == b; }
    else if b == [] { assert a + b == a; }
    else { JoinConcat(SpellAll(a), SpellAll(b)); }
  }

  lemma RenderNothing()
    ensures Render([]) == ""
  {
  }

  lemma RenderOne(w: NumWord)
    ensures Render([w]) == Spell(w)
  {
    assert SpellAll([w]) == [Spell(w)];
  }

  lemma RenderTwo(v: NumWord, w: NumWord)
    ensures Render([v, w]) == Spell(v) + " " + Spell(w)
  {
    assert [v, w] == [v] + [w];
    RenderConcat([v], [w]);
    RenderOne(v);
    RenderOne(w);
  }

  /** What `out` holds before the final trim: a space in front of every word but the first of a hundreds part. */
  ghost predicate Holds(out: string, ws: seq<NumWord>) {
    if ws == [] then out == "" else out == Render(ws) || out == " " + Render(ws)
  }

  lemma HoldsMore(out: string, ws: seq<NumWord>, more: seq<NumWord>)
    requires Holds(out, ws) && more != []
    ensures Holds(out + (" " + Render(more)), ws + more)
  {
    hide Render;
    RenderConcat(ws, more);
    if ws == [] {
      assert out + (" " + Render(more)) == " " + Render(more);
    } else if out == Render(ws) {
      assert out + (" " + Render(more)) == Render(ws) + " " + Render(more);
    } else {
      assert out + (" " + Render(more)) == " " + (Render(ws) + " " + Render(more));
    }
  }

  lemma {:induction false} JoinEnds(ws: seq<string>)
    requires Words(IsWhitespace, ws) && ws != []
    ensures Join(ws) != "" && !IsWhitespace(Join(ws)[0]) && !IsWhitespace(Join(ws)[|Join(ws)| - 1])
  {
    if |ws| > 1 {
      JoinEnds(ws[1..]);
    }
  }

  lemma TrimHolds(out: string, ws: seq<NumWord>)
    requires Holds(out, ws)
    ensures TrimRight(TrimLeft(out)) == Render(ws)
  {
    if ws != [] {
      JoinEnds(SpellAll(ws));
      TrimLeftFixes(Render(ws));
    }
  }

  method Say(out: string, ghost ws: seq<NumWord>, w: NumWord) returns (r: string)
    requires Holds(out, ws)
    ensures Holds(r, ws + [w])
  {
    r := out + (" " + Spell(w));
    RenderOne(w);
    HoldsMore(out, ws, [w]);
  }

  method SayHundreds(hundreds: Digit, rest: bool, full: bool) returns (out: string)
    ensures Holds(out, HundredWords(hundreds, rest, full))
  {
    out := "";
    if hundreds > 0 {
      out := Spell(D(hundreds)) + " " + Spell(Tram);
      RenderTwo(D(hundreds), Tram);
    } else if full && rest {
      out := Spell(D(0)) + " " + Spell(Tram);
      RenderTwo(D(0), Tram);
    }
  }

  /** `readThreeDigits`. */
  method ReadThreeDigits(n: nat, full: bool) returns (out: string)
    requires n < 1000
    ensures out == Render(ThreeDigitWords(n, full))
  {
    hide Holds, Render;
    var hundreds, tens, units := n / 100, n % 100 / 10, n % 10;
    ghost var head := HundredWords(hundreds, tens > 0 || units > 0, full);
    out := SayHundreds(hundreds, tens > 0 || units > 0, full);
    ghost var ws := head;
    if tens > 1 {
      out := Say(out, ws, D(tens)); ws := ws + [D(tens)];
      out := Say(out, ws, Muoi); ws := ws + [Muoi];
      if units == 1 { out := Say(out, ws, Mot1); ws := ws + [Mot1]; }
      else if units == 5 { out := Say(out, ws, Lam); ws := ws + [Lam]; }
      else if units > 0 { out := Say(out, ws, D(units)); ws := ws + [D(units)]; }
    } else if tens == 1 {
      out := Say(out, ws, Muoi10); ws := ws + [Muoi10];
      if units == 5 { out := Say(out, ws, Lam); ws := ws + [Lam]; }
      else if units > 0 { out := Say(out, ws, D(units)); ws := ws + [D(units)]; }
    } else if units > 0 {
      if hundreds > 0 || full { out := Say(out, ws, Le); ws := ws + [Le]; }
      out := Say(out, ws, D(units)); ws := ws + [D(units)];
    }
    assert ws == ThreeDigitWords(n, full);
    TrimHolds(out, ws);
    out := TrimRight(TrimLeft(out));
  }

  function ScaleText(unit: nat): string {
    if unit == 1 then " nghìn" else if unit == 2 then " triệu" else if unit == 3 then " tỷ" else ""
  }

  lemma ScaleTextIs(unit: nat, ws: seq<NumWord>)
    requires ws != []
    ensures Render(ws) + ScaleText(unit) == Render(ws + ScaleWords(unit))
  {
    RenderConcat(ws, ScaleWords(unit));
    if unit == 1 {
      RenderOne(Nghin);
      assert " nghìn" == " " + "nghìn";
      assert Render(ws) + (" " + "nghìn") == Render(ws) + " " + "nghìn";
    } else if unit == 2 {
      RenderOne(Trieu);
      assert " triệu" == " " + "triệu";
      assert Render(ws) + (" " + "triệu") == Render(ws) + " " + "triệu";
    } else if unit == 3 {
      RenderOne(Ty);
      assert " tỷ" == " " + "tỷ";
      assert Render(ws) + (" " + "tỷ") == Render(ws) + " " + "tỷ";
    } else {
      assert Render(ws) + "" == Render(ws);
    }
  }

  lemma ThreeDigitWordsNonempty(n: nat, full: bool)
    requires 0 < n < 1000
    ensures ThreeDigitWords(n, full) != []
  {
  }

  method SplitGroups(value: nat) returns (groups: seq<nat>)
    ensures groups == Groups(value)
  {
    var num := value;
    groups := [];
    while num > 0
      invariant Groups(num) + groups == Groups(value)
      decreases num
    {
      assert Groups(num / 1000) + [num % 1000] + groups == Groups(num / 1000) + ([num % 1000] + groups);
      groups := [num % 1000] + groups;
      num := num / 1000;
    }
  }

  /** `Math.floor(Math.abs(value))`. */
  function Magnitude(value: real): nat {
    if value < 0.0 then (-value).Floor else value.Floor
  }

  lemma {:induction false} JoinSnoc(a: seq<string>, s: string)
    ensures Join(a + [s]) == if a == [] then s else Join(a) + " " + s
  {
    if a == [] { assert a + [s] == [s]; } else { JoinConcat(a, [s]); }
  }

  /** A rendered word list already has single spaces and no others. */
  lemma CollapseKeepsRender(ws: seq<NumWord>)
    ensures Collapse(IsWhitespace, Render(ws)) == Render(ws)
  {
    CollapseIsJoin(IsWhitespace, Render(ws));
    TokensOfJoin(IsWhitespace, SpellAll(ws));
  }

  /** `numberToVietnameseWords`. */
  method NumberToVietnameseWords(value: real) returns (r: string)
    ensures r == Render(NumberWords(Magnitude(value)))
  {
    hide Render, ThreeDigitWords, ScaleWords;
    var num := Magnitude(value);
    if num == 0 {
      RenderOne(D(0));
      return "không";
    }
    var groups := SplitGroups(num);
    var total := |groups|;
    var parts: seq<string> := [];
    RenderNothing();
    for i := 0 to total
      invariant parts == [] <==> WordsUpTo(groups, i) == []
      invariant Join(parts) == Render(WordsUpTo(groups, i))
    {
      RenderConcat(WordsUpTo(groups, i), GroupWords(groups, i));
      if groups[i] == 0 { continue; }
      ThreeDigitWordsNonempty(groups[i], i != 0);
      var three := ReadThreeDigits(groups[i], i != 0);
      ScaleTextIs(total - 1 - i, ThreeDigitWords(groups[i], i != 0));
      JoinSnoc(parts, three + ScaleText(total - 1 - i));
      parts := parts + [three + ScaleText(total - 1 - i)];
    }
    r := Collapse(IsWhitespace, Join(parts));
    CollapseKeepsRender(NumberWords(num));
  }

  /** `paymentSentence`. */
  method PaymentSentence(amount: real) returns (s: string)
    ensures s == Sentence(Magnitude(amount))
  {
    var words := NumberToVietnameseWords(amount);
    s := "Đã nhận " + words + " đồng";
  }

  function Sentence(n: nat): string { "Đã nhận " + Render(NumberWords(n)) + " đồng" }

  // ---- a reader for spoken numbers ----

  /** The value closed by scale words, the open hundreds and tens, and a digit whose place is not known yet. */
  datatype Heard = Heard(total: nat, group: nat, pending: nat) {
    function Value(): nat { total + group + pending }
  }

  function Hear(h: Heard, w: NumWord): Heard {
    match w
    case D(d) => h.(pending := d)
    case Tram => h.(group := h.group + h.pending * 100, pending := 0)
    case Muoi => h.(group := h.group + h.pending * 10, pending := 0)
    case Muoi10 => h.(group := h.group + 10)
    case Mot1 => h.(pending := 1)
    case Lam => h.(pending := 5)
    case Le => h
    case Nghin => Heard(h.total + (h.group + h.pending) * 1000, 0, 0)
    case Trieu => Heard(h.total + (h.group + h.pending) * 1000000, 0, 0)
    case Ty => Heard(h.total + (h.group + h.pending) * 1000000000, 0, 0)
  }

  function HearAll(h: Heard, ws: seq<NumWord>): Heard {
    if ws == [] then h else Hear(HearAll(h, ws[..|ws| - 1]), ws[|ws| - 1])
  }

  /** The number a word list says. */
  function ReadNumber(ws: seq<NumWord>): nat { HearAll(Heard(0, 0, 0), ws).Value() }

  lemma {:induction false} HearConcat(h: Heard, a: seq<NumWord>, b: seq<NumWord>)
    ensures HearAll(h, a + b) == HearAll(HearAll(h, a), b)
  {
    if b == [] {
      assert a + b == a;
    } else {
      assert (a + b)[..|a + b| - 1] == a + b[..|b| - 1];
      HearConcat(h, a, b[..|b| - 1]);
    }
  }

  lemma HearOne(h: Heard, w: NumWord)
    ensures HearAll(h, [w]) == Hear(h, w)
  {
    assert [w][..0] == [];
  }

  lemma HearTwo(h: Heard, v: NumWord, w: NumWord)
    ensures HearAll(h, [v, w]) == Hear(Hear(h, v), w)
  {
    assert [v, w][..1] == [v];
    HearOne(h, v);
  }

  /** At most one more word. */
  lemma HearLast(h: Heard, a: seq<NumWord>, tail: seq<NumWord>)
    requires |tail| <= 1
    ensures HearAll(h, a + tail) == if tail == [] then HearAll(h, a) else Hear(HearAll(h, a), tail[0])
  {
    HearConcat(h, a, tail);
    if tail != [] {
      assert tail == [tail[0]];
      HearOne(HearAll(h, a), tail[0]);
    }
  }

  function UnitsTail(tens: Digit, units: Digit): (t: seq<NumWord>)
    ensures |t| <= 1
  {
    if tens > 1 && units == 1 then [Mot1]
    else if tens > 0 && units == 5 then [Lam]
    else if units > 0 then [D(units)]
    else []
  }

  lemma TensHeard(h: Heard, tens: Digit, units: Digit, linked: bool)
    requires h.pending == 0
    ensures var r := HearAll(h, TensWords(tens, units, linked));
            r.total == h.total && r.group + r.pending == h.group + 10 * tens + units
  {
    var tail := UnitsTail(tens, units);
    if tens > 1 {
      assert TensWords(tens, units, linked) == [D(tens), Muoi] + tail;
      HearLast(h, [D(tens), Muoi], tail);
      HearTwo(h, D(tens), Muoi);
    } else if tens == 1 {
      assert TensWords(tens, units, linked) == [Muoi10] + tail;
      HearLast(h, [Muoi10], tail);
      HearOne(h, Muoi10);
    } else if units > 0 && linked {
      assert TensWords(tens, units, linked) == [Le] + tail;
      HearLast(h, [Le], tail);
      HearOne(h, Le);
    } else if units > 0 {
      assert TensWords(tens, units, linked) == tail;
      HearOne(h, D(units));
    }
  }

  lemma HundredsHeard(total: nat, hundreds: Digit, rest: bool, full: bool)
    ensures HearAll(Heard(total, 0, 0), HundredWords(hundreds, rest, full)) == Heard(total, 100 * hundreds, 0)
  {
    if hundreds > 0 {
      HearTwo(Heard(total, 0, 0), D(hundreds), Tram);
    } else {
      HearTwo(Heard(total, 0, 0), D(0), Tram);
    }
  }

  lemma ThreeDigitsHeard(total: nat, n: nat, full: bool)
    requires n < 1000
    ensures var r := HearAll(Heard(total, 0, 0), ThreeDigitWords(n, full));
            r.total == total && r.group + r.pending == n
  {
    var hundreds, tens, units := n / 100, n % 100 / 10, n % 10;
    assert n == 100 * hundreds + 10 * tens + units;
    var head := HundredWords(hundreds, tens > 0 || units > 0, full);
    HearConcat(Heard(total, 0, 0), head, TensWords(tens, units, hundreds > 0 || full));
    HundredsHeard(total, hundreds, tens > 0 || units > 0, full);
    TensHeard(Heard(total, 100 * hundreds, 0), tens, units, hundreds > 0 || full);
  }

  function Scale(unit: nat): nat {
    if unit == 0 then 1 else if unit == 1 then 1000 else if unit == 2 then 1000000 else 1000000000
  }

  /** The value of the first `upto` of at most four groups. */
  function ValueUpTo(groups: seq<nat>, upto: nat): nat
    requires upto <= |groups|
  {
    if upto == 0 then 0 else ValueUpTo(groups, upto - 1) + GroupValue(groups, upto - 1)
  }

  function GroupValue(groups: seq<nat>, i: nat): nat
    requires i < |groups|
  {
    groups[i] * Scale(|groups| - 1 - i)
  }

  /** One group: its value is added at its scale, and everything below the top is closed by a scale word. */
  lemma GroupHeard(before: Heard, groups: seq<nat>, i: nat)
    requires i < |groups| <= 4 && groups[i] < 1000 && before.group == before.pending == 0
    ensures var r := HearAll(before, GroupWords(groups, i));
            r.Value() == before.total + GroupValue(groups, i) &&
            (i + 1 < |groups| ==> r.group == r.pending == 0)
  {
    if groups[i] > 0 {
      var three := ThreeDigitWords(groups[i], i != 0);
      ThreeDigitsHeard(before.total, groups[i], i != 0);
      HearLast(before, three, ScaleWords(|groups| - 1 - i));
    }
  }

  /** What has been heard once the first `upto` groups are read, group by group. */
  function HeardUpTo(groups: seq<nat>, upto: nat): Heard
    requires upto <= |groups| && forall i :: 0 <= i < |groups| ==> groups[i] < 1000
  {
    if upto == 0 then Heard(0, 0, 0) else HearAll(HeardUpTo(groups, upto - 1), GroupWords(groups, upto - 1))
  }

  lemma {:induction false} HeardUpToIsAll(groups: seq<nat>, upto: nat)
    requires upto <= |groups| && forall i :: 0 <= i < |groups| ==> groups[i] < 1000
    ensures HeardUpTo(groups, upto) == HearAll(Heard(0, 0, 0), WordsUpTo(groups, upto))
  {
    hide GroupWords, Hear;
    if upto > 0 {
      HeardUpToIsAll(groups, upto - 1);
      HearConcat(Heard(0, 0, 0), WordsUpTo(groups, upto - 1), GroupWords(groups, upto - 1));
    }
  }

  /** `h` has heard the value of the first `upto` groups, and left nothing open before the last one. */
  predicate HasRead(h: Heard, groups: seq<nat>, upto: nat)
    requires upto <= |groups|
  {
    h.Value() == ValueUpTo(groups, upto) && (upto < |groups| ==> h.group == h.pending == 0)
  }

  lemma GroupRead(h: Heard, groups: seq<nat>, i: nat)
    requires i < |groups| <= 4 && groups[i] < 1000 && HasRead(h, groups, i)
    ensures HasRead(HearAll(h, GroupWords(groups, i)), groups, i + 1)
  {
    GroupHeard(h, groups, i);
  }

  lemma {:induction false} GroupsHeard(groups: seq<nat>, upto: nat)
    requires upto <= |groups| <= 4 && forall i :: 0 <= i < |groups| ==> groups[i] < 1000
    ensures HasRead(HeardUpTo(groups, upto), groups, upto)
  {
    if upto > 0 {
      GroupsHeard(groups, upto - 1);
      GroupRead(HeardUpTo(groups, upto - 1), groups, upto - 1);
    }
  }

  /** Four groups reach exactly up to 10^12 - 1. */
  lemma GroupsValue(n: nat)
    requires n < 1000000000000
    ensures |Groups(n)| <= 4 && ValueUpTo(Groups(n), |Groups(n)|) == n
  {
    if n < 1000 {
      if n > 0 { GroupsOfOne(n); }
    } else if n < 1000000 {
      GroupsOfTwo(n);
      assert ValueUpTo([n / 1000, n % 1000], 1) == n / 1000 * 1000;
    } else if n < 1000000000 {
      GroupsOfThree(n);
      ValueOfThree(n / 1000 / 1000, n / 1000 % 1000, n % 1000);
    } else {
      GroupsOfFour(n);
      ValueOfFour(n / 1000 / 1000 / 1000, n / 1000 / 1000 % 1000, n / 1000 % 1000, n % 1000);
    }
  }

  lemma GroupsOfOne(n: nat)
    requires 0 < n < 1000
    ensures Groups(n) == [n]
  {
    assert n / 1000 == 0 && n % 1000 == n;
  }

  lemma GroupsOfTwo(n: nat)
    requires 1000 <= n < 1000000
    ensures Groups(n) == [n / 1000, n % 1000]
  {
    GroupsOfOne(n / 1000);
  }

  lemma GroupsOfThree(n: nat)
    requires 1000000 <= n < 1000000000
    ensures Groups(n) == [n / 1000 / 1000, n / 1000 % 1000, n % 1000]
  {
    GroupsOfTwo(n / 1000);
  }

  lemma GroupsOfFour(n: nat)
    requires 1000000000 <= n < 1000000000000
    ensures Groups(n) == [n / 1000 / 1000 / 1000, n / 1000 / 1000 % 1000, n / 1000 % 1000, n % 1000]
  {
    GroupsOfThree(n / 1000);
  }

  lemma ValueOfThree(b: nat, c: nat, d: nat)
    ensures ValueUpTo([b, c, d], 3) == b * 1000000 + c * 1000 + d
  {
    assert ValueUpTo([b, c, d], 1) == b * 1000000;
    assert ValueUpTo([b, c, d], 2) == b * 1000000 + c * 1000;
  }

  lemma ValueOfFour(a: nat, b: nat, c: nat, d: nat)
    ensures ValueUpTo([a, b, c, d], 4) == a * 1000000000 + b * 1000000 + c * 1000 + d
  {
    assert ValueUpTo([a, b, c, d], 1) == a * 1000000000;
    assert ValueUpTo([a, b, c, d], 2) == a * 1000000000 + b * 1000000;
    assert ValueUpTo([a, b, c, d], 3) == a * 1000000000 + b * 1000000 + c * 1000;
  }

  const LIMIT: nat := 1000000000000

  /** Below 10^12 the reader recovers the number from its words. */
  lemma WordsReadBack(n: nat)
    requires n < LIMIT
    ensures ReadNumber(NumberWords(n)) == n
  {
    if n == 0 {
      HearOne(Heard(0, 0, 0), D(0));
    } else {
      GroupsValue(n);
      GroupsHeard(Groups(n), |Groups(n)|);
      HeardUpToIsAll(Groups(n), |Groups(n)|);
    }
  }

  // ---- from text back to words ----

  function WordOf(s: string): Option<NumWord> {
    if s == "không" then Some(D(0)) else if s == "một" then Some(D(1)) else if s == "hai" then Some(D(2))
    else if s == "ba" then Some(D(3)) else if s == "bốn" then Some(D(4)) else if s == "năm" then Some(D(5))
    else if s == "sáu" then Some(D(6)) else if s == "bảy" then Some(D(7)) else if s == "tám" then Some(D(8))
    else if s == "chín" then Some(D(9)) else if s == "trăm" then Some(Tram) else if s == "mươi" then Some(Muoi)
    else if s == "mười" then Some(Muoi10) else if s == "mốt" then Some(Mot1) else if s == "lăm" then Some(Lam)
    else if s == "lẻ" then Some(Le) else if s == "nghìn" then Some(Nghin) else if s == "triệu" then Some(Trieu)
    else if s == "tỷ" then Some(Ty) else None
  }

  lemma SpellUnique(w: NumWord)
    ensures WordOf(Spell(w)) == Some(w)
  {
    match w
    case D(d) =>
      if d == 0 { assert Spell(w) == "không"; }
      else if d == 1 { assert Spell(w) == "một"; }
      else if d == 2 { assert Spell(w) == "hai"; }
      else if d == 3 { assert Spell(w) == "ba"; }
      else if d == 4 { assert Spell(w) == "bốn"; }
      else if d == 5 { assert Spell(w) == "năm"; }
      else if d == 6 { assert Spell(w) == "sáu"; }
      else if d == 7 { assert Spell(w) == "bảy"; }
      else if d == 8 { assert Spell(w) == "tám"; }
      else { assert Spell(w) == "chín"; }
    case _ =>
  }

  lemma RenderInjective(a: seq<NumWord>, b: seq<NumWord>)
    requires Render(a) == Render(b)
    ensures a == b
  {
    TokensOfJoin(IsWhitespace, SpellAll(a));
    TokensOfJoin(IsWhitespace, SpellAll(b));
    forall i | 0 <= i < |a| ensures a[i] == b[i] {
      assert SpellAll(a)[i] == SpellAll(b)[i];
      SpellUnique(a[i]);
      SpellUnique(b[i]);
    }
  }

  /** The words of a text, if it consists of number words. */
  function WordsOf(tokens: seq<string>): Option<seq<NumWord>> {
    if tokens == [] then Some([])
    else match WordOf(tokens[0])
      case None => None
      case Some(w) => match WordsOf(tokens[1..]) case None => None case Some(ws) => Some([w] + ws)
  }

  /** Reads a number from the text that is spoken. */
  function ReadText(text: string): Option<nat> {
    match WordsOf(Tokens(IsWhitespace, text)) case None => None case Some(ws) => Some(ReadNumber(ws))
  }

  lemma {:induction false} WordsOfSpelled(ws: seq<NumWord>)
    ensures WordsOf(SpellAll(ws)) == Some(ws)
  {
    hide WordOf, Spell;
    if ws != [] {
      SpellUnique(ws[0]);
      WordsOfSpelled(ws[1..]);
      assert SpellAll(ws)[1..] == SpellAll(ws[1..]);
      assert [ws[0]] + ws[1..] == ws;
    }
  }

  /** Below 10^12 the number is recovered from the text. */
  lemma TextReadBack(n: nat)
    requires n < LIMIT
    ensures ReadText(Render(NumberWords(n))) == Some(n)
  {
    hide Words, SpellAll, Tokens, NumberWords, ReadNumber;
    var ws := NumberWords(n);
    TokensOfJoin(IsWhitespace, SpellAll(ws));
    WordsOfSpelled(ws);
    WordsReadBack(n);
  }

  /** No two numbers below `bound` sound the same. */
  ghost predicate ReadUniquely(bound: nat) {
    forall m: nat, n: nat :: m < bound && n < bound && Render(NumberWords(m)) == Render(NumberWords(n)) ==> m == n
  }

  lemma SameSound(m: nat, n: nat)
    requires m < LIMIT && n < LIMIT && Render(NumberWords(m)) == Render(NumberWords(n))
    ensures m == n
  {
    RenderInjective(NumberWords(m), NumberWords(n));
    WordsReadBack(m);
    WordsReadBack(n);
  }

  /** 10^12 has no scale word of its own and reads like 1. */
  lemma LimitReadsLikeOne()
    ensures NumberWords(LIMIT) == NumberWords(1)
  {
    GroupsOfOne(1);
    GroupsOfFour(1000000000);
    assert Groups(LIMIT) == [1, 0, 0, 0] + [0];
    var g := [1, 0, 0, 0, 0];
    TrailingZeros(g, 5);
    TrailingZeros([1], 1);
    assert ScaleWords(4) == ScaleWords(0) == [];
  }

  lemma {:induction false} TrailingZeros(groups: seq<nat>, upto: nat)
    requires 1 <= upto <= |groups| && groups[0] < 1000 && forall i :: 1 <= i < |groups| ==> groups[i] == 0
    ensures WordsUpTo(groups, upto) == GroupWords(groups, 0)
  {
    hide ThreeDigitWords;
    if upto > 1 {
      TrailingZeros(groups, upto - 1);
    } else {
      assert WordsUpTo(groups, 0) == [];
    }
  }

  /** The clamp bound is tight: amounts are read uniquely below `bound` exactly for bounds up to 10^12. */
  lemma ReadUniquelyIffBelowLimit(bound: nat)
    ensures ReadUniquely(bound) <==> bound <= LIMIT
  {
    if bound <= LIMIT {
      forall m: nat, n: nat | m < bound && n < bound && Render(NumberWords(m)) == Render(NumberWords(n))
        ensures m == n {
        SameSound(m, n);
      }
    } else {
      LimitReadsLikeOne();
    }
  }

  /** Within the clamp, sentences differ whenever amounts do. */
  lemma SentenceUnique(m: nat, n: nat)
    requires m < LIMIT && n < LIMIT && Sentence(m) == Sentence(n)
    ensures m == n
  {
    var a, b := Render(NumberWords(m)), Render(NumberWords(n));
    var pre, post := "Đã nhận ", " đồng";
    assert |a| == |b|;
    assert a == Sentence(m)[|pre|..|pre| + |a|];
    assert b == Sentence(n)[|pre|..|pre| + |b|];
    SameSound(m, n);
  }

  // ---- length ----

  lemma {:induction false} RenderLength(ws: seq<NumWord>)
    ensures |Render(ws)| <= 6 * |ws|
    ensures ws != [] ==> |Render(ws)| <= 6 * |ws| - 1
  {
    if ws != [] {
      var init := ws[..|ws| - 1];
      var w := ws[|ws| - 1];
      assert ws == init + [w];
      RenderLength(init);
      RenderConcat(init, [w]);
      RenderOne(w);
    }
  }

  lemma GroupWordCount(groups: seq<nat>, i: nat)
    requires i < |groups| && groups[i] < 1000
    ensures |GroupWords(groups, i)| <= 6
  {
  }

  lemma {:induction false} WordCount(groups: seq<nat>, upto: nat)
    requires upto <= |groups| && forall i :: 0 <= i < |groups| ==> groups[i] < 1000
    ensures |WordsUpTo(groups, upto)| <= 6 * upto
  {
    hide GroupWords;
    if upto > 0 {
      WordCount(groups, upto - 1);
      GroupWordCount(groups, upto - 1);
    }
  }

  /** Every clamped sentence fits the provider's limit of 200 characters. */
  lemma SentenceFits(n: nat)
    requires n < LIMIT
    ensures |Sentence(n)| < 200
  {
    GroupsValue(n);
    WordCount(Groups(n), |Groups(n)|);
    RenderLength(NumberWords(n));
    assert |"Đã nhận "| == 8 && |" đồng"| == 5;
  }
}
