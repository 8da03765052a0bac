/**
  Writing the shared string table back into the template's XML.

  The added entries go in by `ss.replace('</sst>', entries + '</sst>')`. The second argument of
  that call is a replacement pattern, not a text: `$$`, `$&`, a dollar and a backquote, and a
  dollar and an apostrophe are substituted in it (GetSubstitution in ECMA-262). The write is
  modelled with that substitution, and a reader takes the table back out of the written XML.
*/
module SpxTable {
  import opened Common
  import opened Text
  import opened SpxExport

  function End(): string { "</sst>" }
  function Open(): string { "<si><t xml:space=\"preserve\">" }
  function Close(): string { "</t></si>" }

  /** All that the proofs need of the three tags. */
  lemma Tags()
    ensures |End()| >= 3 && End()[0] == '<' && End()[1] == '/' && End()[2] == 's' && '$' !in End()
    ensures |Open()| >= 3 && Open()[0] == '<' && Open()[1] == 's' && '$' !in Open() && Open()[|Open()| - 1] == '>'
    ensures |Close()| >= 3 && Close()[0] == '<' && Close()[2] == 't' && '$' !in Close() && Close()[|Close()| - 1] == '>'
  {
  }

  // ---- replacing a string by a pattern ----

  /** Where `pattern` first occurs. */
  function FirstAt(s: string, pattern: string): (k: Option<nat>)
    ensures k.Some? ==> k.value + |pattern| <= |s| && s[k.value..k.value + |pattern|] == pattern
  {
    if pattern <= s then Some(0)
    else if s == "" then None
    else match FirstAt(s[1..], pattern) case Some(k) => Some(k + 1) case None => None
  }

  /** The replacement text for a match without groups: four dollar patterns, every other dollar stands for itself. */
  function Substitute(t: string, matched: string, before: string, after: string): string
    decreases |t|
  {
    if t == "" then ""
    else if |t| >= 2 && t[0] == '$' && t[1] == '$' then "$" + Substitute(t[2..], matched, before, after)
    else if |t| >= 2 && t[0] == '$' && t[1] == '&' then matched + Substitute(t[2..], matched, before, after)
    else if |t| >= 2 && t[0] == '$' && t[1] == '`' then before + Substitute(t[2..], matched, before, after)
    else if |t| >= 2 && t[0] == '$' && t[1] == '\'' then after + Substitute(t[2..], matched, before, after)
    else [t[0]] + Substitute(t[1..], matched, before, after)
  }

  /** `s.replace(pattern, t)` for a string pattern: the first occurrence only. */
  function Replace(s: string, pattern: string, t: string): string {
    match FirstAt(s, pattern)
    case None => s
    case Some(k) =>
      s[..k] + (Substitute(t, pattern, s[..k], s[k + |pattern|..]) + s[k + |pattern|..])
  }

  /** A dollar directly followed by a character of `cs`. */
  predicate DollarBefore(t: string, cs: set<char>) {
    |t| >= 2 && ((t[0] == '$' && t[1] in cs) || DollarBefore(t[1..], cs))
  }

  const SPECIAL: set<char> := {'$', '&', '`', '\''}

  /** The same before escaping: `<` and `>` are escaped to something that starts with `&`. */
  const RISKY: set<char> := {'$', '&', '<', '>', '`', '\''}

  predicate Risky(text: string) { DollarBefore(text, RISKY) }

  /** A text is risky when somewhere in it a dollar stands directly before one of these six characters. */
  lemma {:induction false} DollarSomewhere(t: string, cs: set<char>)
    ensures DollarBefore(t, cs) <==> exists i :: 0 <= i < |t| - 1 && t[i] == '$' && t[i + 1] in cs
  {
    if |t| >= 2 {
      DollarSomewhere(t[1..], cs);
      if i :| 0 < i < |t| - 1 && t[i] == '$' && t[i + 1] in cs {
        assert t[1..][i - 1] == '$' && t[1..][i] in cs;
      }
      if i :| 0 <= i < |t[1..]| - 1 && t[1..][i] == '$' && t[1..][i + 1] in cs {
        assert t[i + 1] == '$' && t[i + 2] in cs;
      }
    }
  }

  lemma RiskyIff(text: string)
    ensures Risky(text) <==> exists i :: 0 <= i < |text| - 1 && text[i] == '$' && text[i + 1] in "$&<>`'"
  {
    DollarSomewhere(text, RISKY);
    forall c: char ensures c in RISKY <==> c in "$&<>`'" {
      RiskyCharacters(c);
    }
  }

  lemma RiskyCharacters(c: char)
    ensures c in RISKY <==> c in "$&<>`'"
  {
    var s := "$&<>`'";
    assert s[0] == '$' && s[1] == '&' && s[2] == '<' && s[3] == '>' && s[4] == '`' && s[5] == '\'';
  }

  lemma {:induction false} DollarConcat(a: string, b: string, cs: set<char>)
    ensures DollarBefore(a + b, cs) <==>
            DollarBefore(a, cs) || DollarBefore(b, cs) ||
            (a != "" && b != "" && a[|a| - 1] == '$' && b[0] in cs)
  {
    if a == "" {
      assert a + b == b;
    } else {
      assert (a + b)[1..] == a[1..] + b;
      DollarConcat(a[1..], b, cs);
    }
  }

  lemma {:induction false} NoDollar(t: string, cs: set<char>)
    requires '$' !in t
    ensures !DollarBefore(t, cs)
  {
    if t != "" {
      NoDollar(t[1..], cs);
    }
  }

  lemma SubstituteHead(a: string, b: string, matched: string, before: string, after: string)
    requires a != "" && !DollarBefore(a, SPECIAL) && a[|a| - 1] != '$'
    ensures Substitute(a + b, matched, before, after) == [a[0]] + Substitute(a[1..] + b, matched, before, after)
  {
    assert (a + b)[1..] == a[1..] + b;
    assert |a| >= 2 ==> (a + b)[1] == a[1];
  }

  /** What contains no pattern and does not end in a dollar is copied. */
  lemma {:induction false} SubstituteSkips(a: string, b: string, matched: string, before: string, after: string)
    requires !DollarBefore(a, SPECIAL) && (a == "" || a[|a| - 1] != '$')
    ensures Substitute(a + b, matched, before, after) == a + Substitute(b, matched, before, after)
  {
    hide Substitute;
    if a == "" {
      assert a + b == b;
    } else {
      SubstituteSkips(a[1..], b, matched, before, after);
      SubstituteHead(a, b, matched, before, after);
      HeadAndTail(a, Substitute(b, matched, before, after));
    }
  }

  lemma HeadAndTail(a: string, rest: string)
    requires a != ""
    ensures [a[0]] + (a[1..] + rest) == a + rest
  {
  }

  lemma {:induction false} SubstituteNothing(t: string, matched: string, before: string, after: string)
    requires !DollarBefore(t, SPECIAL)
    ensures Substitute(t, matched, before, after) == t
  {
    if t != "" {
      SubstituteNothing(t[1..], matched, before, after);
    }
  }

  // ---- every pattern changes the text ----

  /** Dollars count one, each `<` counts `-m`. */
  function Weight(s: string, m: nat): int {
    if s == "" then 0 else CharWeight(s[0], m) + Weight(s[1..], m)
  }

  function CharWeight(c: char, m: nat): int {
    if c == '$' then 1 else if c == '<' then 0 - m as int else 0
  }

  lemma {:induction false} WeightConcat(a: string, b: string, m: nat)
    ensures Weight(a + b, m) == Weight(a, m) + Weight(b, m)
  {
    if a == "" {
      assert a + b == b;
    } else {
      assert (a + b)[1..] == a[1..] + b;
      WeightConcat(a[1..], b, m);
    }
  }

  function Dollars(s: string): nat { if s == "" then 0 else (if s[0] == '$' then 1 else 0) + Dollars(s[1..]) }

  lemma {:induction false} WeightBound(s: string, m: nat)
    ensures Weight(s, m) <= Dollars(s)
    ensures '<' in s ==> Weight(s, m) <= Dollars(s) - m
    ensures '$' !in s ==> Dollars(s) == 0
  {
    if s != "" {
      WeightBound(s[1..], m);
      assert s == [s[0]] + s[1..];
    }
  }

  /** Each pattern lowers the weight, so a text that contains one is changed, whatever else it contains. */
  lemma {:induction false} SubstituteLowers(t: string, before: string, after: string, m: nat)
    requires '<' in before && '$' !in after && m == Dollars(before) + 1
    ensures Weight(Substitute(t, End(), before, after), m) <= Weight(t, m)
    ensures DollarBefore(t, SPECIAL) ==> Weight(Substitute(t, End(), before, after), m) < Weight(t, m)
    decreases |t|
  {
    hide End, Open, Close;
    Tags();
    if t == "" {
    } else if |t| >= 2 && t[0] == '$' && t[1] in SPECIAL {
      var put := if t[1] == '$' then "$" else if t[1] == '&' then End() else if t[1] == '`' then before else after;
      var rest := Substitute(t[2..], End(), before, after);
      assert Substitute(t, End(), before, after) == put + rest;
      SubstituteLowers(t[2..], before, after, m);
      WeightConcat(put, rest, m);
      assert t[1..][1..] == t[2..];
      WeightBound(put, m);
    } else {
      SubstituteLowers(t[1..], before, after, m);
      var rest := Substitute(t[1..], End(), before, after);
      assert ([t[0]] + rest)[1..] == rest;
    }
  }

  // ---- the entries as XML ----

  function Si(escaped: string): string { Open() + (escaped + Close()) }

  function Items(escaped: seq<string>): string {
    if escaped == [] then "" else Si(escaped[0]) + Items(escaped[1..])
  }

  /** The table is written only when something was added. */
  function Written(ss: string, interned: seq<string>): string {
    if interned == [] then ss else Replace(ss, End(), Items(EscapeAll(interned)) + End())
  }

  /** The text of one entry ends at the next `<`. */
  function TextEnd(s: string): (n: nat)
    ensures n <= |s| && '<' !in s[..n] && (n < |s| ==> s[n] == '<')
  {
    if s == "" || s[0] == '<' then 0 else 1 + TextEnd(s[1..])
  }

  /** Reads entries up to the end of the table: their texts, and what follows the table. */
  function ReadItems(s: string): Option<(seq<string>, string)>
    decreases |s|
  {
    if End() <= s then Some(([], s[|End()|..]))
    else if Open() <= s then
      var body := s[|Open()|..];
      var n := TextEnd(body);
      if Close() <= body[n..] then
        match ReadItems(body[n..][|Close()|..])
        case Some((texts, tail)) => Some(([body[..n]] + texts, tail))
        case None => None
      else None
    else None
  }

  /**
    What a reader of the written XML finds: the entries `base` of the template, which stand in
    `head` and are not touched, and those behind it; only the template's own `tail` may follow.
  */
  function ReadTable(base: seq<string>, head: string, tail: string, xml: string): Option<seq<string>> {
    if head <= xml then
      match ReadItems(xml[|head|..])
      case Some((texts, rest)) => if rest == tail then Some(base + texts) else None
      case None => None
    else None
  }

  /** One entry is read as its text, then what follows it. */
  lemma ReadOne(text: string, rest: string)
    requires '<' !in text
    ensures ReadItems(Si(text) + rest) ==
            match ReadItems(rest)
            case Some((texts, tail)) => Some(([text] + texts, tail))
            case None => None
  {
    hide End, Open, Close;
    Tags();
    var s := Si(text) + rest;
    var body := text + (Close() + rest);
    assert s == Open() + body;
    assert s[1] == Open()[1];
    assert s[|Open()|..] == body;
    TextEndIs(text, Close() + rest);
    assert body[|text|..] == Close() + rest && body[..|text|] == text;
    assert (Close() + rest)[|Close()|..] == rest;
  }

  lemma {:induction false} TextEndIs(a: string, b: string)
    requires '<' !in a && b != "" && b[0] == '<'
    ensures TextEnd(a + b) == |a|
  {
    if a == "" {
      assert a + b == b;
    } else {
      assert (a + b)[1..] == a[1..] + b;
      assert (a + b)[0] == a[0];
      assert a[0] in a;
      TextEndIs(a[1..], b);
    }
  }

  predicate Plain(texts: seq<string>) { forall i :: 0 <= i < |texts| ==> '<' !in texts[i] }

  lemma ReadEnd(tail: string)
    ensures ReadItems(Items([]) + (End() + tail)) == Some(([], tail))
  {
    hide End;
    assert Items([]) + (End() + tail) == End() + tail;
    assert (End() + tail)[|End()|..] == tail;
  }

  lemma ReadFirst(texts: seq<string>, tail: string)
    requires Plain(texts) && texts != []
    requires ReadItems(Items(texts[1..]) + (End() + tail)) == Some((texts[1..], tail))
    ensures ReadItems(Items(texts) + (End() + tail)) == Some((texts, tail))
  {
    hide End, Si, ReadItems;
    var rest := Items(texts[1..]) + (End() + tail);
    assert Items(texts) + (End() + tail) == Si(texts[0]) + rest;
    ReadOne(texts[0], rest);
    assert [texts[0]] + texts[1..] == texts;
  }

  lemma {:induction false} ReadComplete(texts: seq<string>, tail: string)
    requires Plain(texts)
    ensures ReadItems(Items(texts) + (End() + tail)) == Some((texts, tail))
  {
    hide End, ReadItems, Items;
    if texts == [] {
      ReadEnd(tail);
    } else {
      ReadComplete(texts[1..], tail);
      ReadFirst(texts, tail);
    }
  }

  /** Where an entry is read, it stands in the text. */
  lemma FirstEntry(s: string) returns (text: string, rest: string)
    requires !(End() <= s) && ReadItems(s).Some?
    ensures '<' !in text && s == Si(text) + rest && |rest| < |s|
  {
    hide End, Open, Close, Si;
    var body := s[|Open()|..];
    var n := TextEnd(body);
    text, rest := body[..n], body[n..][|Close()|..];
    Tags();
    EntryParts(s, body, n);
  }

  lemma EntryParts(s: string, body: string, n: nat)
    requires Open() <= s && body == s[|Open()|..] && n <= |body| && Close() <= body[n..]
    ensures s == Si(body[..n]) + body[n..][|Close()|..]
  {
    hide Open, Close, Si;
    var rest := body[n..][|Close()|..];
    assert body[n..] == Close() + rest;
    assert body == body[..n] + (Close() + rest);
    assert s == Open() + body;
    SiBefore(body[..n], rest);
  }

  lemma SiBefore(text: string, rest: string)
    ensures Si(text) + rest == Open() + (text + (Close() + rest))
  {
    hide Open, Close;
  }

  /** What is read, written out, is the text: no two tables have the same XML. */
  lemma {:induction false} ReadSound(s: string)
    ensures var r := ReadItems(s); r.Some? ==> s == Items(r.value.0) + (End() + r.value.1)
    decreases |s|
  {
    hide End, Open, Close, Si;
    var r := ReadItems(s);
    if r.Some? {
      if End() <= s {
        assert s == End() + s[|End()|..];
        assert Items([]) + (End() + r.value.1) == End() + r.value.1;
      } else {
        var text, rest := FirstEntry(s);
        ReadOne(text, rest);
        ReadSound(rest);
        SoundStep(s, text, rest, r.value.0, r.value.1);
      }
    }
  }

  lemma SoundStep(s: string, text: string, rest: string, texts: seq<string>, tail: string)
    requires s == Si(text) + rest && texts != [] && texts[0] == text
    requires rest == Items(texts[1..]) + (End() + tail)
    ensures s == Items(texts) + (End() + tail)
  {
    hide End, Si;
    assert Si(text) + (Items(texts[1..]) + (End() + tail)) == (Si(text) + Items(texts[1..])) + (End() + tail);
  }

  // ---- when the written table is the intended one ----

  /** Escaping moves the risk: a dollar before `<`, `>` or `&` becomes one before `&`. */
  lemma {:induction false} EscapedRisk(s: string)
    ensures DollarBefore(EscapeXml(s), SPECIAL) <==> Risky(s)
    ensures s == "" ==> EscapeXml(s) == ""
    ensures s != "" ==> EscapeXml(s) != "" && EscapeXml(s)[0] == EscapeChar(s[0])[0]
  {
    if s != "" {
      var c, rest := s[0], EscapeXml(s[1..]);
      assert s == [c] + s[1..];
      EscapeConcat([c], s[1..]);
      EscapeOneChar(c);
      EscapedRisk(s[1..]);
      DollarConcat(EscapeChar(c), rest, SPECIAL);
      if c == '&' || c == '<' || c == '>' {
        NoDollar(EscapeChar(c), SPECIAL);
      }
    }
  }

  lemma SiRisk(escaped: string, rest: string)
    requires rest != "" && rest[0] == '<'
    ensures DollarBefore(Si(escaped) + rest, SPECIAL) <==> DollarBefore(escaped, SPECIAL) || DollarBefore(rest, SPECIAL)
  {
    hide End, Open, Close;
    Tags();
    NoDollar(Open(), SPECIAL);
    NoDollar(Close(), SPECIAL);
    DollarConcat(escaped, Close(), SPECIAL);
    DollarConcat(Open(), escaped + Close(), SPECIAL);
    DollarConcat(Si(escaped), rest, SPECIAL);
  }

  lemma {:induction false} ItemsRisk(interned: seq<string>)
    ensures DollarBefore(Items(EscapeAll(interned)) + End(), SPECIAL) <==> exists t :: t in interned && Risky(t)
  {
    hide End, Open, Close;
    Tags();
    var escaped := EscapeAll(interned);
    if interned == [] {
      assert Items(escaped) + End() == End();
      NoDollar(End(), SPECIAL);
    } else {
      var rest := Items(escaped[1..]) + End();
      assert escaped[1..] == EscapeAll(interned[1..]);
      assert Items(escaped) + End() == Si(escaped[0]) + rest;
      assert rest[0] == '<';
      SiRisk(escaped[0], rest);
      EscapedRisk(interned[0]);
      ItemsRisk(interned[1..]);
      assert interned == [interned[0]] + interned[1..];
    }
  }

  /** The template's entries followed by the added ones. */
  function Table(base: seq<string>, texts: seq<string>): seq<string> {
    base + EscapeAll(AddAll([], texts))
  }

  /** The XML has a table end, something before it, and no dollar after it. */
  predicate IsTemplate(ss: string) {
    var k := FirstAt(ss, End());
    k.Some? && '<' in ss[..k.value] && '$' !in ss[k.value + |End()|..]
  }

  function Head(ss: string): string requires IsTemplate(ss) { ss[..FirstAt(ss, End()).value] }

  function Tail(ss: string): string requires IsTemplate(ss) { ss[FirstAt(ss, End()).value + |End()|..] }

  predicate StandsAt(s: string, pattern: string, k: nat) { k <= |s| && pattern <= s[k..] }

  /** `FirstAt` finds a pattern where it stands and never before. */
  lemma {:induction false} FirstAtIff(s: string, pattern: string, k: nat)
    ensures FirstAt(s, pattern) == Some(k) <==>
            StandsAt(s, pattern, k) && forall j: nat :: j < k ==> !StandsAt(s, pattern, j)
  {
    assert StandsAt(s, pattern, 0) <==> pattern <= s by { assert s[0..] == s; }
    if !(pattern <= s) && s != "" && k > 0 {
      FirstAtIff(s[1..], pattern, k - 1);
      forall j: nat | 0 < j ensures StandsAt(s, pattern, j) <==> StandsAt(s[1..], pattern, j - 1) {
        StandsShifted(s, pattern, j);
      }
      assert forall j: nat :: StandsAt(s[1..], pattern, j) ==> StandsAt(s, pattern, j + 1);
    }
  }

  lemma StandsShifted(s: string, pattern: string, j: nat)
    requires s != "" && 0 < j
    ensures StandsAt(s, pattern, j) <==> StandsAt(s[1..], pattern, j - 1)
  {
    if j <= |s| {
      assert s[1..][j - 1..] == s[j..];
    }
  }

  /** The template's XML: a head that holds markup and no table end, the table end, and a tail without a dollar. */
  lemma TemplateIs(head: string, tail: string)
    requires '<' in head && '$' !in tail
    requires forall j: nat :: j < |head| ==> !StandsAt(head + ("</sst>" + tail), "</sst>", j)
    ensures var ss := head + ("</sst>" + tail);
            IsTemplate(ss) && Head(ss) == head && Tail(ss) == tail
  {
    var ss := head + ("</sst>" + tail);
    assert ss[|head|..] == "</sst>" + tail;
    assert ss[..|head|] == head && ss[|head| + 6..] == tail;
    FirstAtIff(ss, "</sst>", |head|);
  }

  /** One entry, letter by letter. */
  lemma OneEntryWritten(head: string, tail: string, t: string)
    requires '<' in head && '$' !in tail && !Risky(t)
    requires forall j: nat :: j < |head| ==> !StandsAt(head + ("</sst>" + tail), "</sst>", j)
    ensures Written(head + ("</sst>" + tail), [t]) ==
            head + ("<si><t xml:space=\"preserve\">" + (EscapeXml(t) + "</t></si></sst>") + tail)
  {
    hide FirstAt, IsTemplate, Head, Tail, EscapeXml, Written, Substitute, Risky, Items, EscapeAll;
    TemplateIs(head, tail);
    WrittenIs(head + ("</sst>" + tail), [t]);
    var xml := Items(EscapeAll([t])) + End();
    SingleItem(t);
    ItemsRisk([t]);
    SubstituteNothing(xml, End(), head, tail);
  }

  lemma SingleItem(t: string)
    ensures Items(EscapeAll([t])) + End() == "<si><t xml:space=\"preserve\">" + (EscapeXml(t) + "</t></si></sst>")
  {
    hide EscapeXml;
    assert EscapeAll([t]) == [EscapeXml(t)];
    assert [EscapeXml(t)][1..] == [];
    assert Close() + End() == "</t></si></sst>";
  }

  lemma EscapedPlain(interned: seq<string>)
    ensures Plain(EscapeAll(interned))
  {
    forall i | 0 <= i < |interned| ensures '<' !in EscapeAll(interned)[i] {
      EscapedIsPlain(interned[i]);
    }
  }

  lemma ReadBehind(base: seq<string>, head: string, rest: string, tail: string)
    ensures ReadTable(base, head, tail, head + rest) ==
            match ReadItems(rest)
            case Some((texts, after)) => if after == tail then Some(base + texts) else None
            case None => None
  {
    hide ReadItems;
    assert (head + rest)[|head|..] == rest;
  }

  lemma NothingToWrite()
    ensures EscapeAll([]) == [] && Items([]) + End() == End()
  {
    hide End;
  }

  /** The substituted entries stand behind the template's head and in front of its tail. */
  lemma WrittenIs(ss: string, interned: seq<string>)
    requires IsTemplate(ss)
    ensures var put := Substitute(Items(EscapeAll(interned)) + End(), End(), Head(ss), Tail(ss));
            Written(ss, interned) == Head(ss) + (put + Tail(ss))
  {
    hide End, FirstAt, Items, Substitute;
    if interned == [] {
      NothingToWrite();
      EndOnly(ss);
    }
  }

  lemma EndOnly(ss: string)
    requires IsTemplate(ss)
    ensures Substitute(End(), End(), Head(ss), Tail(ss)) == End() && ss == Head(ss) + (End() + Tail(ss))
  {
    hide End, FirstAt, Substitute;
    Tags();
    NoDollar(End(), SPECIAL);
    SubstituteNothing(End(), End(), Head(ss), Tail(ss));
    SplitAround(ss, FirstAt(ss, End()).value, End());
  }

  lemma SplitAround(s: string, k: nat, part: string)
    requires k + |part| <= |s| && s[k..k + |part|] == part
    ensures s == s[..k] + (part + s[k + |part|..])
  {
  }

  /**
    The table read back is the intended one exactly when no text has a dollar directly before one
    of `$`, `&`, `<`, `>`, an apostrophe or a backquote.
  */
  lemma WrittenTable(base: seq<string>, ss: string, texts: seq<string>)
    requires IsTemplate(ss)
    ensures ReadTable(base, Head(ss), Tail(ss), Written(ss, AddAll([], texts))) == Some(Table(base, texts)) <==>
            forall t :: t in texts ==> !Risky(t)
  {
    hide Risky, IsTemplate, End, Open, Close, Items, Substitute, Written, ReadItems, ReadTable, Head, Tail;
    var interned := AddAll([], texts);
    AddAllGrows([], texts);
    var escaped := EscapeAll(interned);
    ItemsRisk(interned);
    EscapedPlain(interned);
    WrittenIs(ss, interned);
    var put := Substitute(Items(escaped) + End(), End(), Head(ss), Tail(ss));
    ReadBehind(base, Head(ss), put + Tail(ss), Tail(ss));
    SubstitutedRead(escaped, ss);
    var r := ReadItems(put + Tail(ss));
    if r.Some? && base + r.value.0 == base + escaped {
      assert r.value.0 == (base + r.value.0)[|base|..] == (base + escaped)[|base|..] == escaped;
    }
  }

  lemma SubstitutedRead(escaped: seq<string>, ss: string)
    requires IsTemplate(ss) && Plain(escaped)
    ensures var xml := Items(escaped) + End();
            ReadItems(Substitute(xml, End(), Head(ss), Tail(ss)) + Tail(ss)) == Some((escaped, Tail(ss))) <==>
            !DollarBefore(xml, SPECIAL)
  {
    hide End, Items, Substitute, ReadItems, DollarBefore, Weight, Dollars;
    var head, tail := Head(ss), Tail(ss);
    var xml := Items(escaped) + End();
    var put := Substitute(xml, End(), head, tail);
    assert xml + tail == Items(escaped) + (End() + tail);
    if DollarBefore(xml, SPECIAL) {
      var m := Dollars(head) + 1;
      SubstituteLowers(xml, head, tail, m);
      WeightConcat(put, tail, m);
      WeightConcat(xml, tail, m);
      ReadSound(put + tail);
    } else {
      SubstituteNothing(xml, End(), head, tail);
      ReadComplete(escaped, tail);
    }
  }

  /** Then every text cell's index resolves, in the table read back, to the escaped text of the cell. */
  lemma IndexResolves(base: seq<string>, ss: string, texts: seq<string>, t: string)
    requires IsTemplate(ss) && t in texts && forall u :: u in texts ==> !Risky(u)
    ensures t in AddAll([], texts)
    ensures var r := ReadTable(base, Head(ss), Tail(ss), Written(ss, AddAll([], texts)));
            var idx := |base| + IndexOf(AddAll([], texts), t);
            && r.Some? && |base| <= idx < |r.value|
            && r.value[idx] == EscapeXml(t) && Unescape(r.value[idx]) == t
            && base <= r.value
  {
    AddAllGrows([], texts);
    WrittenTable(base, ss, texts);
    UnescapeEscape(t);
  }

  /** The index in a cell leads, in the table, to the escaped text of that very cell. */
  predicate CellResolves(cell: Cell, vals: seq<Value>, c: nat, table: seq<string>) {
    cell.content.Shared? ==>
      c < |vals| && vals[c].Str? && cell.content.idx < |table| && table[cell.content.idx] == EscapeXml(vals[c].s)
  }

  lemma CellIsResolved(base: seq<string>, texts: seq<string>, cell: Cell, cols: seq<Column>, vals: seq<Value>,
                       c: nat, r: nat)
    ensures CellOk(cell, cols, vals, c, r, |base|, AddAll([], texts)) ==>
              CellResolves(cell, vals, c, Table(base, texts))
  {
    hide AddAll, EscapeXml;
    if CellOk(cell, cols, vals, c, r, |base|, AddAll([], texts)) && cell.content.Shared? {
      assert TextAt(vals, c) == [vals[c].s] && vals[c].s in TextAt(vals, c);
    }
  }

  /**
    The sheet and the table belong together: where `uniqueCount` is the number of the template's
    entries and no text is risky, the table can be read back and every cell of the sheet resolves.
  */
  lemma SheetIsResolved(base: seq<string>, ss: string, template: seq<Column>, rows: seq<seq<Value>>,
                        sheet: seq<seq<Cell>>)
    requires IsTemplate(ss)
    ensures var texts := SheetTexts(template, rows);
            var table := ReadTable(base, Head(ss), Tail(ss), Written(ss, AddAll([], texts)));
            |sheet| == |rows| && SheetOk(sheet, template, rows, |base|, AddAll([], texts)) &&
            (forall t :: t in texts ==> !Risky(t)) ==>
              table.Some? &&
              forall i, c :: 0 <= i < |sheet| && 0 <= c < |sheet[i]| && sheet[i][c].content.Shared? ==>
                var idx := sheet[i][c].content.idx;
                && c < |rows[i]| && rows[i][c].Str?
                && idx < |table.value| && table.value[idx] == EscapeXml(rows[i][c].s)
  {
    hide IsTemplate, Risky, ReadTable, Written, Head, Tail, SheetTexts, AddAll, Columns, CellOk, EscapeXml;
    hide Table;
    var texts := SheetTexts(template, rows);
    var interned := AddAll([], texts);
    WrittenTable(base, ss, texts);
    if |sheet| == |rows| && SheetOk(sheet, template, rows, |base|, interned) && forall t :: t in texts ==> !Risky(t) {
      var table := Table(base, texts);
      forall i, c | 0 <= i < |sheet| && 0 <= c < |sheet[i]| ensures CellResolves(sheet[i][c], rows[i], c, table) {
        assert RowOk(sheet[i], template, rows[i], i + 2, |base|, interned);
        CellIsResolved(base, texts, sheet[i][c], Columns(template, rows[i]), rows[i], c, i + 2);
      }
    }
  }

  // ---- failing texts ----

  lemma OneItem(t: string)
    ensures EscapeAll(AddAll([], [t])) == [EscapeXml(t)]
    ensures Items([EscapeXml(t)]) == Si(EscapeXml(t))
  {
    hide EscapeXml, Si;
    assert [t][..0] == [];
    assert [EscapeXml(t)][1..] == [];
    assert EscapeAll([t]) == [EscapeXml(t)];
    assert Si(EscapeXml(t)) + "" == Si(EscapeXml(t));
  }

  lemma EscapeTwo(a: char, b: char)
    ensures EscapeXml([a, b]) == EscapeChar(a) + EscapeChar(b)
  {
    assert [a, b] == [a] + [b];
    EscapeConcat([a], [b]);
    EscapeOneChar(a);
    EscapeOneChar(b);
  }

  /** A pattern behind an opening tag, followed by plain text. */
  lemma OnePattern(pattern: string, put: string, rest: string, head: string, tail: string)
    requires '$' !in rest && |pattern| == 2 && pattern[0] == '$'
    requires (pattern[1] == '$' && put == "$") || (pattern[1] == '&' && put == End())
    ensures Substitute(Open() + (pattern + rest), End(), head, tail) == Open() + (put + rest)
  {
    hide End, Open;
    Tags();
    NoDollar(Open(), SPECIAL);
    SubstituteSkips(Open(), pattern + rest, End(), head, tail);
    NoDollar(rest, SPECIAL);
    SubstituteNothing(rest, End(), head, tail);
    assert (pattern + rest)[2..] == rest;
  }

  /** The text "$$" is stored as a single dollar. */
  lemma DollarLost(base: seq<string>, ss: string)
    requires IsTemplate(ss)
    ensures ReadTable(base, Head(ss), Tail(ss), Written(ss, AddAll([], ["$$"]))) == Some(base + ["$"])
  {
    hide IsTemplate, End, Open, Close, Substitute, ReadItems, ReadTable, Written, Head, Tail, EscapeXml;
    Tags();
    var head, tail := Head(ss), Tail(ss);
    EscapeTwo('$', '$');
    OneItem("$$");
    WrittenIs(ss, AddAll([], ["$$"]));
    var rest := Close() + End();
    OnePattern("$$", "$", rest, head, tail);
    assert EscapeXml("$$") == "$$" by { assert ['$', '$'] == "$$" && EscapeChar('$') + EscapeChar('$') == "$$"; }
    assert Open() + ("$$" + rest) == Si("$$") + End();
    var put := Open() + ("$" + rest);
    ReadBehind(base, head, put + tail, tail);
    assert ["$"][1..] == [];
    assert put + tail == Items(["$"]) + (End() + tail);
    ReadComplete(["$"], tail);
  }

  /** The text "$<" is escaped to a pattern that closes the table: no reader finds one any more. */
  lemma TableCutShort(base: seq<string>, ss: string)
    requires IsTemplate(ss)
    ensures ReadTable(base, Head(ss), Tail(ss), Written(ss, AddAll([], ["$<"]))).None?
  {
    hide IsTemplate, End, Open, Close, Substitute, ReadItems, ReadTable, Written, Head, Tail, EscapeXml;
    Tags();
    var head, tail := Head(ss), Tail(ss);
    EscapeTwo('$', '<');
    OneItem("$<");
    WrittenIs(ss, AddAll([], ["$<"]));
    var rest := "lt;" + (Close() + End());
    OnePattern("$&", End(), rest, head, tail);
    assert EscapeXml("$<") == "$&lt;" by { assert ['$', '<'] == "$<" && EscapeChar('$') + EscapeChar('<') == "$&lt;"; }
    assert "$&lt;" == "$&" + "lt;";
    assert Open() + ("$&" + rest) == Si("$&lt;") + End();
    ReadBehind(base, head, Open() + (End() + rest) + tail, tail);
    assert Open() + (End() + rest) + tail == Open() + (End() + (rest + tail));
    EntryClosesTable(rest + tail);
  }

  lemma EntryClosesTable(rest: string)
    ensures ReadItems(Open() + (End() + rest)).None?
  {
    hide End, Open, Close;
    Tags();
    var s := Open() + (End() + rest);
    assert s[1] == Open()[1] && s[|Open()|..] == End() + rest;
    assert (End() + rest)[0] == End()[0] && (End() + rest)[2] == End()[2];
  }

  // ---- the whole export ----

  /**
    `buildSpxFile`: two fills, the chosen sheet with the rows and the other with none, then the
    counts and the table. `ss` is the template's table XML, its two counts already rewritten.
  */
  method BuildSheets(ss: string, count: nat, unique: nat, template: seq<Column>, other: seq<Column>,
                     rows: seq<seq<Value>>)
    returns (sheet: seq<seq<Cell>>, cleared: seq<seq<Cell>>, newCount: nat, newUnique: nat, xml: string)
    ensures var texts := SheetTexts(template, rows);
            && newCount == count + |texts|
            && newUnique == unique + |SetOf(texts)|
            && |sheet| == |rows| && cleared == []
            && SheetOk(sheet, template, rows, unique, AddAll([], texts))
            && xml == Written(ss, AddAll([], texts))
  {
    hide SheetOk, Replace, End, Open, Close;
    var strings := new SharedStrings(count, unique);
    sheet := FillSheet(strings, template, rows);
    ghost var texts := SheetTexts(template, rows);
    cleared := FillSheet(strings, other, []);
    AddedAreDistinct(texts);
    newCount, newUnique := strings.Counts();
    xml := ss;
    if |strings.addedSi| > 0 {
      xml := Replace(ss, End(), Items(strings.addedSi) + End());
    }
  }
}
