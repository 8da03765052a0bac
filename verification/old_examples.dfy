/**
  Two concrete catalogues that show why the address theorems need their conditions.
*/
module OldExamples {
  import opened Text
  import opened Phrase
  import opened OldMatch
  import opened OldService
  import opened AiReply

  function Plain(c: char): string { [c] }

  lemma WordIsNormal(w: string)
    requires Word(NotToken, w)
    ensures Normal(w) && Norm(Plain, w) == w && Tokens(NotToken, w) == [w]
  {
    assert w + "" == w;
    TokensOfWord(NotToken, w, "");
    assert [w] == [w] + [];
    NormFixesNormal(Plain, w);
  }

  lemma TwoWordsNormal(v: string, w: string)
    requires Word(NotToken, v) && Word(NotToken, w)
    ensures var s := v + " " + w; Normal(s) && Norm(Plain, s) == s
  {
    TokensOfJoin(NotToken, [v, w]);
    assert [v, w][1..] == [w];
    NormFixesNormal(Plain, v + " " + w);
  }

  lemma StripNext(s: string, prefixes: seq<string>, rest: seq<string>)
    requires prefixes != [] && rest == prefixes[1..]
    requires |prefixes[0]| > 1 && |s| > 1 && prefixes[0][1] != s[1]
    ensures Strip(s, prefixes) == Strip(s, rest)
  {
    var p := prefixes[0] + " ";
    assert p[1] == prefixes[0][1];
  }

  lemma StripHere(p: string, w: string, prefixes: seq<string>)
    requires prefixes != [] && prefixes[0] == p && w != "" && w[0] != ' '
    ensures Strip(p + " " + w, prefixes) == w
  {
    var s := p + " " + w;
    assert s[..|p| + 1] == p + " ";
    assert s[|p|..] == " " + w;
    TrimLeftFixes(w);
  }

  lemma StripNamed(p: string, w: string)
    requires p == "tp" || p == "tinh"
    requires Word(NotToken, w)
    ensures Norm(Plain, p + " " + w) == p + " " + w
    ensures Strip(p + " " + w, STATE_PREFIXES) == w
  {
    hide Norm, Strip;
    TwoWordsNormal(p, w);
    var s := p + " " + w;
    assert s[1] == p[1];
    if p == "tinh" {
      StripNext(s, STATE_PREFIXES, ["thanh pho", "tinh"]);
      StripNext(s, ["thanh pho", "tinh"], ["tinh"]);
      StripHere(p, w, ["tinh"]);
    } else {
      StripHere(p, w, STATE_PREFIXES);
    }
  }

  /** "tp w" and "tinh w" strip to the same name: the second state cannot be snapped to itself. */
  lemma ShadowedStateMoves(tp: string, tinh: string, w: string)
    requires tp == "tp" && tinh == "tinh" && Word(NotToken, w)
    ensures var c := Catalogue(Plain, [tp + " " + w, tinh + " " + w], [], []);
            var a := Addr(tinh + " " + w, "", "");
            Grounded(c, a) && c.Snap(a, "") == Addr(tp + " " + w, "", "") != a
  {
    var x, y := tp + " " + w, tinh + " " + w;
    var c := Catalogue(Plain, [x, y], [], []);
    StripNamed(tp, w);
    StripNamed(tinh, w);
    assert c.Find(c.states, STATE_PREFIXES, y) == Some(x);
    assert x[1] != y[1];
  }

  lemma {:induction false} NoAliases(c: Catalogue, aliases: seq<(string, string)>)
    requires forall i :: 0 <= i < |aliases| ==> c.StateByStripped(c.states, aliases[i].1).None?
    ensures c.AliasKeys(aliases) == []
  {
    if aliases != [] {
      NoAliases(c, aliases[..|aliases| - 1]);
    }
  }

  lemma {:induction false} LetterStrip(w: string, prefixes: seq<string>)
    requires |w| == 1 && forall i :: 0 <= i < |prefixes| ==> prefixes[i] != ""
    ensures Strip(w, prefixes) == w
  {
    if prefixes != [] {
      LetterStrip(w, prefixes[1..]);
    }
  }

  lemma CleanLetter(w: string)
    requires |w| == 1 && !IsWhitespace(w[0])
    ensures Clean(w) == w
  {
    assert w == [w[0]] && w[1..] == "";
    assert Squash(IsWhitespace, w) == w;
  }

  /** One-letter names. */
  predicate Letter(w: string) { |w| == 1 && 'a' <= w[0] <= 'z' }

  lemma LetterForms(c: Catalogue, w: string)
    requires Letter(w) && c.fold == Plain
    ensures c.N(w) == w && c.StripState(w) == w && c.StripCity(w) == w && Clean(w) == w
  {
    WordIsNormal(w);
    LetterStrip(w, STATE_PREFIXES);
    LetterStrip(w, CITY_PREFIXES);
    CleanLetter(w);
  }

  function Mixed(x: string, y: string, d: string): Catalogue { Catalogue(Plain, [x, y], [CityRow(y, d)], []) }

  lemma MixedStateKeys(x: string, y: string, d: string)
    requires Letter(x) && Letter(y)
    ensures Mixed(x, y, d).StateKeys() == [Key(x, x, 1), Key(y, y, 1)]
  {
    var c := Mixed(x, y, d);
    LetterForms(c, x);
    LetterForms(c, y);
    assert c.states[..1] == [x] && [x][..0] == [];
    assert c.StateNameKeys([x]) == [Key(x, x, 1)];
    assert c.StateNameKeys(c.states) == [Key(x, x, 1), Key(y, y, 1)];
    forall i | 0 <= i < |ALIASES| ensures c.StateByStripped(c.states, ALIASES[i].1).None? {
      var t := ALIASES[i].1;
      assert |t| > 1;
      assert c.StateByStripped([x], t).None?;
    }
    NoAliases(c, ALIASES);
  }

  lemma MixedResolve(x: string, y: string, d: string)
    requires Letter(x) && Letter(y) && x != y
    ensures Mixed(x, y, d).Resolve(x) == Addr(x, "", "")
  {
    var c := Mixed(x, y, d);
    var keys := c.StateKeys();
    MixedStateKeys(x, y, d);
    LetterForms(c, x);
    assert PhraseAt(x, x, 0);
    assert Wins(x, keys, 0);
    WinnerIsBestHit(x, keys, 0);
    BestHitSorted(x, keys);
    assert CitiesOf(c.cities, x) == [];
  }

  lemma MixedSnap(x: string, y: string, d: string)
    requires Letter(x) && Letter(y) && Letter(d) && x != y
    ensures Mixed(x, y, d).Snap(Addr(y, d, ""), x) == Addr(y, d, "")
  {
    var c := Mixed(x, y, d);
    LetterForms(c, x);
    LetterForms(c, y);
    LetterForms(c, d);
    assert CitiesOf(c.cities, y) == [d];
    assert c.Find(c.states, STATE_PREFIXES, y) == Some(y);
    assert WardsOf(c.wards, d) == [];
  }

  /** The only address of the list is the first question, and the reply's item 1 answers it. */
  lemma OnlyQuestion(c: Catalogue, x: string, a: Addr, fields: Addr)
    requires x != "" && Missing(a)
    ensures SnappedFor(c, [x], [a], Items([Item(Some(1.0), fields)]), 0) == Some(c.Snap(fields, x))
  {
    var flags := MissingFlags([a]);
    var item := Item(Some(1.0), fields);
    assert flags == [true] && flags[..0] == [];
    assert Select(flags) == [0];
    assert Rank(flags, 0) == 0;
    var miss := Select(flags);
    assert miss[0] == 0 && DecimalDigits(0 + 1) + 2 + |[x][miss[0]]| > 3;
    assert AnyLine([x], miss);
    assert SlotOf(item, 1) == At(0);
    assert AnswerFor([item], 1, 0) == Some(fields);
  }

  /**
    The tier-2 merge can mix parents: the rules found state `x`, the AI answers `y` / `d`, and the
    result pairs `x` with a city that is listed under `y` only.
  */
  lemma MixedParents(x: string, y: string, d: string)
    requires Letter(x) && Letter(y) && Letter(d) && x != y
    ensures var c := Mixed(x, y, d);
            var ai := Replies(Items([Item(Some(1.0), Addr(y, d, ""))]), Failed, Failed);
            RunResult(c, [x], true, ai) == [Addr(x, d, "")] && !c.Nested(Addr(x, d, ""))
  {
    var c := Mixed(x, y, d);
    var ai := Replies(Items([Item(Some(1.0), Addr(y, d, ""))]), Failed, Failed);
    LetterForms(c, x);
    MixedResolve(x, y, d);
    MixedSnap(x, y, d);
    assert CleanAll([x]) == [x] && ResolveAll(c, [x]) == [Addr(x, "", "")];
    OnlyQuestion(c, x, Addr(x, "", ""), Addr(y, d, ""));
    assert Extracted(c, [x], [Addr(x, "", "")], ai.extract) == [Addr(x, d, "")];
    assert CitiesOf(c.cities, x) == [];
  }
}
