/**
  A catalogue in which an old-district hint beats a province name.
*/
module NewExamples {
  import opened Text
  import opened Phrase
  import opened NewMatch
  import Old = OldMatch
  import OldExamples

  /** Two provinces, one of one letter. */
  function Provinces(e: string, hn: string): Catalogue2 { Catalogue2(OldExamples.Plain, [e, hn], []) }

  lemma {:induction false} NoPrefix(s: string, prefixes: seq<string>)
    requires s != "" && forall i :: 0 <= i < |prefixes| ==> prefixes[i] != "" && prefixes[i][0] != s[0]
    ensures Strip(s, prefixes) == s
  {
    if prefixes != [] {
      assert (prefixes[0] + " ")[0] == prefixes[0][0];
      NoPrefix(s, prefixes[1..]);
    }
  }

  lemma HaNoiForms(c: Old.Catalogue, ha: string, noi: string)
    requires ha == "ha" && noi == "noi" && c.fold == OldExamples.Plain
    ensures c.N(ha + " " + noi) == ha + " " + noi && c.StripState(ha + " " + noi) == ha + " " + noi
  {
    hide Norm;
    OldExamples.TwoWordsNormal(ha, noi);
    NoPrefix(ha + " " + noi, Old.STATE_PREFIXES);
  }

  lemma Forms(c: Catalogue2, e: string, hn: string)
    requires e == "e" && hn == "ha noi" && c == Provinces(e, hn)
    ensures c.N(e) == e && c.Names().StripState(e) == e && c.N(hn) == hn && c.Names().StripState(hn) == hn
  {
    OldExamples.LetterForms(c.Names(), e);
    HaNoiForms(c.Names(), "ha", "noi");
    assert "ha" + " " + "noi" == hn;
  }

  /** Which listed province strips to `t`. */
  lemma Target(c: Catalogue2, e: string, hn: string, t: string)
    requires e == "e" && hn == "ha noi" && c == Provinces(e, hn)
    ensures c.Names().StateByStripped(c.states, t) == if t == hn then Some(hn) else if t == e then Some(e) else None
  {
    hide Old.Catalogue.StripState;
    Forms(c, e, hn);
    var names := c.Names();
    assert c.states[..1] == [e] && [e][..0] == [];
    assert names.StateByStripped([], t) == None;
    assert names.StateByStripped([e], t) == if t == e then Some(e) else None;
    assert e != hn by { assert |e| != |hn|; }
  }

  /** Every alias key comes from an alias of a listed province. */
  lemma {:induction false} AliasKeyFrom(c: Old.Catalogue, aliases: seq<(string, string)>)
    ensures forall k :: k in c.AliasKeys(aliases) ==>
              exists i :: 0 <= i < |aliases| && k.key == aliases[i].0 && c.StateByStripped(c.states, aliases[i].1).Some?
  {
    if aliases != [] {
      AliasKeyFrom(c, aliases[..|aliases| - 1]);
    }
  }

  lemma {:induction false} HintKeyFrom(c: Catalogue2, hints: seq<(string, string)>)
    ensures forall k :: k in c.HintKeys(hints) ==>
              exists i :: 0 <= i < |hints| && Some(k.val) == c.Names().StateByStripped(c.states, hints[i].1)
  {
    if hints != [] {
      HintKeyFrom(c, hints[..|hints| - 1]);
    }
  }

  lemma {:induction false} HintListed(c: Catalogue2, hints: seq<(string, string)>, i: nat, v: string)
    requires i < |hints| && c.Names().StateByStripped(c.states, hints[i].1) == Some(v) && v != ""
    ensures Key(hints[i].0, v, 1) in c.HintKeys(hints)
  {
    if i < |hints| - 1 {
      HintListed(c, hints[..|hints| - 1], i, v);
    }
  }

  lemma StateKeysOf(c: Catalogue2, e: string, hn: string)
    requires e == "e" && hn == "ha noi" && c == Provinces(e, hn)
    ensures c.Names().StateNameKeys(c.states) == [Key(e, e, 1), Key(hn, hn, 6)]
  {
    hide Old.Catalogue.StripState, Norm;
    Forms(c, e, hn);
    var names := c.Names();
    assert c.states[..1] == [e] && [e][..0] == [];
    assert names.N(e) == e && names.N(hn) == hn;
    assert names.StateNameKeys([]) == [];
    assert Old.NameKeys(e, e, e, 0) == [Key(e, e, 1)] && Old.NameKeys(hn, hn, hn, 0) == [Key(hn, hn, 6)];
    assert names.StateNameKeys([e]) == [Key(e, e, 1)];
  }

  /** Among the names and aliases only "e" has no letter h. */
  lemma NameKeysOf(c: Catalogue2, e: string, hn: string)
    requires e == "e" && hn == "ha noi" && c == Provinces(e, hn)
    ensures Key(e, e, 1) in c.NameKeys()
    ensures forall k :: k in c.NameKeys() ==> k == Key(e, e, 1) || 'h' in k.key
  {
    hide Old.Catalogue.StripState, Old.Catalogue.N;
    StateKeysOf(c, e, hn);
    assert hn[0] == 'h';
    AliasKeyFrom(c.Names(), ALIASES);
    forall i | 0 <= i < |ALIASES| && c.Names().StateByStripped(c.states, ALIASES[i].1).Some?
      ensures 'h' in ALIASES[i].0
    {
      Target(c, e, hn, ALIASES[i].1);
      AliasOfHaNoi(i, e, hn);
    }
  }

  lemma AliasOfHaNoi(i: nat, e: string, hn: string)
    requires i < |ALIASES| && (ALIASES[i].1 == hn || ALIASES[i].1 == e) && e == "e" && hn == "ha noi"
    ensures 'h' in ALIASES[i].0
  {
    assert ALIASES[i].1[1] == hn[1] && |ALIASES[i].1| == 6;
    assert ALIASES[i].0[0] == 'h';
  }

  lemma HintTarget(i: nat)
    requires i < |OLD_DISTRICT_HINTS|
    ensures |OLD_DISTRICT_HINTS[i].1| > 1
  {
    if i < |HCM_HINTS| {
      assert |HCM_HINTS[i].1| > 1;
    } else {
      assert |HA_NOI_HINTS[i - |HCM_HINTS|].1| > 1;
    }
  }

  lemma HayOf(hay: string, e: string, hint: string)
    requires hay == "e ba vi" && e == "e" && hint == "ba vi"
    ensures ContainsPhrase(hay, e) && LastIndexOf(hay, e) == 0 && 'h' !in hay
    ensures ContainsPhrase(hay, hint) && LastIndexOf(hay, hint) >= 2
  {
    assert PhraseAt(hay, e, 0);
    assert hay[2..7] == hint;
    assert PhraseAt(hay, hint, 2);
    assert OccursAt(hay, hint, 2) && OccursAt(hay, e, 0);
    forall q | 0 < q <= |hay| ensures !OccursAt(hay, e, q) {
      if q < |hay| {
        assert hay[q] != 'e';
      }
    }
  }

  lemma PhraseLetters(hay: string, key: string)
    requires ContainsPhrase(hay, key)
    ensures forall c :: c in key ==> c in hay
  {
    var i :| 0 <= i <= |hay| && PhraseAt(hay, key, i);
    assert key == hay[i..i + |key|];
  }

  /** The text "e ba vi" names province "e", but the hint "ba vi" stands further right and sends it to "ha noi". */
  lemma HintBeatsName(e: string, hn: string, hay: string)
    requires e == "e" && hn == "ha noi" && hay == "e ba vi"
    ensures var c := Provinces(e, hn);
            Best(hay, c.NameKeys()) == e && c.MatchProvince(hay) == hn
  {
    hide Catalogue2.NameKeys, Catalogue2.HintKeys, BestHit, ContainsPhrase, LastIndexOf;
    var c := Provinces(e, hn);
    var names, hints := c.NameKeys(), c.HintKeys(OLD_DISTRICT_HINTS);
    var last := |OLD_DISTRICT_HINTS| - 2;
    HayOf(hay, e, "ba vi");
    NameKeysOf(c, e, hn);
    var v := BestHitIsWinner(hay, names);
    var n :| 0 <= n < |names| && names[n] == Key(e, e, 1);
    assert ContainsPhrase(hay, names[n].key);
    PhraseLetters(hay, names[v].key);
    assert names[v] == Key(e, e, 1);
    Target(c, e, hn, OLD_DISTRICT_HINTS[last].1);
    HintListed(c, OLD_DISTRICT_HINTS, last, hn);
    HintLens(c, OLD_DISTRICT_HINTS);
    var w := BestHitIsWinner(hay, hints);
    var h :| 0 <= h < |hints| && hints[h] == Key("ba vi", hn, 1);
    assert ContainsPhrase(hay, hints[h].key);
    assert hints[w].len == 1 && LastIndexOf(hay, hints[w].key) >= 2;
    NameAgainstHint(c, hay);
    HintKeyFrom(c, OLD_DISTRICT_HINTS);
    var i :| 0 <= i < |OLD_DISTRICT_HINTS| &&
             Some(hints[w].val) == c.Names().StateByStripped(c.states, OLD_DISTRICT_HINTS[i].1);
    Target(c, e, hn, OLD_DISTRICT_HINTS[i].1);
    HintTarget(i);
  }
}
