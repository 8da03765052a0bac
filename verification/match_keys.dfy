/**
  The key lists of both address matchers, name by name, and the prefixes their names lose.

  A list of keys belongs to a list of names as a whole: the keys of two lists one after the other
  are those of the first and then those of the second. With the keys of a single name that settles
  every list, its order included.
*/
module MatchKeys {
  import opened Text
  import opened Phrase
  import opened OldMatch
  import New = NewMatch

  // ---- lists one after the other ----

  lemma {:induction false} NameKeysConcat(c: Catalogue, a: seq<string>, b: seq<string>)
    ensures c.StateNameKeys(a + b) == c.StateNameKeys(a) + c.StateNameKeys(b)
    ensures c.CityKeys(a + b) == c.CityKeys(a) + c.CityKeys(b)
    ensures c.WardKeys(a + b) == c.WardKeys(a) + c.WardKeys(b)
  {
    hide NameKeys, QuanKeys, Catalogue.N, Catalogue.StripName;
    if b == [] {
      assert a + b == a;
    } else {
      assert (a + b)[..|a + b| - 1] == a + b[..|b| - 1];
      NameKeysConcat(c, a, b[..|b| - 1]);
    }
  }

  lemma {:induction false} AliasKeysConcat(c: Catalogue, a: seq<(string, string)>, b: seq<(string, string)>)
    ensures c.AliasKeys(a + b) == c.AliasKeys(a) + c.AliasKeys(b)
  {
    if b == [] {
      assert a + b == a;
    } else {
      assert (a + b)[..|a + b| - 1] == a + b[..|b| - 1];
      AliasKeysConcat(c, a, b[..|b| - 1]);
    }
  }

  lemma {:induction false} HintKeysConcat(c: New.Catalogue2, a: seq<(string, string)>, b: seq<(string, string)>)
    ensures c.HintKeys(a + b) == c.HintKeys(a) + c.HintKeys(b)
  {
    if b == [] {
      assert a + b == a;
    } else {
      assert (a + b)[..|a + b| - 1] == a + b[..|b| - 1];
      HintKeysConcat(c, a, b[..|b| - 1]);
    }
  }

  lemma {:induction false} WeakKeysConcat(c: New.Catalogue2, a: seq<string>, b: seq<string>)
    ensures c.WeakKeys(a + b) == c.WeakKeys(a) + c.WeakKeys(b)
  {
    hide Norm, Strip;
    if b == [] {
      assert a + b == a;
    } else {
      assert (a + b)[..|a + b| - 1] == a + b[..|b| - 1];
      WeakKeysConcat(c, a, b[..|b| - 1]);
    }
  }

  lemma StrongKeysConcat(c: New.Catalogue2, a: seq<string>, b: seq<string>)
    ensures c.StrongKeys(a + b) == c.StrongKeys(a) + c.StrongKeys(b)
  {
    hide Norm;
  }

  // ---- one name ----

  /** The stripped form is a key of its own when it is new and has at least `least` characters. */
  function Stripped(full: string, stripped: string, val: string, least: nat): seq<Key> {
    if stripped == full || |stripped| < least then [] else [Key(stripped, val, |stripped|)]
  }

  /** A state: its full form, and its stripped form whatever its length. */
  lemma StateKeysOfOne(c: Catalogue, x: string)
    ensures c.StateNameKeys([x]) ==
            [Key(c.N(x), x, |c.N(x)|)] + Stripped(c.N(x), Strip(c.N(x), STATE_PREFIXES), x, 1)
  {
    hide Norm, Strip;
    assert [x][..0] == [];
  }

  /** A ward: its full form, and its stripped form from four characters on. */
  lemma WardKeysOfOne(c: Catalogue, x: string)
    ensures c.WardKeys([x]) == [Key(c.N(x), x, |c.N(x)|)] + Stripped(c.N(x), Strip(c.N(x), WARD_PREFIXES), x, 4)
  {
    hide Norm, Strip;
    assert [x][..0] == [];
  }

  /** A city: its full form, its stripped form from two characters on, and for quan d the short forms. */
  lemma CityKeysOfOne(c: Catalogue, x: string)
    ensures c.CityKeys([x]) ==
            [Key(c.N(x), x, |c.N(x)|)] + Stripped(c.N(x), Strip(c.N(x), CITY_PREFIXES), x, 2) + QuanKeys(c.N(x), x)
  {
    hide Norm, Strip, QuanKeys;
    assert [x][..0] == [];
  }

  predicate Digits(d: string) { d != "" && forall i :: 0 <= i < |d| ==> d[i] in "0123456789" }

  /** The short forms of a numbered quan, ranked below every name of four characters; no other name has any. */
  lemma ShortForms(full: string, val: string, d: string)
    ensures full == "quan " + d && Digits(d) ==> QuanKeys(full, val) == [Key("q " + d, val, 3), Key("q" + d, val, 2)]
    ensures QuanKeys(full, val) != [] ==> "quan " <= full && Digits(full[5..])
  {
    forall c: char ensures '0' <= c <= '9' <==> c in "0123456789" {
      DigitCharacters(c);
    }
    if full == "quan " + d {
      assert full[5..] == d;
    }
    if QuanKeys(full, val) != [] {
      assert forall i :: 0 <= i < |full[5..]| ==> full[5..][i] == full[i + 5];
    }
  }

  lemma DigitCharacters(c: char)
    ensures '0' <= c <= '9' <==> c in "0123456789"
  {
    var s := "0123456789";
    assert s[0] == '0' && s[1] == '1' && s[2] == '2' && s[3] == '3' && s[4] == '4';
    assert s[5] == '5' && s[6] == '6' && s[7] == '7' && s[8] == '8' && s[9] == '9';
  }

  /** A bare ward name of the two-level matcher: the stripped form from four characters on. */
  lemma WeakKeysOfOne(c: New.Catalogue2, x: string)
    ensures c.WeakKeys([x]) == Stripped(c.N(x), Strip(c.N(x), WARD_PREFIXES), x, 4)
    ensures c.StrongKeys([x]) == [Key(c.N(x), x, |c.N(x)|)]
  {
    hide Norm, Strip;
    assert [x][..0] == [];
  }

  /** The last state of the list whose stripped name is `target`. */
  predicate LastNamed(c: Catalogue, target: string, i: nat) {
    i < |c.states| && Strip(c.N(c.states[i]), STATE_PREFIXES) == target
    && forall j :: i < j < |c.states| ==> Strip(c.N(c.states[j]), STATE_PREFIXES) != target
  }

  lemma {:induction false} LastIsFound(c: Catalogue, target: string, n: nat)
    requires n <= |c.states|
    ensures match c.StateByStripped(c.states[..n], target)
            case None => forall j :: 0 <= j < n ==> Strip(c.N(c.states[j]), STATE_PREFIXES) != target
            case Some(s) =>
              exists i :: 0 <= i < n && c.states[i] == s && Strip(c.N(s), STATE_PREFIXES) == target
                          && forall j :: i < j < n ==> Strip(c.N(c.states[j]), STATE_PREFIXES) != target
  {
    hide Norm, Strip;
    if n > 0 {
      assert c.states[..n][..n - 1] == c.states[..n - 1];
      LastIsFound(c, target, n - 1);
    }
  }

  /**
    An alias, and an old district: a key for the last state of that name if there is one, with its own
    length or with 1.
  */
  lemma AliasOfOne(c: Catalogue, a: string, target: string, i: nat)
    requires LastNamed(c, target, i) && c.states[i] != ""
    ensures c.AliasKeys([(a, target)]) == [Key(a, c.states[i], |a|)]
  {
    hide Norm, Strip;
    LastIsFound(c, target, |c.states|);
    assert c.states[..|c.states|] == c.states;
    assert [(a, target)][..0] == [];
  }

  lemma HintOfOne(c: New.Catalogue2, a: string, target: string, i: nat)
    requires LastNamed(c.Names(), target, i) && c.states[i] != ""
    ensures c.HintKeys([(a, target)]) == [Key(a, c.states[i], 1)]
  {
    hide Norm, Strip;
    LastIsFound(c.Names(), target, |c.states|);
    assert c.states[..|c.states|] == c.states;
    assert [(a, target)][..0] == [];
  }

  // ---- prefixes ----

  lemma NotPrefix(q: string, n: string, k: nat)
    requires k < |q| && k < |n| && q[k] != n[k]
    ensures !(q + " " <= n)
  {
    assert (q + " ")[k] == q[k];
  }

  lemma {:induction false} StripsAt(p: string, w: string, prefixes: seq<string>, i: nat)
    requires w != "" && w[0] != ' ' && i < |prefixes| && prefixes[i] == p
    requires forall j :: 0 <= j < i ==> !(prefixes[j] + " " <= p + " " + w)
    ensures Strip(p + " " + w, prefixes) == w
  {
    if i == 0 {
      var n := p + " " + w;
      assert n[..|p| + 1] == p + " ";
      assert n[|p|..] == " " + w;
      TrimLeftFixes(w);
    } else {
      StripsAt(p, w, prefixes[1..], i - 1);
    }
  }

  predicate StatePrefix(p: string) { p == "tp" || p == "thanh pho" || p == "tinh" }

  predicate CityPrefix(p: string) {
    p == "quan" || p == "huyen" || p == "thanh pho" || p == "thi xa" || p == "tp" || p == "tx"
  }

  predicate WardPrefix(p: string) {
    p == "phuong" || p == "xa" || p == "thi tran" || p == "dac khu" || p == "p" || p == "f" || p == "tt"
  }

  /** A name loses each of these prefixes when a word follows it. */
  lemma PrefixStripped(p: string, w: string)
    requires w != "" && w[0] != ' '
    ensures StatePrefix(p) ==> Strip(p + " " + w, STATE_PREFIXES) == w
    ensures CityPrefix(p) ==> Strip(p + " " + w, CITY_PREFIXES) == w
    ensures WardPrefix(p) ==> Strip(p + " " + w, WARD_PREFIXES) == w
  {
    if StatePrefix(p) { StatePrefixStripped(p, w); }
    if CityPrefix(p) { CityPrefixStripped(p, w); }
    if WardPrefix(p) { WardPrefixStripped(p, w); }
  }

  lemma StatePrefixStripped(p: string, w: string)
    requires w != "" && w[0] != ' ' && StatePrefix(p)
    ensures Strip(p + " " + w, STATE_PREFIXES) == w
  {
    hide Strip;
    var n := p + " " + w;
    assert n[0] == p[0] && n[1] == p[1];
    if p == "tp" {
      StripsAt(p, w, STATE_PREFIXES, 0);
    } else {
      NotPrefix("tp", n, 1);
      if p == "tinh" { NotPrefix("thanh pho", n, 1); }
      StripsAt(p, w, STATE_PREFIXES, if p == "tinh" then 2 else 1);
    }
  }

  lemma CityPrefixStripped(p: string, w: string)
    requires w != "" && w[0] != ' ' && CityPrefix(p)
    ensures Strip(p + " " + w, CITY_PREFIXES) == w
  {
    hide Strip;
    var n := p + " " + w;
    assert n[0] == p[0];
    if p == "quan" {
      StripsAt(p, w, CITY_PREFIXES, 0);
    } else {
      NotPrefix("quan", n, 0);
      if p == "huyen" {
        StripsAt(p, w, CITY_PREFIXES, 1);
      } else {
        NotPrefix("huyen", n, 0);
        TownPrefixStripped(p, w);
      }
    }
  }

  lemma TownPrefixStripped(p: string, w: string)
    requires w != "" && w[0] != ' ' && (p == "thanh pho" || p == "thi xa" || p == "tp" || p == "tx")
    requires !("quan" + " " <= p + " " + w) && !("huyen" + " " <= p + " " + w)
    ensures Strip(p + " " + w, CITY_PREFIXES) == w
  {
    hide Strip;
    if p == "thanh pho" {
      StripsAt(p, w, CITY_PREFIXES, 2);
    } else if p == "thi xa" {
      TownStripped(w);
    } else {
      NotLongTownPrefix(p, w);
      ShortTownPrefix(p, w);
    }
  }

  lemma TownStripped(w: string)
    requires w != "" && w[0] != ' ' && !("quan" + " " <= "thi xa" + " " + w) && !("huyen" + " " <= "thi xa" + " " + w)
    ensures Strip("thi xa" + " " + w, CITY_PREFIXES) == w
  {
    hide Strip;
    var n := "thi xa" + " " + w;
    assert n[2] == "thi xa"[2];
    NotPrefix("thanh pho", n, 2);
    StripsAt("thi xa", w, CITY_PREFIXES, 3);
  }

  lemma NotLongTownPrefix(p: string, w: string)
    requires p == "tp" || p == "tx"
    ensures forall j :: 0 <= j < 4 ==> !(CITY_PREFIXES[j] + " " <= p + " " + w)
  {
    var n := p + " " + w;
    assert n[0] == p[0] && n[1] == p[1];
    NotPrefix("quan", n, 0);
    NotPrefix("huyen", n, 0);
    NotPrefix("thanh pho", n, 1);
    NotPrefix("thi xa", n, 1);
  }

  lemma ShortTownPrefix(p: string, w: string)
    requires w != "" && w[0] != ' ' && (p == "tp" || p == "tx")
    requires forall j :: 0 <= j < 4 ==> !(CITY_PREFIXES[j] + " " <= p + " " + w)
    ensures Strip(p + " " + w, CITY_PREFIXES) == w
  {
    hide Strip;
    var n := p + " " + w;
    if p == "tx" {
      assert n[1] == p[1];
      NotPrefix("tp", n, 1);
      StripsAt(p, w, CITY_PREFIXES, 5);
    } else {
      StripsAt(p, w, CITY_PREFIXES, 4);
    }
  }

  lemma WardPrefixStripped(p: string, w: string)
    requires w != "" && w[0] != ' ' && WardPrefix(p)
    ensures Strip(p + " " + w, WARD_PREFIXES) == w
  {
    hide Strip;
    if p == "p" || p == "f" || p == "tt" {
      NotLongWardPrefix(p, w);
      ShortWardPrefix(p, w);
    } else {
      LongWardPrefix(p, w);
    }
  }

  lemma LongWardPrefix(p: string, w: string)
    requires w != "" && w[0] != ' ' && (p == "phuong" || p == "xa" || p == "thi tran" || p == "dac khu")
    ensures Strip(p + " " + w, WARD_PREFIXES) == w
  {
    hide Strip;
    var n := p + " " + w;
    assert n[0] == p[0];
    if p != "phuong" {
      NotPrefix("phuong", n, 0);
      if p != "xa" {
        NotPrefix("xa", n, 0);
        if p != "thi tran" { NotPrefix("thi tran", n, 0); }
      }
    }
    StripsAt(p, w, WARD_PREFIXES,
             if p == "phuong" then 0 else if p == "xa" then 1 else if p == "thi tran" then 2 else 3);
  }

  lemma NotLongWardPrefix(p: string, w: string)
    requires p == "p" || p == "f" || p == "tt"
    ensures forall j :: 0 <= j < 4 ==> !(WARD_PREFIXES[j] + " " <= p + " " + w)
  {
    var n := p + " " + w;
    assert n[0] == p[0] && n[1] == (p + " ")[1];
    NotPrefix("phuong", n, if p == "p" then 1 else 0);
    NotPrefix("xa", n, 0);
    NotPrefix("thi tran", n, if p == "tt" then 1 else 0);
    NotPrefix("dac khu", n, 0);
  }

  lemma ShortWardPrefix(p: string, w: string)
    requires w != "" && w[0] != ' ' && (p == "p" || p == "f" || p == "tt")
    requires forall j :: 0 <= j < 4 ==> !(WARD_PREFIXES[j] + " " <= p + " " + w)
    ensures Strip(p + " " + w, WARD_PREFIXES) == w
  {
    hide Strip;
    var n := p + " " + w;
    if p == "p" {
      StripsAt(p, w, WARD_PREFIXES, 4);
    } else if p == "f" {
      NotPrefix("p", n, 0);
      StripsAt(p, w, WARD_PREFIXES, 5);
    } else {
      assert n[0] == p[0];
      NotPrefix("p", n, 0);
      NotPrefix("f", n, 0);
      StripsAt(p, w, WARD_PREFIXES, 6);
    }
  }

  /** ... and no others: a name that starts with none of them stays as it is. */
  lemma NothingStripped(n: string)
    ensures (forall p :: StatePrefix(p) ==> !(p + " " <= n)) ==> Strip(n, STATE_PREFIXES) == n
    ensures (forall p :: CityPrefix(p) ==> !(p + " " <= n)) ==> Strip(n, CITY_PREFIXES) == n
    ensures (forall p :: WardPrefix(p) ==> !(p + " " <= n)) ==> Strip(n, WARD_PREFIXES) == n
  {
    if forall p :: StatePrefix(p) ==> !(p + " " <= n) { NoneStripped(n, STATE_PREFIXES); }
    if forall p :: CityPrefix(p) ==> !(p + " " <= n) { NoneStripped(n, CITY_PREFIXES); }
    if forall p :: WardPrefix(p) ==> !(p + " " <= n) { NoneStripped(n, WARD_PREFIXES); }
  }

  lemma {:induction false} NoneStripped(n: string, prefixes: seq<string>)
    requires forall i :: 0 <= i < |prefixes| ==> !(prefixes[i] + " " <= n)
    ensures Strip(n, prefixes) == n
  {
    if prefixes != [] {
      NoneStripped(n, prefixes[1..]);
    }
  }
}
