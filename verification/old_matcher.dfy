/**
  `createOldMatcher` as the object it returns: the maps and key lists are filled step by step, and
  every method is proved to compute the function of `OldMatch.Catalogue` it stands for.
*/
module OldMatcherObject {
  import opened Text
  import opened Phrase
  import opened OldMatch

  /** `m.get(k) ?? []`. */
  function ListOf(m: map<string, seq<string>>, k: string): seq<string> {
    if k in m then m[k] else []
  }

  method GroupCities(cities: seq<CityRow>) returns (m: map<string, seq<string>>)
    ensures forall s :: ListOf(m, s) == CitiesOf(cities, s)
  {
    m := map[];
    for i := 0 to |cities|
      invariant forall s :: ListOf(m, s) == CitiesOf(cities[..i], s)
    {
      var row := cities[i];
      assert cities[..i + 1][..i] == cities[..i];
      m := m[row.state := ListOf(m, row.state) + [row.city]];
    }
    assert cities[..|cities|] == cities;
  }

  method GroupWards(wards: seq<WardRow>) returns (m: map<string, seq<string>>)
    ensures forall s :: ListOf(m, s) == WardsOf(wards, s)
  {
    m := map[];
    for i := 0 to |wards|
      invariant forall s :: ListOf(m, s) == WardsOf(wards[..i], s)
    {
      var row := wards[i];
      assert wards[..i + 1][..i] == wards[..i];
      m := m[row.city := ListOf(m, row.city) + [row.ward]];
    }
    assert wards[..|wards|] == wards;
  }

  function Get(m: map<string, string>, k: string): Option<string> {
    if k in m then Some(m[k]) else None
  }

  method IndexStates(c: Catalogue) returns (m: map<string, string>)
    ensures forall t :: Get(m, t) == c.StateByStripped(c.states, t)
  {
    m := map[];
    for i := 0 to |c.states|
      invariant forall t :: Get(m, t) == c.StateByStripped(c.states[..i], t)
    {
      assert c.states[..i + 1][..i] == c.states[..i];
      m := m[c.StripState(c.states[i]) := c.states[i]];
    }
    assert c.states[..|c.states|] == c.states;
  }

  /** `alias` as its entries in insertion order (the alias names are pairwise different). */
  method CollectAliases(c: Catalogue, aliases: seq<(string, string)>, stateByStripped: map<string, string>)
    returns (keys: seq<Key>)
    requires forall t :: Get(stateByStripped, t) == c.StateByStripped(c.states, t)
    ensures keys == c.AliasKeys(aliases)
  {
    var alias: seq<(string, string)> := [];
    keys := [];
    for i := 0 to |aliases|
      invariant |alias| == |c.AliasKeys(aliases[..i])|
      invariant forall j :: 0 <= j < |alias| ==>
                  c.AliasKeys(aliases[..i])[j] == Key(alias[j].0, alias[j].1, |alias[j].0|)
    {
      assert aliases[..i + 1][..i] == aliases[..i];
      var st := Get(stateByStripped, aliases[i].1);
      if st.Some? && st.value != "" {
        alias := alias + [(aliases[i].0, st.value)];
      }
    }
    assert aliases[..|aliases|] == aliases;
    for j := 0 to |alias|
      invariant keys == c.AliasKeys(aliases)[..j]
    {
      keys := keys + [Key(alias[j].0, alias[j].1, |alias[j].0|)];
    }
  }

  method PushNames(c: Catalogue) returns (keys: seq<Key>)
    ensures keys == c.StateNameKeys(c.states)
  {
    keys := [];
    for i := 0 to |c.states|
      invariant keys == c.StateNameKeys(c.states[..i])
    {
      assert c.states[..i + 1][..i] == c.states[..i];
      ghost var before := keys;
      var s := c.states[i];
      var st := c.StripState(s);
      keys := keys + [Key(c.N(s), s, |c.N(s)|)];
      if st != "" && st != c.N(s) {
        keys := keys + [Key(st, s, |st|)];
      }
      assert keys == before + NameKeys(c.N(s), st, s, 0);
    }
    assert c.states[..|c.states|] == c.states;
  }

  method BuildStateKeys(c: Catalogue) returns (keys: seq<Key>)
    ensures keys == SortByLen(c.StateKeys())
  {
    var stateByStripped := IndexStates(c);
    var names := PushNames(c);
    var aliases := CollectAliases(c, ALIASES, stateByStripped);
    keys := SortByLen(names + aliases);
  }

  class OldMatcher {
    const cat: Catalogue
    const citiesByState: map<string, seq<string>>
    const wardsByCity: map<string, seq<string>>
    const stateKeys: seq<Key>

    ghost predicate Valid() {
      && (forall s :: ListOf(citiesByState, s) == CitiesOf(cat.cities, s))
      && (forall s :: ListOf(wardsByCity, s) == WardsOf(cat.wards, s))
      && stateKeys == SortByLen(cat.StateKeys())
    }

    constructor (cat: Catalogue)
      ensures Valid() && this.cat == cat
    {
      var byState := GroupCities(cat.cities);
      var byCity := GroupWards(cat.wards);
      var keys := BuildStateKeys(cat);
      this.cat := cat;
      citiesByState := byState;
      wardsByCity := byCity;
      stateKeys := keys;
    }

    method MatchState(hay: string) returns (r: string)
      requires Valid()
      ensures r == cat.MatchState(hay)
    {
      r := BestPhrase(hay, stateKeys);
    }

    /** The pushes of one city: its name keys, then "q 5" and "q5" for a numbered quan. */
    method PushCityKeys(before: seq<Key>, c: string) returns (keys: seq<Key>)
      ensures keys == before + (NameKeys(cat.N(c), cat.StripCity(c), c, 2) + QuanKeys(cat.N(c), c))
    {
      var n, sc := cat.N(c), cat.StripCity(c);
      keys := before + [Key(n, c, |n|)];
      if sc != "" && sc != n && |sc| >= 2 {
        keys := keys + [Key(sc, c, |sc|)];
      }
      assert keys == before + NameKeys(n, sc, c, 2);
      var qm := QuanNumber(n);
      if qm.Some? {
        keys := keys + [Key("q " + qm.value, c, 3)];
        keys := keys + [Key("q" + qm.value, c, 2)];
        assert keys == before + NameKeys(n, sc, c, 2) + QuanKeys(n, c);
      }
    }

    method CityKeys(state: string) returns (keys: seq<Key>)
      requires Valid()
      ensures keys == SortByLen(cat.CityKeys(CitiesOf(cat.cities, state)))
    {
      hide Catalogue.N, Catalogue.StripCity, SortByLen, QuanKeys, NameKeys;
      var list := ListOf(citiesByState, state);
      keys := [];
      for i := 0 to |list|
        invariant keys == cat.CityKeys(list[..i])
      {
        assert list[..i + 1][..i] == list[..i];
        keys := PushCityKeys(keys, list[i]);
      }
      assert list[..|list|] == list;
      keys := SortByLen(keys);
    }

    method MatchCity(hay: string, state: string) returns (r: string)
      requires Valid()
      ensures r == cat.MatchCity(hay, state)
    {
      var keys := CityKeys(state);
      r := BestPhrase(hay, keys);
    }

    method WardKeys(city: string) returns (keys: seq<Key>)
      requires Valid()
      ensures keys == SortByLen(cat.WardKeys(WardsOf(cat.wards, city)))
    {
      hide Catalogue.N, Catalogue.StripWard, SortByLen;
      var list := ListOf(wardsByCity, city);
      keys := [];
      for i := 0 to |list|
        invariant keys == cat.WardKeys(list[..i])
      {
        assert list[..i + 1][..i] == list[..i];
        ghost var before := keys;
        var w := list[i];
        var n, sw := cat.N(w), cat.StripWard(w);
        keys := keys + [Key(n, w, |n|)];
        if sw != "" && |sw| >= 4 && sw != n {
          keys := keys + [Key(sw, w, |sw|)];
        }
        assert keys == before + NameKeys(n, sw, w, 4);
      }
      assert list[..|list|] == list;
      keys := SortByLen(keys);
    }

    method MatchWard(hay: string, city: string) returns (r: string)
      requires Valid()
      ensures r == cat.MatchWard(hay, city)
    {
      var keys := WardKeys(city);
      r := BestPhrase(hay, keys);
    }

    method Resolve(address: string) returns (r: Addr)
      requires Valid()
      ensures r == cat.Resolve(address)
    {
      var hay := cat.N(address);
      if hay == "" { return Addr("", "", ""); }
      var city, ward := "", "";
      var state := MatchState(hay);
      if state != "" { city := MatchCity(hay, state); }
      if city != "" { ward := MatchWard(hay, city); }
      r := Addr(state, city, ward);
    }

    method SnapState(v: string) returns (r: string)
      requires Valid()
      ensures r == cat.SnapState(v)
    {
      if cat.N(v) == "" { return ""; }
      var exact := cat.Find(cat.states, STATE_PREFIXES, v);
      if exact.Some? { r := exact.value; } else { r := MatchState(cat.N(v)); }
    }

    method SnapCity(v: string, state: string) returns (r: string)
      requires Valid()
      ensures r == cat.SnapCity(v, state)
    {
      if v == "" || state == "" { return ""; }
      var exact := cat.Find(ListOf(citiesByState, state), CITY_PREFIXES, v);
      if exact.Some? { r := exact.value; } else { r := MatchCity(cat.N(v), state); }
    }

    method SnapWard(v: string, city: string) returns (r: string)
      requires Valid()
      ensures r == cat.SnapWard(v, city)
    {
      if v == "" || city == "" { return ""; }
      var exact := cat.Find(ListOf(wardsByCity, city), WARD_PREFIXES, v);
      if exact.Some? { r := exact.value; } else { r := MatchWard(cat.N(v), city); }
    }

    method Snap(ai: Addr, fallback: string) returns (r: Addr)
      requires Valid()
      ensures r == cat.Snap(ai, fallback)
    {
      var city, ward := "", "";
      var state := SnapState(ai.state);
      if state == "" && fallback != "" { state := MatchState(cat.N(fallback)); }
      if state != "" {
        city := SnapCity(ai.city, state);
        if city == "" && fallback != "" { city := MatchCity(cat.N(fallback), state); }
      }
      if city != "" {
        ward := SnapWard(ai.ward, city);
        if ward == "" && fallback != "" { ward := MatchWard(cat.N(fallback), city); }
      }
      r := Addr(state, city, ward);
    }
  }
}
