/**
  The three-level address matcher (Tinh -> Quan/Huyen -> Xa/Phuong), grounded in a catalogue.

  The functions of `Catalogue` say what the matcher computes; the class `OldMatcher` builds the
  maps and key lists and scans them step by step, and is proved against those functions. The
  lemmas after it state what every answer satisfies, for every text and every catalogue.
*/
module OldMatch {
  import opened Text
  import opened Phrase

  datatype Addr = Addr(state: string, city: string, ward: string)
  datatype CityRow = CityRow(state: string, city: string)
  datatype WardRow = WardRow(city: string, ward: string)

  const STATE_PREFIXES: seq<string> := ["tp", "thanh pho", "tinh"]
  const CITY_PREFIXES: seq<string> := ["quan", "huyen", "thanh pho", "thi xa", "tp", "tx"]
  const WARD_PREFIXES: seq<string> := ["phuong", "xa", "thi tran", "dac khu", "p", "f", "tt"]

  const ALIASES: seq<(string, string)> := [
    ("hcm", "ho chi minh"), ("tphcm", "ho chi minh"), ("tp hcm", "ho chi minh"),
    ("sai gon", "ho chi minh"), ("saigon", "ho chi minh"), ("sg", "ho chi minh"),
    ("hanoi", "ha noi"), ("hn", "ha noi"), ("danang", "da nang"), ("brvt", "ba ria vung tau")]

  function CitiesOf(cities: seq<CityRow>, state: string): seq<string> {
    if cities == [] then []
    else CitiesOf(cities[..|cities| - 1], state) +
         (if cities[|cities| - 1].state == state then [cities[|cities| - 1].city] else [])
  }

  function WardsOf(wards: seq<WardRow>, city: string): seq<string> {
    if wards == [] then []
    else WardsOf(wards[..|wards| - 1], city) +
         (if wards[|wards| - 1].city == city then [wards[|wards| - 1].ward] else [])
  }

  /** `n.match(/^quan (\d+)$/)`: the digits, if `n` is "quan" and a number. */
  function QuanNumber(n: string): Option<string> {
    if "quan " <= n && |n| > 5 && (forall i :: 5 <= i < |n| ==> '0' <= n[i] <= '9') then Some(n[5..]) else None
  }

  /** The keys of one name: its full form, then its stripped form when that is long enough and different. */
  function NameKeys(full: string, stripped: string, val: string, minLen: nat): seq<Key> {
    [Key(full, val, |full|)] +
    (if stripped != "" && |stripped| >= minLen && stripped != full then [Key(stripped, val, |stripped|)] else [])
  }

  function QuanKeys(full: string, val: string): seq<Key> {
    var q := QuanNumber(full);
    if q.Some? then [Key("q " + q.value, val, 3), Key("q" + q.value, val, 2)] else []
  }

  datatype Catalogue = Catalogue(fold: char -> string, states: seq<string>, cities: seq<CityRow>, wards: seq<WardRow>) {

    function N(s: string): string { Norm(fold, s) }
    function StripName(s: string, prefixes: seq<string>): string { Strip(N(s), prefixes) }
    function StripState(s: string): string { StripName(s, STATE_PREFIXES) }
    function StripCity(s: string): string { StripName(s, CITY_PREFIXES) }
    function StripWard(s: string): string { StripName(s, WARD_PREFIXES) }

    // ---- key lists, before sorting ----

    function StateNameKeys(list: seq<string>): seq<Key> {
      if list == [] then []
      else
        var s := list[|list| - 1];
        StateNameKeys(list[..|list| - 1]) + NameKeys(N(s), StripState(s), s, 0)
    }

    /** `stateByStripped.get(target)`: the last state in the list with that stripped name. */
    function StateByStripped(list: seq<string>, target: string): Option<string> {
      if list == [] then None
      else if StripState(list[|list| - 1]) == target then Some(list[|list| - 1])
      else StateByStripped(list[..|list| - 1], target)
    }

    function AliasKeys(aliases: seq<(string, string)>): seq<Key> {
      if aliases == [] then []
      else
        var (a, target) := aliases[|aliases| - 1];
        var st := StateByStripped(states, target);
        AliasKeys(aliases[..|aliases| - 1]) +
        (if st.Some? && st.value != "" then [Key(a, st.value, |a|)] else [])
    }

    function StateKeys(): seq<Key> { StateNameKeys(states) + AliasKeys(ALIASES) }

    function CityKeys(list: seq<string>): seq<Key> {
      if list == [] then []
      else
        var c := list[|list| - 1];
        CityKeys(list[..|list| - 1]) + (NameKeys(N(c), StripCity(c), c, 2) + QuanKeys(N(c), c))
    }

    function WardKeys(list: seq<string>): seq<Key> {
      if list == [] then []
      else
        var w := list[|list| - 1];
        WardKeys(list[..|list| - 1]) + NameKeys(N(w), StripWard(w), w, 4)
    }

    // ---- matching and snapping ----

    function MatchState(hay: string): string { Best(hay, SortByLen(StateKeys())) }
    function MatchCity(hay: string, state: string): string { Best(hay, SortByLen(CityKeys(CitiesOf(cities, state)))) }
    function MatchWard(hay: string, city: string): string { Best(hay, SortByLen(WardKeys(WardsOf(wards, city)))) }

    function Resolve(address: string): Addr {
      var hay := N(address);
      if hay == "" then Addr("", "", "")
      else
        var state := MatchState(hay);
        var city := if state != "" then MatchCity(hay, state) else "";
        var ward := if city != "" then MatchWard(hay, city) else "";
        Addr(state, city, ward)
    }

    /** `list.find(x => norm(x) === norm(v) || strip(x) === strip(v))`. */
    function Find(list: seq<string>, prefixes: seq<string>, v: string): Option<string> {
      if list == [] then None
      else if N(list[0]) == N(v) || StripName(list[0], prefixes) == StripName(v, prefixes) then Some(list[0])
      else Find(list[1..], prefixes, v)
    }

    function SnapState(v: string): string {
      if N(v) == "" then ""
      else match Find(states, STATE_PREFIXES, v) case Some(s) => s case None => MatchState(N(v))
    }

    function SnapCity(v: string, state: string): string {
      if v == "" || state == "" then ""
      else match Find(CitiesOf(cities, state), CITY_PREFIXES, v) case Some(c) => c case None => MatchCity(N(v), state)
    }

    function SnapWard(v: string, city: string): string {
      if v == "" || city == "" then ""
      else match Find(WardsOf(wards, city), WARD_PREFIXES, v) case Some(w) => w case None => MatchWard(N(v), city)
    }

    function Or(a: string, b: string): string { if a != "" then a else b }

    /** `snap(ai, fallbackAddress)`; no fallback address is the empty string. */
    function Snap(ai: Addr, fallback: string): Addr {
      var hay := N(fallback);
      var state := Or(SnapState(ai.state), if fallback != "" then MatchState(hay) else "");
      var city := if state == "" then ""
                  else Or(SnapCity(ai.city, state), if fallback != "" then MatchCity(hay, state) else "");
      var ward := if city == "" then ""
                  else Or(SnapWard(ai.ward, city), if fallback != "" then MatchWard(hay, city) else "");
      Addr(state, city, ward)
    }

    // ---- what an answer may be ----

    /** A filled level has filled parents. */
    predicate PrefixClosed(a: Addr) {
      (a.ward != "" ==> a.city != "") && (a.city != "" ==> a.state != "")
    }

    predicate CityLegal(city: string, state: string) { city in CitiesOf(cities, state) }
    predicate WardLegal(ward: string, city: string) { ward in WardsOf(wards, city) }

    /** Every filled level is listed under its parent. */
    predicate Nested(a: Addr) {
      (a.city != "" ==> CityLegal(a.city, a.state)) && (a.ward != "" ==> WardLegal(a.ward, a.city))
    }

    /** Every filled level is a catalogue string of that level. */
    ghost predicate InCatalogue(a: Addr) {
      && (a.state != "" ==> a.state in states)
      && (a.city != "" ==> exists r :: r in cities && r.city == a.city)
      && (a.ward != "" ==> exists r :: r in wards && r.ward == a.ward)
    }
  }

  // ---- answers come from the catalogue ----

  lemma {:induction false} CitiesOfRows(cities: seq<CityRow>, state: string, city: string)
    ensures city in CitiesOf(cities, state) <==> CityRow(state, city) in cities
  {
    if cities != [] {
      CitiesOfRows(cities[..|cities| - 1], state, city);
      assert cities == cities[..|cities| - 1] + [cities[|cities| - 1]];
    }
  }

  lemma {:induction false} WardsOfRows(wards: seq<WardRow>, city: string, ward: string)
    ensures ward in WardsOf(wards, city) <==> WardRow(city, ward) in wards
  {
    if wards != [] {
      WardsOfRows(wards[..|wards| - 1], city, ward);
      assert wards == wards[..|wards| - 1] + [wards[|wards| - 1]];
    }
  }

  lemma {:induction false} CityKeyValues(c: Catalogue, list: seq<string>)
    ensures forall k :: k in c.CityKeys(list) ==> k.val in list
  {
    if list != [] {
      CityKeyValues(c, list[..|list| - 1]);
      assert list == list[..|list| - 1] + [list[|list| - 1]];
    }
  }

  lemma {:induction false} WardKeyValues(c: Catalogue, list: seq<string>)
    ensures forall k :: k in c.WardKeys(list) ==> k.val in list
  {
    if list != [] {
      WardKeyValues(c, list[..|list| - 1]);
      assert list == list[..|list| - 1] + [list[|list| - 1]];
    }
  }

  /** A usable state: listed, and not wiped out by normalisation. */
  predicate RealState(c: Catalogue, s: string) {
    s in c.states && c.N(s) != ""
  }

  lemma StateStripEmpty(c: Catalogue, s: string)
    ensures c.StripState(s) == "" <==> c.N(s) == ""
  {
    NormIsNormal(c.fold, s);
    StripEmpty(c.N(s), STATE_PREFIXES);
  }

  lemma {:induction false} StateNameKeyValues(c: Catalogue, list: seq<string>)
    ensures forall k :: k in c.StateNameKeys(list) && k.key != "" ==> k.val in list && c.N(k.val) != ""
  {
    if list != [] {
      StateNameKeyValues(c, list[..|list| - 1]);
      assert list == list[..|list| - 1] + [list[|list| - 1]];
      StateStripEmpty(c, list[|list| - 1]);
    }
  }

  lemma {:induction false} StateByStrippedFinds(c: Catalogue, list: seq<string>, target: string)
    ensures var r := c.StateByStripped(list, target);
            r.Some? ==> r.value in list && c.StripState(r.value) == target
  {
    if list != [] {
      StateByStrippedFinds(c, list[..|list| - 1], target);
      assert list == list[..|list| - 1] + [list[|list| - 1]];
    }
  }

  lemma {:induction false} AliasKeyValues(c: Catalogue, aliases: seq<(string, string)>)
    requires forall i :: 0 <= i < |aliases| ==> aliases[i].1 != ""
    ensures forall k :: k in c.AliasKeys(aliases) ==> RealState(c, k.val)
  {
    if aliases != [] {
      var (a, target) := aliases[|aliases| - 1];
      AliasKeyValues(c, aliases[..|aliases| - 1]);
      StateByStrippedFinds(c, c.states, target);
      var st := c.StateByStripped(c.states, target);
      if st.Some? {
        StateStripEmpty(c, st.value);
      }
    }
  }

  lemma StateKeyReal(c: Catalogue, k: Key)
    requires k in SortByLen(c.StateKeys()) && k.key != ""
    ensures RealState(c, k.val)
  {
    SortKeepsKeys(c.StateKeys());
    StateNameKeyValues(c, c.states);
    AliasKeyValues(c, ALIASES);
  }

  lemma MatchStateReal(c: Catalogue, hay: string)
    ensures c.MatchState(hay) != "" ==> RealState(c, c.MatchState(hay))
  {
    var keys := SortByLen(c.StateKeys());
    BestComesFromKey(hay, keys);
    if Best(hay, keys) != "" {
      var w :| 0 <= w < |keys| && ContainsPhrase(hay, keys[w].key) && keys[w].val == Best(hay, keys);
      StateKeyReal(c, keys[w]);
    }
  }

  lemma MatchCityLegal(c: Catalogue, hay: string, state: string)
    ensures c.MatchCity(hay, state) != "" ==> c.CityLegal(c.MatchCity(hay, state), state)
  {
    CityKeyValues(c, CitiesOf(c.cities, state));
    BestListed(hay, c.CityKeys(CitiesOf(c.cities, state)), CitiesOf(c.cities, state));
  }

  lemma MatchWardLegal(c: Catalogue, hay: string, city: string)
    ensures c.MatchWard(hay, city) != "" ==> c.WardLegal(c.MatchWard(hay, city), city)
  {
    WardKeyValues(c, WardsOf(c.wards, city));
    BestListed(hay, c.WardKeys(WardsOf(c.wards, city)), WardsOf(c.wards, city));
  }

  /** What both `resolve` and `snap` promise of every answer. */
  ghost predicate Grounded(c: Catalogue, a: Addr) {
    c.PrefixClosed(a) && c.Nested(a) && (a.state != "" ==> RealState(c, a.state))
  }

  /** A grounded answer names catalogue rows level by level. */
  lemma GroundedInCatalogue(c: Catalogue, a: Addr)
    requires Grounded(c, a)
    ensures c.InCatalogue(a)
    ensures a.city != "" ==> CityRow(a.state, a.city) in c.cities
    ensures a.ward != "" ==> WardRow(a.city, a.ward) in c.wards
  {
    CitiesOfRows(c.cities, a.state, a.city);
    WardsOfRows(c.wards, a.city, a.ward);
  }

  lemma ResolveGrounded(c: Catalogue, address: string)
    ensures Grounded(c, c.Resolve(address))
  {
    var hay := c.N(address);
    var a := c.Resolve(address);
    MatchStateReal(c, hay);
    MatchCityLegal(c, hay, a.state);
    MatchWardLegal(c, hay, a.city);
  }

  // ---- exactly when a level is filled ----

  lemma {:induction false} StateNamesUsable(c: Catalogue, list: seq<string>)
    ensures forall k :: k in c.StateNameKeys(list) && k.key != "" ==> k.val != ""
  {
    if list != [] {
      StateNamesUsable(c, list[..|list| - 1]);
      StateStripEmpty(c, list[|list| - 1]);
      NormOfEmpty(c);
    }
  }

  lemma {:induction false} AliasesUsable(c: Catalogue, aliases: seq<(string, string)>)
    ensures forall k :: k in c.AliasKeys(aliases) ==> k.val != ""
  {
    if aliases != [] {
      AliasesUsable(c, aliases[..|aliases| - 1]);
    }
  }

  lemma {:induction false} CityNamesUsable(c: Catalogue, list: seq<string>)
    ensures forall k :: k in c.CityKeys(list) && k.key != "" ==> k.val != ""
  {
    hide Norm, Strip;
    if list != [] {
      var name := list[|list| - 1];
      CityNamesUsable(c, list[..|list| - 1]);
      NormIsNormal(c.fold, name);
      StripEmpty(c.N(name), CITY_PREFIXES);
      NormOfEmpty(c);
    }
  }

  lemma {:induction false} WardNamesUsable(c: Catalogue, list: seq<string>)
    ensures forall k :: k in c.WardKeys(list) && k.key != "" ==> k.val != ""
  {
    hide Norm, Strip;
    if list != [] {
      var name := list[|list| - 1];
      WardNamesUsable(c, list[..|list| - 1]);
      NormIsNormal(c.fold, name);
      StripEmpty(c.N(name), WARD_PREFIXES);
      NormOfEmpty(c);
    }
  }

  /**
    `resolve` level by level: a level is filled exactly when its parent is (the state: always) and
    some key of the parent's list occurs in the text; the value is then the winning key's.
  */
  lemma ResolveExact(c: Catalogue, address: string)
    ensures var a, hay := c.Resolve(address), c.N(address);
            var cityKeys := c.CityKeys(CitiesOf(c.cities, a.state));
            var wardKeys := c.WardKeys(WardsOf(c.wards, a.city));
            && (a.state != "" <==> Occurs(hay, c.StateKeys()))
            && (a.city != "" <==> a.state != "" && Occurs(hay, cityKeys))
            && (a.ward != "" <==> a.city != "" && Occurs(hay, wardKeys))
            && (a.state != "" ==> Chosen(hay, c.StateKeys(), a.state))
            && (a.city != "" ==> Chosen(hay, cityKeys, a.city))
            && (a.ward != "" ==> Chosen(hay, wardKeys, a.ward))
  {
    var a, hay := c.Resolve(address), c.N(address);
    StateNamesUsable(c, c.states);
    AliasesUsable(c, ALIASES);
    BestExact(hay, c.StateKeys());
    CityNamesUsable(c, CitiesOf(c.cities, a.state));
    BestExact(hay, c.CityKeys(CitiesOf(c.cities, a.state)));
    WardNamesUsable(c, WardsOf(c.wards, a.city));
    BestExact(hay, c.WardKeys(WardsOf(c.wards, a.city)));
  }

  // ---- keys are normalised, so occurring means being a token sublist ----

  lemma WordsNormal(ws: seq<string>, s: string)
    requires 1 <= |ws| <= 2 && Words(NotToken, ws)
    requires s == if |ws| == 1 then ws[0] else ws[0] + " " + ws[1]
    ensures Normal(s) && s != ""
  {
    TokensOfJoin(NotToken, ws);
    if |ws| == 2 {
      assert ws[1..] == [ws[1]];
    }
  }

  lemma CityPrefixNormal(i: nat)
    requires i < |CITY_PREFIXES|
    ensures Normal(CITY_PREFIXES[i]) && CITY_PREFIXES[i] != ""
  {
    var p := CITY_PREFIXES[i];
    if i == 2 {
      WordsNormal(["thanh", "pho"], p);
    } else if i == 3 {
      WordsNormal(["thi", "xa"], p);
    } else {
      WordsNormal([p], p);
    }
  }

  lemma WardPrefixNormal(i: nat)
    requires i < |WARD_PREFIXES|
    ensures Normal(WARD_PREFIXES[i]) && WARD_PREFIXES[i] != ""
  {
    var p := WARD_PREFIXES[i];
    if i == 2 {
      WordsNormal(["thi", "tran"], p);
    } else if i == 3 {
      WordsNormal(["dac", "khu"], p);
    } else {
      WordsNormal([p], p);
    }
  }

  lemma StatePrefixNormal(i: nat)
    requires i < |STATE_PREFIXES|
    ensures Normal(STATE_PREFIXES[i]) && STATE_PREFIXES[i] != ""
  {
    var p := STATE_PREFIXES[i];
    WordsNormal(if i == 1 then ["thanh", "pho"] else [p], p);
  }

  lemma AliasNormal(i: nat)
    requires i < |ALIASES|
    ensures Normal(ALIASES[i].0)
  {
    var a := ALIASES[i].0;
    if i == 2 {
      WordsNormal(["tp", "hcm"], a);
    } else if i == 3 {
      WordsNormal(["sai", "gon"], a);
    } else {
      WordsNormal([a], a);
    }
  }

  lemma {:induction false} AliasKeysNormal(c: Catalogue, aliases: seq<(string, string)>)
    requires forall i :: 0 <= i < |aliases| ==> Normal(aliases[i].0)
    ensures forall k :: k in c.AliasKeys(aliases) ==> Normal(k.key)
  {
    hide Normal;
    if aliases != [] {
      AliasKeysNormal(c, aliases[..|aliases| - 1]);
    }
  }

  lemma {:induction false} StateNameKeysNormal(c: Catalogue, list: seq<string>)
    ensures forall k :: k in c.StateNameKeys(list) ==> Normal(k.key)
  {
    if list != [] {
      var name := list[|list| - 1];
      StateNameKeysNormal(c, list[..|list| - 1]);
      NormIsNormal(c.fold, name);
      forall i | 0 <= i < |STATE_PREFIXES| ensures Normal(STATE_PREFIXES[i]) && STATE_PREFIXES[i] != "" {
        StatePrefixNormal(i);
      }
      var m := StripDropsTokens(c.N(name), STATE_PREFIXES);
    }
  }

  lemma StateKeysNormal(c: Catalogue)
    ensures forall k :: k in c.StateKeys() ==> Normal(k.key)
  {
    hide Normal, Catalogue.StateNameKeys, Catalogue.AliasKeys;
    StateNameKeysNormal(c, c.states);
    forall i | 0 <= i < |ALIASES| ensures Normal(ALIASES[i].0) { AliasNormal(i); }
    AliasKeysNormal(c, ALIASES);
  }

  lemma QuanKeysNormal(n: string, val: string)
    ensures forall k :: k in QuanKeys(n, val) ==> Normal(k.key)
  {
    var q := QuanNumber(n);
    if q.Some? {
      assert "q" + " " + q.value == "q " + q.value;
      WordsNormal(["q", q.value], "q " + q.value);
      WordsNormal(["q" + q.value], "q" + q.value);
    }
  }

  lemma {:induction false} CityKeysNormal(c: Catalogue, list: seq<string>)
    ensures forall k :: k in c.CityKeys(list) ==> Normal(k.key)
  {
    if list != [] {
      var name := list[|list| - 1];
      CityKeysNormal(c, list[..|list| - 1]);
      NormIsNormal(c.fold, name);
      forall i | 0 <= i < |CITY_PREFIXES| ensures Normal(CITY_PREFIXES[i]) && CITY_PREFIXES[i] != "" {
        CityPrefixNormal(i);
      }
      var m := StripDropsTokens(c.N(name), CITY_PREFIXES);
      QuanKeysNormal(c.N(name), name);
    }
  }

  lemma {:induction false} WardKeysNormal(c: Catalogue, list: seq<string>)
    ensures forall k :: k in c.WardKeys(list) ==> Normal(k.key)
  {
    if list != [] {
      var name := list[|list| - 1];
      WardKeysNormal(c, list[..|list| - 1]);
      NormIsNormal(c.fold, name);
      forall i | 0 <= i < |WARD_PREFIXES| ensures Normal(WARD_PREFIXES[i]) && WARD_PREFIXES[i] != "" {
        WardPrefixNormal(i);
      }
      var m := StripDropsTokens(c.N(name), WARD_PREFIXES);
    }
  }

  /** The keys of states, cities and wards occur in an address exactly when their tokens are a sublist of its tokens. */
  lemma KeysMatchTokens(c: Catalogue, address: string, list: seq<string>, k: Key)
    requires k in c.StateKeys() || k in c.CityKeys(list) || k in c.WardKeys(list)
    ensures ContainsPhrase(c.N(address), k.key) <==>
            k.key != "" && Sublist(Tokens(NotToken, FoldAll(c.fold, address)), Tokens(NotToken, k.key))
  {
    StateKeysNormal(c);
    CityKeysNormal(c, list);
    WardKeysNormal(c, list);
    NormIsNormal(c.fold, address);
    PhraseIsTokenSublist(c.N(address), k.key);
  }

  lemma {:induction false} FindFinds(c: Catalogue, list: seq<string>, prefixes: seq<string>, v: string)
    ensures var r := c.Find(list, prefixes, v);
            r.Some? ==>
              && r.value in list
              && (c.N(r.value) == c.N(v) || c.StripName(r.value, prefixes) == c.StripName(v, prefixes))
    ensures v in list ==> c.Find(list, prefixes, v).Some?
  {
    if list != [] {
      FindFinds(c, list[1..], prefixes, v);
    }
  }

  // ---- exactly what a snapped answer is ----

  /** The two names agree, or do once their prefixes are stripped. */
  predicate SameName(c: Catalogue, prefixes: seq<string>, x: string, v: string) {
    c.N(x) == c.N(v) || Strip(c.N(x), prefixes) == Strip(c.N(v), prefixes)
  }

  /** `x` stands at `i` and no name before it is the same as `v`. */
  predicate FirstSame(c: Catalogue, list: seq<string>, prefixes: seq<string>, v: string, i: nat) {
    i < |list| && SameName(c, prefixes, list[i], v) && forall j :: 0 <= j < i ==> !SameName(c, prefixes, list[j], v)
  }

  /**
    `r` is the first listed name that is the same as `v`; when there is none, the value of the key
    that wins in `v`, and empty exactly when no key occurs in `v`.
  */
  ghost predicate SnapsTo(c: Catalogue, list: seq<string>, prefixes: seq<string>, keys: seq<Key>, v: string,
                          r: string) {
    if exists i :: 0 <= i < |list| && FirstSame(c, list, prefixes, v, i) then
      exists i :: 0 <= i < |list| && FirstSame(c, list, prefixes, v, i) && r == list[i]
    else
      && (forall i :: 0 <= i < |list| ==> !SameName(c, prefixes, list[i], v))
      && (r != "" <==> Occurs(c.N(v), keys)) && (r != "" ==> Chosen(c.N(v), keys, r))
  }

  lemma {:induction false} FindFirst(c: Catalogue, list: seq<string>, prefixes: seq<string>, v: string)
    ensures match c.Find(list, prefixes, v)
            case None => forall i :: 0 <= i < |list| ==> !SameName(c, prefixes, list[i], v)
            case Some(x) => exists i :: 0 <= i < |list| && FirstSame(c, list, prefixes, v, i) && x == list[i]
  {
    hide Norm, Strip;
    if list != [] && !SameName(c, prefixes, list[0], v) {
      FindFirst(c, list[1..], prefixes, v);
      var r := c.Find(list[1..], prefixes, v);
      if r.Some? {
        var i :| 0 <= i < |list[1..]| && FirstSame(c, list[1..], prefixes, v, i) && r.value == list[1..][i];
        assert FirstSame(c, list, prefixes, v, i + 1);
      }
    } else if list != [] {
      assert FirstSame(c, list, prefixes, v, 0);
    }
  }

  lemma SnapsFrom(c: Catalogue, list: seq<string>, prefixes: seq<string>, keys: seq<Key>, v: string, r: string)
    requires forall k :: k in keys && k.key != "" ==> k.val != ""
    requires r == match c.Find(list, prefixes, v) case Some(x) => x case None => Best(c.N(v), SortByLen(keys))
    ensures SnapsTo(c, list, prefixes, keys, v, r)
  {
    hide Norm, Strip, SameName, Catalogue.Find, Best, Occurs, Chosen, SortByLen;
    FindFirst(c, list, prefixes, v);
    BestExact(c.N(v), keys);
  }

  lemma StateKeysUsable(c: Catalogue)
    ensures forall k :: k in c.StateKeys() && k.key != "" ==> k.val != ""
  {
    StateNamesUsable(c, c.states);
    AliasesUsable(c, ALIASES);
  }

  /** A state, city or ward named by the AI, against the list it is snapped to. */
  lemma SnapExact(c: Catalogue, v: string, parent: string)
    ensures if c.N(v) == "" then c.SnapState(v) == ""
            else SnapsTo(c, c.states, STATE_PREFIXES, c.StateKeys(), v, c.SnapState(v))
    ensures var list := CitiesOf(c.cities, parent);
            if v == "" || parent == "" then c.SnapCity(v, parent) == ""
            else SnapsTo(c, list, CITY_PREFIXES, c.CityKeys(list), v, c.SnapCity(v, parent))
    ensures var list := WardsOf(c.wards, parent);
            if v == "" || parent == "" then c.SnapWard(v, parent) == ""
            else SnapsTo(c, list, WARD_PREFIXES, c.WardKeys(list), v, c.SnapWard(v, parent))
  {
    hide Norm, Strip, SnapsTo, Best, SortByLen, Catalogue.Find, Catalogue.CityKeys, Catalogue.WardKeys;
    hide Catalogue.StateKeys;
    var cities, wards := CitiesOf(c.cities, parent), WardsOf(c.wards, parent);
    StateKeysUsable(c);
    CityNamesUsable(c, cities);
    WardNamesUsable(c, wards);
    if c.N(v) != "" {
      SnapsFrom(c, c.states, STATE_PREFIXES, c.StateKeys(), v, c.SnapState(v));
    }
    if v != "" && parent != "" {
      SnapsFrom(c, cities, CITY_PREFIXES, c.CityKeys(cities), v, c.SnapCity(v, parent));
      SnapsFrom(c, wards, WARD_PREFIXES, c.WardKeys(wards), v, c.SnapWard(v, parent));
    }
  }

  /**
    `snap` level by level: what the answer snaps to if that is anything, else what the rules find in
    the fallback address under the parent that was chosen; nothing below an empty level.
  */
  lemma SnapWhole(c: Catalogue, ai: Addr, fallback: string)
    ensures var r, hay := c.Snap(ai, fallback), c.N(fallback);
            var city, ward := c.SnapCity(ai.city, r.state), c.SnapWard(ai.ward, r.city);
            && (if c.SnapState(ai.state) != "" then r.state == c.SnapState(ai.state)
                else if fallback == "" then r.state == "" else Ruled(hay, c.StateKeys(), r.state))
            && (if r.state == "" then r.city == "" else if city != "" then r.city == city
                else if fallback == "" then r.city == ""
                else Ruled(hay, c.CityKeys(CitiesOf(c.cities, r.state)), r.city))
            && (if r.city == "" then r.ward == "" else if ward != "" then r.ward == ward
                else if fallback == "" then r.ward == ""
                else Ruled(hay, c.WardKeys(WardsOf(c.wards, r.city)), r.ward))
  {
    hide Norm, Catalogue.SnapState, Catalogue.SnapCity, Catalogue.SnapWard, Best, SortByLen;
    hide Catalogue.StateKeys, Catalogue.CityKeys, Catalogue.WardKeys, Occurs, Chosen;
    var r, hay := c.Snap(ai, fallback), c.N(fallback);
    StateKeysUsable(c);
    BestExact(hay, c.StateKeys());
    CityNamesUsable(c, CitiesOf(c.cities, r.state));
    BestExact(hay, c.CityKeys(CitiesOf(c.cities, r.state)));
    WardNamesUsable(c, WardsOf(c.wards, r.city));
    BestExact(hay, c.WardKeys(WardsOf(c.wards, r.city)));
  }

  lemma SnapStateReal(c: Catalogue, v: string)
    ensures c.SnapState(v) != "" ==> RealState(c, c.SnapState(v))
  {
    FindFinds(c, c.states, STATE_PREFIXES, v);
    MatchStateReal(c, c.N(v));
    StateStripEmpty(c, v);
    if c.N(v) != "" && c.Find(c.states, STATE_PREFIXES, v).Some? {
      StateStripEmpty(c, c.Find(c.states, STATE_PREFIXES, v).value);
    }
  }

  lemma SnapCityLegal(c: Catalogue, v: string, state: string)
    ensures c.SnapCity(v, state) != "" ==> c.CityLegal(c.SnapCity(v, state), state)
  {
    FindFinds(c, CitiesOf(c.cities, state), CITY_PREFIXES, v);
    MatchCityLegal(c, c.N(v), state);
  }

  lemma SnapWardLegal(c: Catalogue, v: string, city: string)
    ensures c.SnapWard(v, city) != "" ==> c.WardLegal(c.SnapWard(v, city), city)
  {
    FindFinds(c, WardsOf(c.wards, city), WARD_PREFIXES, v);
    MatchWardLegal(c, c.N(v), city);
  }

  /** Whatever the AI wrote, its snapped form is nested in the catalogue. */
  lemma SnapGrounded(c: Catalogue, ai: Addr, fallback: string)
    ensures Grounded(c, c.Snap(ai, fallback))
  {
    var a := c.Snap(ai, fallback);
    var hay := c.N(fallback);
    SnapStateReal(c, ai.state);
    MatchStateReal(c, hay);
    SnapCityLegal(c, ai.city, a.state);
    MatchCityLegal(c, hay, a.state);
    SnapWardLegal(c, ai.ward, a.city);
    MatchWardLegal(c, hay, a.city);
  }

  // ---- when snapping is the identity ----

  /** A different name with the same stripped form stands at `i`, before every occurrence of `v`. */
  predicate ShadowAt(c: Catalogue, list: seq<string>, prefixes: seq<string>, v: string, i: nat) {
    i < |list| && list[i] != v && c.StripName(list[i], prefixes) == c.StripName(v, prefixes) && v !in list[..i]
  }

  predicate Shadowed(c: Catalogue, list: seq<string>, prefixes: seq<string>, v: string) {
    exists i :: 0 <= i < |list| && ShadowAt(c, list, prefixes, v, i)
  }

  /** Looking a listed name up finds that name exactly when it is not shadowed. */
  lemma {:induction false} FindIdentity(c: Catalogue, list: seq<string>, prefixes: seq<string>, v: string)
    requires v in list
    ensures c.Find(list, prefixes, v) == Some(v) <==> !Shadowed(c, list, prefixes, v)
  {
    var rest := list[1..];
    if list[0] == v {
      assert forall i :: 0 < i <= |list| ==> list[..i][0] == v;
    } else if c.StripName(list[0], prefixes) == c.StripName(v, prefixes) {
      assert ShadowAt(c, list, prefixes, v, 0);
    } else {
      FindIdentity(c, rest, prefixes, v);
      forall i | 0 <= i < |rest| ensures ShadowAt(c, rest, prefixes, v, i) == ShadowAt(c, list, prefixes, v, i + 1) {
        assert list[..i + 1] == [list[0]] + rest[..i];
      }
      if Shadowed(c, list, prefixes, v) {
        var i :| 0 <= i < |list| && ShadowAt(c, list, prefixes, v, i);
        assert ShadowAt(c, rest, prefixes, v, i - 1);
      }
    }
  }

  /** No level of the row is shadowed in its own list. */
  predicate Unshadowed(c: Catalogue, a: Addr) {
    && (a.state != "" ==> !Shadowed(c, c.states, STATE_PREFIXES, a.state))
    && (a.city != "" ==> !Shadowed(c, CitiesOf(c.cities, a.state), CITY_PREFIXES, a.city))
    && (a.ward != "" ==> !Shadowed(c, WardsOf(c.wards, a.city), WARD_PREFIXES, a.ward))
  }

  /** `snap` leaves a catalogue row alone exactly when no level of it is shadowed. */
  lemma SnapIdentity(c: Catalogue, a: Addr)
    requires Grounded(c, a)
    ensures c.Snap(a, "") == a <==> Unshadowed(c, a)
  {
    SnapLevels(c, a);
    NormOfEmpty(c);
  }

  lemma SnapLevels(c: Catalogue, a: Addr)
    requires Grounded(c, a)
    ensures a.state != "" ==> (c.SnapState(a.state) == a.state <==> !Shadowed(c, c.states, STATE_PREFIXES, a.state))
    ensures a.city != "" ==> (c.SnapCity(a.city, a.state) == a.city <==>
            !Shadowed(c, CitiesOf(c.cities, a.state), CITY_PREFIXES, a.city))
    ensures a.ward != "" ==> (c.SnapWard(a.ward, a.city) == a.ward <==>
            !Shadowed(c, WardsOf(c.wards, a.city), WARD_PREFIXES, a.ward))
  {
    if a.state != "" {
      FindIdentity(c, c.states, STATE_PREFIXES, a.state);
      FindFinds(c, c.states, STATE_PREFIXES, a.state);
    }
    if a.city != "" {
      FindIdentity(c, CitiesOf(c.cities, a.state), CITY_PREFIXES, a.city);
      FindFinds(c, CitiesOf(c.cities, a.state), CITY_PREFIXES, a.city);
    }
    if a.ward != "" {
      FindIdentity(c, WardsOf(c.wards, a.city), WARD_PREFIXES, a.ward);
      FindFinds(c, WardsOf(c.wards, a.city), WARD_PREFIXES, a.ward);
    }
  }

  lemma NormOfEmpty(c: Catalogue)
    ensures c.N("") == ""
  {
  }

  /** Stripped names tell the names of a list apart. */
  ghost predicate StripsDistinct(c: Catalogue, list: seq<string>, prefixes: seq<string>) {
    forall x, y :: x in list && y in list && c.StripName(x, prefixes) == c.StripName(y, prefixes) ==> x == y
  }

  /** ... and so for the state list, the cities of every state and the wards of every city. */
  ghost predicate AllStripsDistinct(c: Catalogue) {
    && StripsDistinct(c, c.states, STATE_PREFIXES)
    && (forall s :: StripsDistinct(c, CitiesOf(c.cities, s), CITY_PREFIXES))
    && (forall s :: StripsDistinct(c, WardsOf(c.wards, s), WARD_PREFIXES))
  }

  /** With distinct stripped names `snap` is the identity on every row ... */
  lemma SnapFixesRows(c: Catalogue, a: Addr)
    requires AllStripsDistinct(c) && Grounded(c, a)
    ensures c.Snap(a, "") == a
  {
    SnapIdentity(c, a);
  }

  /** ... and idempotent on every input, whatever address it first fell back on. */
  lemma SnapIdempotent(c: Catalogue, ai: Addr, fallback: string)
    requires AllStripsDistinct(c)
    ensures c.Snap(c.Snap(ai, fallback), "") == c.Snap(ai, fallback)
  {
    SnapGrounded(c, ai, fallback);
    SnapFixesRows(c, c.Snap(ai, fallback));
  }
}
