/**
  The two-level address matcher (Tinh -> Xa/Phuong of the 2025 reform): aliases of merged
  provinces, hints from old district names, and strong before weak ward keys.

  The province keys are built like the state keys of the three-level matcher, so they are taken
  from there; what differs is the alias table, the hints of weight 1, and the ward scan.
*/
module NewMatch {
  import opened Text
  import opened Phrase
  import Old = OldMatch

  datatype Addr2 = Addr2(province: string, ward: string)
  datatype WardRow2 = WardRow2(state: string, ward: string)

  const ALIASES: seq<(string, string)> := [
    ("hcm", "ho chi minh"), ("tphcm", "ho chi minh"), ("tp hcm", "ho chi minh"), ("sai gon", "ho chi minh"),
    ("saigon", "ho chi minh"), ("sg", "ho chi minh"), ("hanoi", "ha noi"), ("hn", "ha noi"),
    ("danang", "da nang"), ("ba ria vung tau", "ho chi minh"), ("binh duong", "ho chi minh"),
    ("ha nam", "ninh binh"), ("nam dinh", "ninh binh"), ("vinh phuc", "phu tho"), ("hoa binh", "phu tho"),
    ("bac giang", "bac ninh"), ("thai binh", "hung yen"), ("hai duong", "hai phong"), ("yen bai", "lao cai"),
    ("ha giang", "tuyen quang"), ("bac kan", "thai nguyen"), ("quang nam", "da nang"), ("binh dinh", "gia lai"),
    ("phu yen", "dak lak"), ("ninh thuan", "khanh hoa"), ("binh thuan", "lam dong"), ("dak nong", "lam dong"),
    ("quang binh", "quang tri"), ("kon tum", "quang ngai"), ("tien giang", "dong thap"),
    ("ben tre", "vinh long"), ("tra vinh", "vinh long"), ("long an", "tay ninh"), ("hau giang", "can tho"),
    ("soc trang", "can tho"), ("bac lieu", "ca mau"), ("kien giang", "an giang"), ("thua thien hue", "hue")]

  const OLD_DISTRICT_HINTS: seq<(string, string)> := HCM_HINTS + HA_NOI_HINTS

  const HCM_HINTS: seq<(string, string)> := [
    ("thu duc", "ho chi minh"), ("binh thanh", "ho chi minh"), ("go vap", "ho chi minh"),
    ("tan binh", "ho chi minh"), ("tan phu", "ho chi minh"), ("phu nhuan", "ho chi minh"),
    ("binh chanh", "ho chi minh"), ("hoc mon", "ho chi minh"), ("nha be", "ho chi minh"),
    ("can gio", "ho chi minh"), ("cu chi", "ho chi minh"), ("binh tan", "ho chi minh"),
    ("quan 1", "ho chi minh"), ("quan 2", "ho chi minh"), ("quan 3", "ho chi minh"), ("quan 4", "ho chi minh"),
    ("quan 5", "ho chi minh"), ("quan 6", "ho chi minh"), ("quan 7", "ho chi minh"), ("quan 8", "ho chi minh"),
    ("quan 9", "ho chi minh"), ("quan 10", "ho chi minh"), ("quan 11", "ho chi minh"),
    ("quan 12", "ho chi minh")]

  const HA_NOI_HINTS: seq<(string, string)> := [
    ("ba dinh", "ha noi"), ("hoan kiem", "ha noi"), ("dong da", "ha noi"),
    ("hai ba trung", "ha noi"), ("thanh xuan", "ha noi"), ("cau giay", "ha noi"), ("tay ho", "ha noi"),
    ("long bien", "ha noi"), ("hoang mai", "ha noi"), ("ha dong", "ha noi"), ("nam tu liem", "ha noi"),
    ("bac tu liem", "ha noi"), ("gia lam", "ha noi"), ("dong anh", "ha noi"), ("soc son", "ha noi"),
    ("thanh tri", "ha noi"), ("hoai duc", "ha noi"), ("dan phuong", "ha noi"), ("me linh", "ha noi"),
    ("son tay", "ha noi"), ("thach that", "ha noi"), ("quoc oai", "ha noi"), ("chuong my", "ha noi"),
    ("thanh oai", "ha noi"), ("thuong tin", "ha noi"), ("phu xuyen", "ha noi"), ("ung hoa", "ha noi"),
    ("my duc", "ha noi"), ("ba vi", "ha noi"), ("phuc tho", "ha noi")]

  function WardsOf(wards: seq<WardRow2>, state: string): seq<string> {
    if wards == [] then []
    else WardsOf(wards[..|wards| - 1], state) +
         (if wards[|wards| - 1].state == state then [wards[|wards| - 1].ward] else [])
  }

  datatype Catalogue2 = Catalogue2(fold: char -> string, states: seq<string>, wards: seq<WardRow2>) {

    /** The province names, as a catalogue of the three-level matcher. */
    function Names(): Old.Catalogue { Old.Catalogue(fold, states, [], []) }

    function N(s: string): string { Norm(fold, s) }
    function StripWard(s: string): string { Names().StripWard(s) }

    /** Names and aliases of provinces. */
    function NameKeys(): seq<Key> { Names().StateNameKeys(states) + Names().AliasKeys(ALIASES) }

    /** Old districts that point to a province, with weight 1. */
    function HintKeys(hints: seq<(string, string)>): seq<Key> {
      if hints == [] then []
      else
        var (hint, target) := hints[|hints| - 1];
        var st := Names().StateByStripped(states, target);
        HintKeys(hints[..|hints| - 1]) + (if st.Some? && st.value != "" then [Key(hint, st.value, 1)] else [])
    }

    function ProvinceKeys(): seq<Key> { NameKeys() + HintKeys(OLD_DISTRICT_HINTS) }

    function StrongKeys(list: seq<string>): seq<Key> {
      seq(|list|, i requires 0 <= i < |list| => Key(N(list[i]), list[i], |N(list[i])|))
    }

    function WeakKeys(list: seq<string>): seq<Key> {
      if list == [] then []
      else
        var w := list[|list| - 1];
        var sw := StripWard(w);
        WeakKeys(list[..|list| - 1]) +
        (if sw != "" && |sw| >= 4 && sw != N(w) then [Key(sw, w, |sw|)] else [])
    }

    function MatchProvince(hay: string): string { Best(hay, SortByLen(ProvinceKeys())) }

    function MatchWard(hay: string, province: string): string {
      var list := WardsOf(wards, province);
      Names().Or(Best(hay, SortByLen(StrongKeys(list))), Best(hay, SortByLen(WeakKeys(list))))
    }

    function Resolve(address: string): Addr2 {
      var hay := N(address);
      if hay == "" then Addr2("", "")
      else
        var province := MatchProvince(hay);
        Addr2(province, if province != "" then MatchWard(hay, province) else "")
    }

    function SnapProvince(v: string): string {
      if N(v) == "" then ""
      else match Names().Find(states, Old.STATE_PREFIXES, v) case Some(s) => s case None => MatchProvince(N(v))
    }

    function SnapWard(v: string, province: string): string {
      if v == "" || province == "" then ""
      else match Names().Find(WardsOf(wards, province), Old.WARD_PREFIXES, v)
           case Some(w) => w
           case None => MatchWard(N(v), province)
    }

    function Snap(ai: Addr2, fallback: string): Addr2 {
      var hay := N(fallback);
      var province := Names().Or(SnapProvince(ai.province), if fallback != "" then MatchProvince(hay) else "");
      var ward := if province == "" then ""
                  else Names().Or(SnapWard(ai.ward, province), if fallback != "" then MatchWard(hay, province) else "");
      Addr2(province, ward)
    }

    /** A ward needs a province; a province is listed; a ward is listed under its province. */
    predicate WardLegal(ward: string, province: string) { ward in WardsOf(wards, province) }

    predicate Nested(a: Addr2) { a.ward != "" ==> WardLegal(a.ward, a.province) }

    ghost predicate InCatalogue(a: Addr2) {
      && (a.ward != "" ==> a.province != "")
      && (a.province != "" ==> a.province in states)
      && (a.ward != "" ==> exists r :: r in wards && r.ward == a.ward)
    }
  }

  // ---- hints against names ----

  lemma {:induction false} HintLens(c: Catalogue2, hints: seq<(string, string)>)
    ensures forall k :: k in c.HintKeys(hints) ==> k.len == 1
  {
    if hints != [] {
      HintLens(c, hints[..|hints| - 1]);
    }
  }

  lemma {:induction false} NameLens(c: Old.Catalogue, list: seq<string>)
    ensures forall k :: k in c.StateNameKeys(list) ==> k.len == |k.key|
  {
    if list != [] {
      NameLens(c, list[..|list| - 1]);
    }
  }

  lemma {:induction false} AliasLens(c: Old.Catalogue, aliases: seq<(string, string)>)
    ensures forall k :: k in c.AliasKeys(aliases) ==> k.len == |k.key|
  {
    if aliases != [] {
      AliasLens(c, aliases[..|aliases| - 1]);
    }
  }

  /**
    When both a name (or alias) and a hint match, the name wins unless its phrase is one letter
    long and the hint occurs further right; when no name matches, the hints decide alone.
  */
  lemma NameAgainstHint(c: Catalogue2, hay: string)
    ensures var name := BestHit(hay, c.NameKeys());
            var hint := BestHit(hay, c.HintKeys(OLD_DISTRICT_HINTS));
            var all := BestHit(hay, SortByLen(c.ProvinceKeys()));
            && (hint.None? ==> all == name)
            && (name.None? ==> all == hint)
            && (name.Some? && hint.Some? ==>
                  if name.value.len == 1 && hint.value.pos > name.value.pos then all == hint else all == name)
  {
    var hints := c.HintKeys(OLD_DISTRICT_HINTS);
    BestHitSorted(hay, c.ProvinceKeys());
    BestHitConcat(hay, c.NameKeys(), hints);
    HintLens(c, OLD_DISTRICT_HINTS);
    NameLens(c.Names(), c.states);
    AliasLens(c.Names(), ALIASES);
    var v := BestHitIsWinner(hay, c.NameKeys());
    var w := BestHitIsWinner(hay, hints);
  }

  /** No province is written with a single letter: neither its full nor its stripped form. */
  ghost predicate NoOneLetterName(c: Catalogue2) {
    forall s :: s in c.states ==> |c.N(s)| != 1 && |c.Names().StripState(s)| != 1
  }

  lemma {:induction false} NameLensTwo(c: Catalogue2, list: seq<string>)
    requires NoOneLetterName(c) && forall s :: s in list ==> s in c.states
    ensures forall k :: k in c.Names().StateNameKeys(list) ==> k.len != 1
  {
    if list != [] {
      NameLensTwo(c, list[..|list| - 1]);
      assert list[|list| - 1] in list;
    }
  }

  lemma {:induction false} AliasLensTwo(c: Old.Catalogue, aliases: seq<(string, string)>)
    requires forall i :: 0 <= i < |aliases| ==> |aliases[i].0| != 1
    ensures forall k :: k in c.AliasKeys(aliases) ==> k.len != 1
  {
    if aliases != [] {
      AliasLensTwo(c, aliases[..|aliases| - 1]);
    }
  }

  lemma NameKeysLong(c: Catalogue2)
    requires NoOneLetterName(c)
    ensures forall k :: k in c.NameKeys() ==> k.len != 1
  {
    NameLensTwo(c, c.states);
    AliasLensTwo(c.Names(), ALIASES);
  }

  /** With such province names, a matching name or alias always beats every old-district hint. */
  lemma NameBeatsHint(c: Catalogue2, hay: string)
    requires NoOneLetterName(c)
    ensures BestHit(hay, c.NameKeys()).Some? ==> c.MatchProvince(hay) == Best(hay, c.NameKeys())
  {
    hide Catalogue2.NameKeys, Catalogue2.HintKeys, BestHit;
    NameAgainstHint(c, hay);
    NameKeysLong(c);
    var v := BestHitIsWinner(hay, c.NameKeys());
  }

  // ---- answers come from the catalogue ----

  lemma {:induction false} WardsOfRows(wards: seq<WardRow2>, state: string, ward: string)
    ensures ward in WardsOf(wards, state) <==> WardRow2(state, ward) in wards
  {
    if wards != [] {
      WardsOfRows(wards[..|wards| - 1], state, ward);
      assert wards == wards[..|wards| - 1] + [wards[|wards| - 1]];
    }
  }

  lemma {:induction false} HintKeyValues(c: Catalogue2, hints: seq<(string, string)>)
    ensures forall k :: k in c.HintKeys(hints) ==> k.val in c.states
  {
    if hints != [] {
      HintKeyValues(c, hints[..|hints| - 1]);
      Old.StateByStrippedFinds(c.Names(), c.states, hints[|hints| - 1].1);
    }
  }

  lemma {:induction false} WeakKeyValues(c: Catalogue2, list: seq<string>)
    ensures forall k :: k in c.WeakKeys(list) ==> k.val in list
  {
    if list != [] {
      WeakKeyValues(c, list[..|list| - 1]);
      assert list == list[..|list| - 1] + [list[|list| - 1]];
    }
  }

  lemma ProvinceKeyListed(c: Catalogue2, k: Key)
    requires k in c.ProvinceKeys() && k.key != ""
    ensures k.val in c.states
  {
    Old.StateNameKeyValues(c.Names(), c.states);
    Old.AliasKeyValues(c.Names(), ALIASES);
    HintKeyValues(c, OLD_DISTRICT_HINTS);
  }

  lemma MatchProvinceListed(c: Catalogue2, hay: string)
    ensures c.MatchProvince(hay) != "" ==> c.MatchProvince(hay) in c.states
  {
    hide Catalogue2.ProvinceKeys;
    var keys := SortByLen(c.ProvinceKeys());
    SortKeepsKeys(c.ProvinceKeys());
    BestComesFromKey(hay, keys);
    if Best(hay, keys) != "" {
      var w :| 0 <= w < |keys| && ContainsPhrase(hay, keys[w].key) && keys[w].val == Best(hay, keys);
      ProvinceKeyListed(c, keys[w]);
    }
  }

  lemma MatchWardLegal(c: Catalogue2, hay: string, province: string)
    ensures c.MatchWard(hay, province) != "" ==> c.WardLegal(c.MatchWard(hay, province), province)
  {
    var list := WardsOf(c.wards, province);
    WeakKeyValues(c, list);
    BestListed(hay, c.StrongKeys(list), list);
    BestListed(hay, c.WeakKeys(list), list);
  }

  lemma SnapWardLegal(c: Catalogue2, v: string, province: string)
    ensures c.SnapWard(v, province) != "" ==> c.WardLegal(c.SnapWard(v, province), province)
  {
    Old.FindFinds(c.Names(), WardsOf(c.wards, province), Old.WARD_PREFIXES, v);
    MatchWardLegal(c, c.N(v), province);
  }

  lemma ResolveGrounded(c: Catalogue2, address: string)
    ensures c.Nested(c.Resolve(address)) && c.InCatalogue(c.Resolve(address))
  {
    var a := c.Resolve(address);
    MatchProvinceListed(c, c.N(address));
    MatchWardLegal(c, c.N(address), a.province);
    WardsOfRows(c.wards, a.province, a.ward);
  }

  lemma SnapGrounded(c: Catalogue2, ai: Addr2, fallback: string)
    ensures c.Nested(c.Snap(ai, fallback)) && c.InCatalogue(c.Snap(ai, fallback))
  {
    var a := c.Snap(ai, fallback);
    var hay := c.N(fallback);
    Old.FindFinds(c.Names(), c.states, Old.STATE_PREFIXES, ai.province);
    MatchProvinceListed(c, c.N(ai.province));
    MatchProvinceListed(c, hay);
    SnapWardLegal(c, ai.ward, a.province);
    MatchWardLegal(c, hay, a.province);
    WardsOfRows(c.wards, a.province, a.ward);
  }

  // ---- exactly when a level is filled ----

  lemma {:induction false} HintsUsable(c: Catalogue2, hints: seq<(string, string)>)
    ensures forall k :: k in c.HintKeys(hints) ==> k.val != ""
  {
    if hints != [] {
      HintsUsable(c, hints[..|hints| - 1]);
    }
  }

  lemma {:induction false} WeakUsable(c: Catalogue2, list: seq<string>)
    ensures forall k :: k in c.WeakKeys(list) ==> k.key != "" && k.val != ""
  {
    if list != [] {
      WeakUsable(c, list[..|list| - 1]);
      Old.NormOfEmpty(c.Names());
    }
  }

  lemma StrongUsable(c: Catalogue2, list: seq<string>)
    ensures forall k :: k in c.StrongKeys(list) && k.key != "" ==> k.val != ""
  {
    Old.NormOfEmpty(c.Names());
  }

  /**
    `resolve`: the province is filled exactly when a name, alias or hint occurs, the ward exactly
    when the province is and a full or bare ward name occurs; a full one is preferred.
  */
  lemma ResolveExact(c: Catalogue2, address: string)
    ensures var a, hay := c.Resolve(address), c.N(address);
            var list := WardsOf(c.wards, a.province);
            && (a.province != "" <==> Occurs(hay, c.ProvinceKeys()))
            && (a.province != "" ==> Chosen(hay, c.ProvinceKeys(), a.province))
            && (a.ward != "" <==>
                  a.province != "" && (Occurs(hay, c.StrongKeys(list)) || Occurs(hay, c.WeakKeys(list))))
            && (a.ward != "" ==>
                  Chosen(hay, if Occurs(hay, c.StrongKeys(list)) then c.StrongKeys(list) else c.WeakKeys(list), a.ward))
  {
    var a, hay := c.Resolve(address), c.N(address);
    var list := WardsOf(c.wards, a.province);
    Old.StateNamesUsable(c.Names(), c.states);
    Old.AliasesUsable(c.Names(), ALIASES);
    HintsUsable(c, OLD_DISTRICT_HINTS);
    BestExact(hay, c.ProvinceKeys());
    StrongUsable(c, list);
    BestExact(hay, c.StrongKeys(list));
    WeakUsable(c, list);
    BestExact(hay, c.WeakKeys(list));
  }

  /**
    A province or ward named by the AI, against the list it is snapped to; full ward names are preferred to
    bare ones.
  */
  lemma SnapExact(c: Catalogue2, v: string, province: string)
    ensures if c.N(v) == "" then c.SnapProvince(v) == ""
            else Old.SnapsTo(c.Names(), c.states, Old.STATE_PREFIXES, c.ProvinceKeys(), v, c.SnapProvince(v))
    ensures var list := WardsOf(c.wards, province);
            if v == "" || province == "" then c.SnapWard(v, province) == ""
            else
              Old.SnapsTo(c.Names(), list, Old.WARD_PREFIXES,
                          if Occurs(c.N(v), c.StrongKeys(list)) then c.StrongKeys(list) else c.WeakKeys(list), v,
                          c.SnapWard(v, province))
  {
    hide Norm, Strip, Old.SnapsTo, Best, SortByLen, Old.Catalogue.Find, Catalogue2.StrongKeys, Catalogue2.WeakKeys;
    hide Catalogue2.ProvinceKeys, Occurs;
    var list, hay := WardsOf(c.wards, province), c.N(v);
    ProvinceKeysUsable(c);
    StrongUsable(c, list);
    BestExact(hay, c.StrongKeys(list));
    WeakUsable(c, list);
    if hay != "" {
      Old.SnapsFrom(c.Names(), c.states, Old.STATE_PREFIXES, c.ProvinceKeys(), v, c.SnapProvince(v));
    }
    if v != "" && province != "" {
      var keys := if Occurs(hay, c.StrongKeys(list)) then c.StrongKeys(list) else c.WeakKeys(list);
      BestExact(hay, c.WeakKeys(list));
      Old.SnapsFrom(c.Names(), list, Old.WARD_PREFIXES, keys, v, c.SnapWard(v, province));
    }
  }

  /** The ward the rules find: by full names if one occurs, else by bare names. */
  ghost predicate RuledWard(c: Catalogue2, hay: string, province: string, ward: string) {
    var list := WardsOf(c.wards, province);
    Ruled(hay, if Occurs(hay, c.StrongKeys(list)) then c.StrongKeys(list) else c.WeakKeys(list), ward)
  }

  /** `snap`: what the answer snaps to if that is anything, else what the rules find in the fallback address. */
  lemma SnapWhole(c: Catalogue2, ai: Addr2, fallback: string)
    ensures var r, hay := c.Snap(ai, fallback), c.N(fallback);
            var ward := c.SnapWard(ai.ward, r.province);
            && (if c.SnapProvince(ai.province) != "" then r.province == c.SnapProvince(ai.province)
                else if fallback == "" then r.province == "" else Ruled(hay, c.ProvinceKeys(), r.province))
            && (if r.province == "" then r.ward == "" else if ward != "" then r.ward == ward
                else if fallback == "" then r.ward == "" else RuledWard(c, hay, r.province, r.ward))
  {
    hide Norm, Catalogue2.SnapProvince, Catalogue2.SnapWard, Best, SortByLen, Catalogue2.ProvinceKeys;
    hide Catalogue2.StrongKeys, Catalogue2.WeakKeys, Occurs, Chosen;
    var r, hay := c.Snap(ai, fallback), c.N(fallback);
    var list := WardsOf(c.wards, r.province);
    ProvinceKeysUsable(c);
    BestExact(hay, c.ProvinceKeys());
    StrongUsable(c, list);
    BestExact(hay, c.StrongKeys(list));
    WeakUsable(c, list);
    BestExact(hay, c.WeakKeys(list));
  }

  lemma ProvinceKeysUsable(c: Catalogue2)
    ensures forall k :: k in c.ProvinceKeys() && k.key != "" ==> k.val != ""
  {
    Old.StateNamesUsable(c.Names(), c.states);
    Old.AliasesUsable(c.Names(), ALIASES);
    HintsUsable(c, OLD_DISTRICT_HINTS);
  }
}
