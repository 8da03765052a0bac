/**
  The two-level matcher object and `SpxAddressService`: index placement of raw AI answers (`run`)
  and the three-tier grounded resolution (`resolveGrounded`).
*/
module NewService {
  import opened Text
  import opened Phrase
  import opened AiReply
  import opened NewMatch
  import Old = OldMatch
  import Maps = OldMatcherObject

  class NewMatcher {
    const cat: Catalogue2
    const wardsByState: map<string, seq<string>>
    const stateKeys: seq<Key>

    ghost predicate Valid() {
      && (forall s :: Maps.ListOf(wardsByState, s) == WardsOf(cat.wards, s))
      && stateKeys == SortByLen(cat.ProvinceKeys())
    }

    constructor (cat: Catalogue2)
      ensures Valid() && this.cat == cat
    {
      var byState := GroupWards(cat.wards);
      var keys := BuildProvinceKeys(cat);
      this.cat := cat;
      wardsByState := byState;
      stateKeys := keys;
    }

    method MatchProvince(hay: string) returns (r: string)
      requires Valid()
      ensures r == cat.MatchProvince(hay)
    {
      r := BestPhrase(hay, stateKeys);
    }

    method WardKeysWeak(province: string) returns (keys: seq<Key>)
      requires Valid()
      ensures keys == SortByLen(cat.WeakKeys(WardsOf(cat.wards, province)))
    {
      var list := Maps.ListOf(wardsByState, province);
      keys := [];
      for i := 0 to |list|
        invariant keys == cat.WeakKeys(list[..i])
      {
        assert list[..i + 1][..i] == list[..i];
        var sw := cat.StripWard(list[i]);
        if sw != "" && |sw| >= 4 && sw != cat.N(list[i]) {
          keys := keys + [Key(sw, list[i], |sw|)];
        }
      }
      assert list[..|list|] == list;
      keys := SortByLen(keys);
    }

    method MatchWard(hay: string, province: string) returns (r: string)
      requires Valid()
      ensures r == cat.MatchWard(hay, province)
    {
      var strong := SortByLen(cat.StrongKeys(Maps.ListOf(wardsByState, province)));
      r := BestPhrase(hay, strong);
      if r == "" {
        var weak := WardKeysWeak(province);
        r := BestPhrase(hay, weak);
      }
    }

    method Resolve(address: string) returns (r: Addr2)
      requires Valid()
      ensures r == cat.Resolve(address)
    {
      var hay := cat.N(address);
      if hay == "" { return Addr2("", ""); }
      var ward := "";
      var province := MatchProvince(hay);
      if province != "" { ward := MatchWard(hay, province); }
      r := Addr2(province, ward);
    }

    method SnapProvince(v: string) returns (r: string)
      requires Valid()
      ensures r == cat.SnapProvince(v)
    {
      if cat.N(v) == "" { return ""; }
      var exact := cat.Names().Find(cat.states, Old.STATE_PREFIXES, v);
      if exact.Some? { r := exact.value; } else { r := MatchProvince(cat.N(v)); }
    }

    method SnapWard(v: string, province: string) returns (r: string)
      requires Valid()
      ensures r == cat.SnapWard(v, province)
    {
      if v == "" || province == "" { return ""; }
      var exact := cat.Names().Find(Maps.ListOf(wardsByState, province), Old.WARD_PREFIXES, v);
      if exact.Some? { r := exact.value; } else { r := MatchWard(cat.N(v), province); }
    }

    method Snap(ai: Addr2, fallback: string) returns (r: Addr2)
      requires Valid()
      ensures r == cat.Snap(ai, fallback)
    {
      var ward := "";
      var province := SnapProvince(ai.province);
      if province == "" && fallback != "" { province := MatchProvince(cat.N(fallback)); }
      if province != "" {
        ward := SnapWard(ai.ward, province);
        if ward == "" && fallback != "" { ward := MatchWard(cat.N(fallback), province); }
      }
      r := Addr2(province, ward);
    }
  }

  method GroupWards(wards: seq<WardRow2>) returns (m: map<string, seq<string>>)
    ensures forall s :: Maps.ListOf(m, s) == WardsOf(wards, s)
  {
    m := map[];
    for i := 0 to |wards|
      invariant forall s :: Maps.ListOf(m, s) == WardsOf(wards[..i], s)
    {
      assert wards[..i + 1][..i] == wards[..i];
      m := m[wards[i].state := Maps.ListOf(m, wards[i].state) + [wards[i].ward]];
    }
    assert wards[..|wards|] == wards;
  }

  method CollectHints(c: Catalogue2, hints: seq<(string, string)>, stateByStripped: map<string, string>)
    returns (keys: seq<Key>)
    requires forall t :: Maps.Get(stateByStripped, t) == c.Names().StateByStripped(c.states, t)
    ensures keys == c.HintKeys(hints)
  {
    keys := [];
    for i := 0 to |hints|
      invariant keys == c.HintKeys(hints[..i])
    {
      assert hints[..i + 1][..i] == hints[..i];
      var st := Maps.Get(stateByStripped, hints[i].1);
      if st.Some? && st.value != "" {
        keys := keys + [Key(hints[i].0, st.value, 1)];
      }
    }
    assert hints[..|hints|] == hints;
  }

  method BuildProvinceKeys(c: Catalogue2) returns (keys: seq<Key>)
    ensures keys == SortByLen(c.ProvinceKeys())
  {
    var stateByStripped := Maps.IndexStates(c.Names());
    var names := Maps.PushNames(c.Names());
    var aliases := Maps.CollectAliases(c.Names(), ALIASES, stateByStripped);
    var hints := CollectHints(c, OLD_DISTRICT_HINTS, stateByStripped);
    keys := SortByLen(names + aliases + hints);
  }

  // ---- run: answers placed by index ----

  const BLANK := Addr2("", "")

  function Indices(n: nat): seq<nat> { seq(n, i requires 0 <= i < n => i) }

  /** `run`: None when the call or its parsing throws. */
  function Placed(addresses: seq<string>, reply: Reply<Addr2>): Option<seq<Addr2>> {
    var n := |addresses|;
    if !AnyLine(CleanAll(addresses), Indices(n)) then Some(seq(n, i requires 0 <= i < n => BLANK))
    else if reply.Failed? then None
    else Some(PlaceItems(reply.items, n))
  }

  function PlaceItems(items: seq<Item<Addr2>>, n: nat): (out: seq<Addr2>)
    ensures |out| == n
  {
    seq(n, i requires 0 <= i < n => var a := AnswerFor(items, n, i); if a.Some? then a.value else BLANK)
  }

  method Run(addresses: seq<string>, reply: Reply<Addr2>) returns (r: Option<seq<Addr2>>)
    ensures r == Placed(addresses, reply)
  {
    var n := |addresses|;
    var out := new Addr2[n](_ => BLANK);
    if !AnyLine(CleanAll(addresses), Indices(n)) {
      assert out[..] == seq(n, i requires 0 <= i < n => BLANK);
      return Some(out[..]);
    }
    if reply.Failed? { return None; }
    var items := reply.items;
    for j := 0 to |items|
      invariant forall k :: 0 <= k < n ==>
                  var a := AnswerFor(items[..j], n, k); out[k] == if a.Some? then a.value else BLANK
    {
      assert items[..j + 1][..j] == items[..j];
      var slot := SlotOf(items[j], n);
      SlotInRange(items[j], n);
      // A fractional index in range only adds a property to the array, never an element.
      if slot.At? { out[slot.k] := items[j].fields; }
    }
    assert items[..|items|] == items;
    assert out[..] == PlaceItems(items, n);
    r := Some(out[..]);
  }

  // ---- resolveGrounded ----

  predicate Missing(a: Addr2) { a.province == "" || a.ward == "" }

  function MissingFlags(r: seq<Addr2>): (f: seq<bool>)
    ensures |f| == |r|
  {
    seq(|r|, i requires 0 <= i < |r| => Missing(r[i]))
  }

  function Merge(c: Catalogue2, kept: Addr2, s: Addr2): Addr2 {
    Addr2(c.Names().Or(kept.province, s.province), c.Names().Or(kept.ward, s.ward))
  }

  /** The addresses sent along with the questions of tier 2. */
  function Asked(clean: seq<string>, miss: seq<nat>): (q: seq<string>)
    requires forall k :: 0 <= k < |miss| ==> miss[k] < |clean|
    ensures |q| == |miss|
  {
    seq(|miss|, k requires 0 <= k < |miss| => clean[miss[k]])
  }

  /** What tier 2 snaps for entry `i`; every missing entry is snapped once the call has succeeded. */
  function SnappedFor(c: Catalogue2, clean: seq<string>, r: seq<Addr2>, reply: Reply<Addr2>, i: nat): Option<Addr2>
    requires i < |r| == |clean|
  {
    var flags := MissingFlags(r);
    SelectPicks(flags);
    var miss := Select(flags);
    if !flags[i] || !AnyLine(clean, miss) then None
    else
      SelectRank(flags, i);
      var ai := Placed(Asked(clean, miss), reply);
      if ai.None? then None else Some(c.Snap(ai.value[Rank(flags, i)], clean[i]))
  }

  function Extracted(c: Catalogue2, clean: seq<string>, r: seq<Addr2>, reply: Reply<Addr2>): (out: seq<Addr2>)
    requires |r| == |clean|
    ensures |out| == |r|
  {
    seq(|r|, i requires 0 <= i < |r| =>
      var s := SnappedFor(c, clean, r, reply, i); if s.Some? then Merge(c, r[i], s.value) else r[i])
  }

  /** The effect of tier 2 entry by entry, once the raw answers `ai` are there. */
  lemma ExtractedAt(c: Catalogue2, clean: seq<string>, r: seq<Addr2>, reply: Reply<Addr2>, i: nat)
    requires i < |r| == |clean|
    ensures var flags := MissingFlags(r);
            var miss := Select(flags);
            var out := Extracted(c, clean, r, reply)[i];
            && (forall k :: 0 <= k < |miss| ==> miss[k] < |clean|)
            && (!flags[i] || !AnyLine(clean, miss) || Placed(Asked(clean, miss), reply).None? ==> out == r[i])
            && (forall k :: 0 <= k < |miss| && miss[k] == i && AnyLine(clean, miss) &&
                            Placed(Asked(clean, miss), reply).Some? ==>
                  out == Merge(c, r[i], c.Snap(Placed(Asked(clean, miss), reply).value[k], clean[i])))
  {
    var flags := MissingFlags(r);
    SelectPicks(flags);
    forall k | 0 <= k < |Select(flags)| && Select(flags)[k] == i ensures Rank(flags, i) == k {
      RankOfSelected(flags, k);
    }
  }

  method TierExtract(m: NewMatcher, clean: seq<string>, resolved: array<Addr2>, reply: Reply<Addr2>)
    requires m.Valid() && resolved.Length == |clean|
    modifies resolved
    ensures resolved[..] == Extracted(m.cat, clean, old(resolved[..]), reply)
  {
    ghost var r := resolved[..];
    ghost var want := Extracted(m.cat, clean, r, reply);
    var flags := MissingFlags(resolved[..]);
    var miss := Select(flags);
    SelectPicks(flags);
    if |miss| > 0 && AnyLine(clean, miss) {
      var ai := Run(Asked(clean, miss), reply);
      if ai.Some? {
        MergeAll(m, clean, resolved, miss, ai.value);
      }
    }
    forall i | 0 <= i < |r| ensures resolved[i] == want[i] {
      ExtractedAt(m.cat, clean, r, reply, i);
      if flags[i] { SelectRank(flags, i); }
    }
  }

  method MergeAll(m: NewMatcher, clean: seq<string>, resolved: array<Addr2>, miss: seq<nat>, ai: seq<Addr2>)
    requires m.Valid() && resolved.Length == |clean| && |ai| == |miss|
    requires forall k :: 0 <= k < |miss| ==> miss[k] < |clean|
    requires forall j, k :: 0 <= j < k < |miss| ==> miss[j] < miss[k]
    modifies resolved
    ensures forall k :: 0 <= k < |miss| ==>
              resolved[miss[k]] == Merge(m.cat, old(resolved[miss[k]]), m.cat.Snap(ai[k], clean[miss[k]]))
    ensures forall i :: 0 <= i < resolved.Length && i !in miss ==> resolved[i] == old(resolved[i])
  {
    hide Catalogue2.Snap;
    for k := 0 to |miss|
      invariant forall j :: 0 <= j < k ==>
                  resolved[miss[j]] == Merge(m.cat, old(resolved[miss[j]]), m.cat.Snap(ai[j], clean[miss[j]]))
      invariant forall i :: 0 <= i < resolved.Length && i !in miss[..k] ==> resolved[i] == old(resolved[i])
    {
      var oi := miss[k];
      assert oi !in miss[..k];
      assert miss[..k + 1] == miss[..k] + [oi];
      var snapped := m.Snap(ai[k], clean[oi]);
      resolved[oi] := Merge(m.cat, resolved[oi], snapped);
    }
    assert miss[..|miss|] == miss;
  }

  predicate Lacks(c: Catalogue2, a: Addr2) {
    a.province != "" && a.ward == "" && WardsOf(c.wards, a.province) != []
  }

  function LackFlags(c: Catalogue2, r: seq<Addr2>): (f: seq<bool>)
    ensures |f| == |r|
  {
    seq(|r|, i requires 0 <= i < |r| => Lacks(c, r[i]))
  }

  /** What one item makes of an entry: the snapped ward, None when it snaps to nothing. */
  function Pick(c: Catalogue2, item: Item<Addr2>, a: Addr2): Option<Addr2> {
    var v := c.SnapWard(item.fields.ward, a.province);
    if v == "" then None else Some(a.(ward := v))
  }

  function Chooser(c: Catalogue2): (Item<Addr2>, Addr2) -> Option<Addr2> {
    (item: Item<Addr2>, a: Addr2) => Pick(c, item, a)
  }

  lemma PicksOverwrite(c: Catalogue2)
    ensures Overwrites(Chooser(c))
  {
    hide Catalogue2.SnapWard;
  }

  function PickedAll(c: Catalogue2, r: seq<Addr2>, reply: Reply<Addr2>): (out: seq<Addr2>)
    ensures |out| == |r|
  {
    PickAll(Chooser(c), LackFlags(c, r), r, reply)
  }

  /** One item of the reply: writes its pick into the entry it answers, if it names a question. */
  method PickOne(m: NewMatcher, resolved: array<Addr2>, miss: seq<nat>, item: Item<Addr2>)
    requires m.Valid() && forall k :: 0 <= k < |miss| ==> miss[k] < resolved.Length
    modifies resolved
    ensures match SlotOf(item, |miss|)
            case At(k) =>
              && k < |miss|
              && var v := Pick(m.cat, item, old(resolved[miss[k]]));
                 resolved[..] == if v.Some? then old(resolved[..])[miss[k] := v.value] else old(resolved[..])
            case _ => resolved[..] == old(resolved[..])
  {
    hide Catalogue2.SnapWard;
    var slot := SlotOf(item, |miss|);
    SlotInRange(item, |miss|);
    if slot.At? {
      var oi := miss[slot.k];
      var v := m.SnapWard(item.fields.ward, resolved[oi].province);
      if v != "" {
        resolved[oi] := resolved[oi].(ward := v);
      }
    }
  }

  method TierPick(m: NewMatcher, resolved: array<Addr2>, reply: Reply<Addr2>)
    requires m.Valid()
    modifies resolved
    ensures resolved[..] == PickedAll(m.cat, old(resolved[..]), reply)
  {
    hide Pick, PickFrom, Overwrites, LackFlags, SlotOf;
    ghost var r := resolved[..];
    ghost var choose := Chooser(m.cat);
    var flags := LackFlags(m.cat, resolved[..]);
    var miss := Select(flags);
    PicksOverwrite(m.cat);
    if |miss| > 0 && reply.Items? {
      var items := reply.items;
      HeardPrefix(items, |miss|);
      SelectPicks(flags);
      PickedNothing(choose, flags, r, items);
      var j := 0;
      while j < |items| && !SlotOf(items[j], |miss|).Between?
        invariant 0 <= j <= |Heard(items, |miss|)|
        invariant resolved[..] == PickFrom(choose, flags, r, items[..j])
      {
        PickStep(choose, flags, r, items, j);
        PickOne(m, resolved, miss, items[j]);
        j := j + 1;
      }
      assert items[..j] == Heard(items, |miss|);
    } else {
      NothingAsked(choose, flags, r, reply);
    }
  }

  function ResolveAll(c: Catalogue2, clean: seq<string>): (r: seq<Addr2>)
    ensures |r| == |clean|
  {
    seq(|clean|, i requires 0 <= i < |clean| => c.Resolve(clean[i]))
  }

  function GroundedResult(c: Catalogue2, addresses: seq<string>, useAi: bool, extract: Reply<Addr2>,
                          ward: Reply<Addr2>): seq<Addr2> {
    var clean := CleanAll(addresses);
    var first := ResolveAll(c, clean);
    if !useAi then first else PickedAll(c, Extracted(c, clean, first, extract), ward)
  }

  method ResolveGroundedAll(m: NewMatcher, addresses: seq<string>, useAi: bool, extract: Reply<Addr2>,
                            ward: Reply<Addr2>)
    returns (resolved: array<Addr2>)
    requires m.Valid()
    ensures fresh(resolved) && resolved[..] == GroundedResult(m.cat, addresses, useAi, extract, ward)
  {
    hide Catalogue2.Resolve, Extracted, PickedAll;
    var clean := CleanAll(addresses);
    resolved := new Addr2[|clean|](_ => BLANK);
    for i := 0 to |clean|
      invariant forall j :: 0 <= j < i ==> resolved[j] == m.cat.Resolve(clean[j])
    {
      var a := m.Resolve(clean[i]);
      resolved[i] := a;
    }
    assert resolved[..] == ResolveAll(m.cat, clean);
    if !useAi { return; }
    TierExtract(m, clean, resolved, extract);
    TierPick(m, resolved, ward);
  }

  // ---- good answers are taken ----

  /**
    Result `k` of `run` is what the last item numbered `k + 1` says, blank when no item has that
    number; nothing lands anywhere else.
  */
  lemma PlacedAt(addresses: seq<string>, items: seq<Item<Addr2>>, k: nat)
    requires k < |addresses|
    ensures Placed(addresses, Items(items)).Some? && |Placed(addresses, Items(items)).value| == |addresses|
    ensures var out := Placed(addresses, Items(items)).value[k];
            if |addresses| < 10 && forall i :: 0 <= i < |addresses| ==> Clean(addresses[i]) == "" then
              out == Addr2("", "")
            else
              || (out == Addr2("", "") && forall j :: 0 <= j < |items| ==> items[j].index != Some((k + 1) as real))
              || (exists j :: 0 <= j < |items| && items[j].index == Some((k + 1) as real) && out == items[j].fields
                              && forall l :: j < l < |items| ==> items[l].index != Some((k + 1) as real))
  {
    hide Clean;
    var n := |addresses|;
    AnyLineIff(CleanAll(addresses), Indices(n));
    assert forall i :: 0 <= i < n ==> CleanAll(addresses)[Indices(n)[i]] == Clean(addresses[i]);
    AnswerIsLast(items, n, k);
  }

  /** How many of the first `i` entries have an empty level. */
  function AskedBefore(r: seq<Addr2>, i: nat): nat
    requires i <= |r|
  {
    if i == 0 then 0 else AskedBefore(r, i - 1) + (if r[i - 1].province == "" || r[i - 1].ward == "" then 1 else 0)
  }

  lemma {:induction false} RankIsAskedBefore(r: seq<Addr2>, i: nat)
    requires i <= |r|
    ensures Rank(MissingFlags(r), i) == AskedBefore(r, i)
  {
    var flags := MissingFlags(r);
    if i > 0 {
      RankIsAskedBefore(r, i - 1);
      assert flags[..i][..i - 1] == flags[..i - 1];
    }
  }

  /** A listed, unshadowed province and ward are snapped to themselves, whatever the address says. */
  lemma RowSnaps(c: Catalogue2, row: Addr2, address: string)
    requires row.province in c.states && row.ward in WardsOf(c.wards, row.province)
    requires c.N(row.province) != "" && row.ward != ""
    requires !Old.Shadowed(c.Names(), c.states, Old.STATE_PREFIXES, row.province)
    requires !Old.Shadowed(c.Names(), WardsOf(c.wards, row.province), Old.WARD_PREFIXES, row.ward)
    ensures c.Snap(row, address) == row
  {
    Old.FindIdentity(c.Names(), c.states, Old.STATE_PREFIXES, row.province);
    Old.FindIdentity(c.Names(), WardsOf(c.wards, row.province), Old.WARD_PREFIXES, row.ward);
    Old.NormOfEmpty(c.Names());
  }

  /** The last item with an entry's number fills every level of it that was empty and leaves the other alone. */
  lemma ExtractTaken(c: Catalogue2, clean: seq<string>, r: seq<Addr2>, items: seq<Item<Addr2>>, i: nat, j: nat)
    requires i < |r| == |clean| && Clean(clean[i]) != "" && clean[i] != ""
    requires r[i].province == "" || r[i].ward == ""
    requires j < |items| && items[j].index == Some((AskedBefore(r, i) + 1) as real)
    requires forall l :: j < l < |items| ==> items[l].index != Some((AskedBefore(r, i) + 1) as real)
    requires c.Snap(items[j].fields, clean[i]) == items[j].fields
    ensures var out, row := Extracted(c, clean, r, Items(items))[i], items[j].fields;
            && out.province == (if r[i].province != "" then r[i].province else row.province)
            && out.ward == (if r[i].ward != "" then r[i].ward else row.ward)
  {
    hide Catalogue2.Snap, Clean;
    var flags := MissingFlags(r);
    var k, miss := Rank(flags, i), Select(flags);
    RankIsAskedBefore(r, i);
    SelectPicks(flags);
    SelectRank(flags, i);
    AnyLineIff(clean, miss);
    var asked := Asked(clean, miss);
    assert asked[k] == clean[i] && CleanAll(asked)[k] == Clean(clean[i]);
    AnyLineIff(CleanAll(asked), Indices(|asked|));
    assert Indices(|asked|)[k] == k;
    AnswerIs(items, |asked|, k, j);
  }

  /** How many of the first `i` entries tier 3 asks about: province known, ward empty, the province lists wards. */
  function ListedBefore(c: Catalogue2, r: seq<Addr2>, i: nat): nat
    requires i <= |r|
  {
    if i == 0 then 0
    else
      var a := r[i - 1];
      ListedBefore(c, r, i - 1) +
      (if a.province != "" && a.ward == "" && WardsOf(c.wards, a.province) != [] then 1 else 0)
  }

  lemma {:induction false} RankIsListedBefore(c: Catalogue2, r: seq<Addr2>, i: nat)
    requires i <= |r|
    ensures Rank(LackFlags(c, r), i) == ListedBefore(c, r, i)
  {
    var flags := LackFlags(c, r);
    if i > 0 {
      RankIsListedBefore(c, r, i - 1);
      assert flags[..i][..i - 1] == flags[..i - 1];
    }
  }

  /**
    Tier 3 takes a listed, unshadowed ward for the question it answers, unless an item before it
    throws or a later one replaces it.
  */
  lemma PickTaken(c: Catalogue2, r: seq<Addr2>, items: seq<Item<Addr2>>, i: nat, j: nat)
    requires i < |r| && j < |items| && r[i].province != "" && r[i].ward == ""
    requires items[j].fields.ward != "" && items[j].fields.ward in WardsOf(c.wards, r[i].province)
    requires !Old.Shadowed(c.Names(), WardsOf(c.wards, r[i].province), Old.WARD_PREFIXES, items[j].fields.ward)
    requires items[j].index == Some((ListedBefore(c, r, i) + 1) as real)
    requires j < |Heard(items, ListedBefore(c, r, |r|))|
    requires forall l :: j < l < |items| && l < |Heard(items, ListedBefore(c, r, |r|))| ==>
               items[l].index != Some((ListedBefore(c, r, i) + 1) as real)
    ensures PickedAll(c, r, Items(items))[i] == Addr2(r[i].province, items[j].fields.ward)
  {
    RankIsListedBefore(c, r, i);
    RankIsListedBefore(c, r, |r|);
    var flags := LackFlags(c, r);
    assert flags[..|r|] == flags;
    var n := |Select(flags)|;
    HeardPrefix(items, n);
    SelectRank(flags, i);
    Old.FindIdentity(c.Names(), WardsOf(c.wards, r[i].province), Old.WARD_PREFIXES, items[j].fields.ward);
    PickIs(c, Heard(items, n), n, Rank(flags, i), r[i], j);
  }

  lemma {:induction false} PickIs(c: Catalogue2, items: seq<Item<Addr2>>, n: nat, k: nat, a: Addr2, j: nat)
    requires k < n && j < |items| && items[j].index == Some((k + 1) as real)
    requires c.SnapWard(items[j].fields.ward, a.province) != ""
    requires forall l :: j < l < |items| ==> items[l].index != Some((k + 1) as real)
    ensures PickFor(Chooser(c), items, n, k, a) == a.(ward := c.SnapWard(items[j].fields.ward, a.province))
  {
    hide Catalogue2.SnapWard;
    SlotIs(items[|items| - 1], n, k);
    if j < |items| - 1 {
      PickIs(c, items[..|items| - 1], n, k, a, j);
    }
  }

  /**
    The tiers build on each other: an entry that tier 2 leaves with a province only, for which the reply
    of tier 3 picks a ward of that province, ends up with both.
  */
  lemma ProvinceThenWard(c: Catalogue2, addresses: seq<string>, extract: Reply<Addr2>, items: seq<Item<Addr2>>,
                         i: nat, j: nat, r: seq<Addr2>)
    requires r == Extracted(c, CleanAll(addresses), ResolveAll(c, CleanAll(addresses)), extract)
    requires i < |r| && j < |items| && r[i].province != "" && r[i].ward == ""
    requires items[j].fields.ward != "" && items[j].fields.ward in WardsOf(c.wards, r[i].province)
    requires !Old.Shadowed(c.Names(), WardsOf(c.wards, r[i].province), Old.WARD_PREFIXES, items[j].fields.ward)
    requires items[j].index == Some((ListedBefore(c, r, i) + 1) as real)
    requires j < |Heard(items, ListedBefore(c, r, |r|))|
    requires forall l :: j < l < |items| && l < |Heard(items, ListedBefore(c, r, |r|))| ==>
               items[l].index != Some((ListedBefore(c, r, i) + 1) as real)
    ensures |GroundedResult(c, addresses, true, extract, Items(items))| == |r| &&
            GroundedResult(c, addresses, true, extract, Items(items))[i] == Addr2(r[i].province, items[j].fields.ward)
  {
    hide Extracted, ResolveAll, PickedAll, WardsOf, Old.Shadowed, ListedBefore, Heard;
    PickTaken(c, r, items, i, j);
  }

  // ---- what survives every reply ----

  predicate Keeps(a: Addr2, b: Addr2) {
    (a.province != "" ==> b.province == a.province) && (a.ward != "" ==> b.ward == a.ward)
  }

  predicate TakenLegal(c: Catalogue2, kept: Addr2, s: Addr2) {
    kept.ward == "" && s.ward != "" && kept.province != "" && s.province != kept.province ==>
      c.WardLegal(s.ward, kept.province)
  }

  lemma {:induction false} PickEffect(c: Catalogue2, items: seq<Item<Addr2>>, n: nat, k: nat, a: Addr2)
    requires Lacks(c, a) && c.InCatalogue(a)
    ensures var p := PickFor(Chooser(c), items, n, k, a);
            Keeps(a, p) && c.InCatalogue(p) && (c.Nested(p) <==> c.Nested(a))
  {
    if items != [] {
      var last := items[|items| - 1];
      if SlotOf(last, n) == At(k) && c.SnapWard(last.fields.ward, a.province) != "" {
        SnapWardLegal(c, last.fields.ward, a.province);
        NewMatch.WardsOfRows(c.wards, a.province, c.SnapWard(last.fields.ward, a.province));
      } else {
        PickEffect(c, items[..|items| - 1], n, k, a);
      }
    }
  }

  lemma GroundedKeeps(c: Catalogue2, addresses: seq<string>, useAi: bool, extract: Reply<Addr2>,
                      ward: Reply<Addr2>, i: nat)
    requires i < |addresses|
    ensures |GroundedResult(c, addresses, useAi, extract, ward)| == |addresses|
    ensures var clean := CleanAll(addresses);
            var first := ResolveAll(c, clean);
            var s := SnappedFor(c, clean, first, extract, i);
            var out := GroundedResult(c, addresses, useAi, extract, ward)[i];
            && Keeps(first[i], out)
            && c.InCatalogue(out)
            && (c.Nested(out) <==> (useAi && s.Some? ==> TakenLegal(c, first[i], s.value)))
  {
    hide Catalogue2.Resolve, Catalogue2.Snap;
    var clean := CleanAll(addresses);
    var first := ResolveAll(c, clean);
    ResolveGrounded(c, clean[i]);
    if useAi {
      var second := Extracted(c, clean, first, extract);
      var s := SnappedFor(c, clean, first, extract, i);
      if s.Some? {
        var flags := MissingFlags(first);
        SelectPicks(flags);
        SelectRank(flags, i);
        SnapGrounded(c, Placed(Asked(clean, Select(flags)), extract).value[Rank(flags, i)], clean[i]);
      }
      var lack := LackFlags(c, second);
      if lack[i] && ward.Items? {
        PickEffect(c, Heard(ward.items, |Select(lack)|), |Select(lack)|, Rank(lack, i), second[i]);
      }
    }
  }

  /**
    For every catalogue, address list and replies: one entry per address in order; no filled level of
    the rule-based tier is ever changed; a ward needs a province; catalogue strings only; and the ward
    is listed under the province exactly when the one tier 2 took is listed under the kept province.
  */
  lemma GroundedSurvives(c: Catalogue2, addresses: seq<string>, useAi: bool, extract: Reply<Addr2>,
                         ward: Reply<Addr2>, i: nat)
    requires i < |addresses|
    ensures |GroundedResult(c, addresses, useAi, extract, ward)| == |addresses|
    ensures var first := c.Resolve(Clean(addresses[i]));
            var out := GroundedResult(c, addresses, useAi, extract, ward)[i];
            var taken := SnappedFor(c, CleanAll(addresses), ResolveAll(c, CleanAll(addresses)), extract, i);
            && (first.province != "" ==> out.province == first.province)
            && (first.ward != "" ==> out.ward == first.ward)
            && (out.ward != "" ==> out.province != "")
            && (out.province != "" ==> out.province in c.states)
            && (out.ward != "" ==> exists r :: r in c.wards && r.ward == out.ward)
            && (!useAi ==> out == first)
            && ((out.ward != "" ==> WardRow2(out.province, out.ward) in c.wards) <==>
                  (useAi && taken.Some? && first.ward == "" && taken.value.ward != "" && first.province != "" &&
                   taken.value.province != first.province ==>
                     WardRow2(first.province, taken.value.ward) in c.wards))
  {
    hide Catalogue2.Resolve, SnappedFor, GroundedResult, Clean;
    GroundedKeeps(c, addresses, useAi, extract, ward, i);
    GroundedWithoutAi(c, addresses, useAi, extract, ward, i);
    var first := c.Resolve(Clean(addresses[i]));
    var out := GroundedResult(c, addresses, useAi, extract, ward)[i];
    NewMatch.WardsOfRows(c.wards, out.province, out.ward);
    var taken := SnappedFor(c, CleanAll(addresses), ResolveAll(c, CleanAll(addresses)), extract, i);
    if taken.Some? {
      NewMatch.WardsOfRows(c.wards, first.province, taken.value.ward);
    }
  }

  lemma GroundedWithoutAi(c: Catalogue2, addresses: seq<string>, useAi: bool, extract: Reply<Addr2>,
                          ward: Reply<Addr2>, i: nat)
    requires i < |addresses|
    ensures |GroundedResult(c, addresses, useAi, extract, ward)| == |addresses|
    ensures !useAi ==> GroundedResult(c, addresses, useAi, extract, ward)[i] == c.Resolve(Clean(addresses[i]))
  {
    hide Catalogue2.Resolve, Clean, PickedAll, Extracted;
  }
}
