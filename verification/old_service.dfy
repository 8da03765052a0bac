/**
  `SpxAddressOldService.run`: four tiers that fill the levels of each address.

  Tier 1 is the rule-based matcher. Tiers 2 to 4 each ask the AI once and merge what comes back
  into the result array in place. A reply is arbitrary here (see `AiReply`).
*/
module OldService {
  import opened Text
  import opened Phrase
  import opened OldMatch
  import opened OldMatcherObject
  import opened AiReply

  // ---- tier 2: free extraction, snapped and merged ----

  predicate Missing(a: Addr) { a.state == "" || a.city == "" || a.ward == "" }

  function MissingFlags(r: seq<Addr>): (f: seq<bool>)
    ensures |f| == |r|
  {
    seq(|r|, i requires 0 <= i < |r| => Missing(r[i]))
  }

  /** The tier-2 merge: a filled level is kept, an empty one is taken from `s`. */
  function Merge(c: Catalogue, kept: Addr, s: Addr): Addr {
    Addr(c.Or(kept.state, s.state), c.Or(kept.city, s.city), c.Or(kept.ward, s.ward))
  }

  /** The snapped answer that tier 2 merges into entry `i`, if there is one. */
  function SnappedFor(c: Catalogue, clean: seq<string>, r: seq<Addr>, reply: Reply<Addr>, i: nat): Option<Addr>
    requires i < |r| == |clean|
  {
    var flags := MissingFlags(r);
    SelectPicks(flags);
    if !flags[i] || !AnyLine(clean, Select(flags)) || reply.Failed? then None
    else
      var answer := AnswerFor(reply.items, |Select(flags)|, Rank(flags, i));
      if answer.None? then None else Some(c.Snap(answer.value, clean[i]))
  }

  function Extracted(c: Catalogue, clean: seq<string>, r: seq<Addr>, reply: Reply<Addr>): (out: seq<Addr>)
    requires |r| == |clean|
    ensures |out| == |r|
  {
    seq(|r|, i requires 0 <= i < |r| =>
      var s := SnappedFor(c, clean, r, reply, i); if s.Some? then Merge(c, r[i], s.value) else r[i])
  }

  /** The effect of tier 2 entry by entry. */
  lemma ExtractedAt(c: Catalogue, clean: seq<string>, r: seq<Addr>, reply: Reply<Addr>, i: nat)
    requires i < |r| == |clean|
    ensures var miss := Select(MissingFlags(r));
            var out := Extracted(c, clean, r, reply)[i];
            && (forall k :: 0 <= k < |miss| ==> miss[k] < |clean|)
            && (!Missing(r[i]) || !AnyLine(clean, miss) || reply.Failed? ==> out == r[i])
            && (forall k :: 0 <= k < |miss| && miss[k] == i && AnyLine(clean, miss) && reply.Items? ==>
                  var a := AnswerFor(reply.items, |miss|, k);
                  out == if a.Some? then Merge(c, r[i], c.Snap(a.value, clean[i])) else r[i])
  {
    hide Catalogue.Snap, AnswerFor;
    var flags := MissingFlags(r);
    SelectPicks(flags);
    forall k | 0 <= k < |Select(flags)| && Select(flags)[k] == i ensures Rank(flags, i) == k {
      RankOfSelected(flags, k);
    }
  }

  method TierExtract(m: OldMatcher, clean: seq<string>, resolved: array<Addr>, reply: Reply<Addr>)
    requires m.Valid() && resolved.Length == |clean|
    modifies resolved
    ensures resolved[..] == Extracted(m.cat, clean, old(resolved[..]), reply)
  {
    hide Catalogue.Snap, Extracted;
    ghost var r := resolved[..];
    ghost var want := Extracted(m.cat, clean, r, reply);
    var flags := MissingFlags(resolved[..]);
    var miss := Select(flags);
    SelectPicks(flags);
    if |miss| > 0 && AnyLine(clean, miss) && reply.Items? {
      var aiByK := CollectAnswers(reply.items, |miss|);
      MergeAnswers(m, clean, resolved, miss, aiByK);
    }
    forall i | 0 <= i < |r| ensures resolved[i] == want[i] {
      ExtractedAt(m.cat, clean, r, reply, i);
      if flags[i] { SelectRank(flags, i); }
    }
  }

  method MergeAnswers(m: OldMatcher, clean: seq<string>, resolved: array<Addr>, miss: seq<nat>, aiByK: map<nat, Addr>)
    requires m.Valid() && resolved.Length == |clean|
    requires forall k :: 0 <= k < |miss| ==> miss[k] < |clean|
    requires forall j, k :: 0 <= j < k < |miss| ==> miss[j] < miss[k]
    modifies resolved
    ensures forall k :: 0 <= k < |miss| ==>
              resolved[miss[k]] ==
              if k in aiByK then Merge(m.cat, old(resolved[miss[k]]), m.cat.Snap(aiByK[k], clean[miss[k]]))
                                   else old(resolved[miss[k]])
    ensures forall i :: 0 <= i < resolved.Length && i !in miss ==> resolved[i] == old(resolved[i])
  {
    hide Catalogue.Snap;
    for k := 0 to |miss|
      invariant forall j :: 0 <= j < k ==>
                  resolved[miss[j]] ==
                  if j in aiByK then Merge(m.cat, old(resolved[miss[j]]), m.cat.Snap(aiByK[j], clean[miss[j]]))
                                       else old(resolved[miss[j]])
      invariant forall i :: 0 <= i < resolved.Length && i !in miss[..k] ==> resolved[i] == old(resolved[i])
    {
      var oi := miss[k];
      assert oi !in miss[..k];
      assert miss[..k + 1] == miss[..k] + [oi];
      if k in aiByK {
        var snapped := m.Snap(aiByK[k], clean[oi]);
        resolved[oi] := Merge(m.cat, resolved[oi], snapped);
      }
    }
    assert miss[..|miss|] == miss;
  }

  // ---- tiers 3 and 4: the AI picks from the list of the known parent ----

  datatype Level = City | Ward

  predicate Lacks(c: Catalogue, level: Level, a: Addr) {
    match level
    case City => a.state != "" && a.city == "" && CitiesOf(c.cities, a.state) != []
    case Ward => a.state != "" && a.city != "" && a.ward == "" && WardsOf(c.wards, a.city) != []
  }

  function LackFlags(c: Catalogue, level: Level, r: seq<Addr>): (f: seq<bool>)
    ensures |f| == |r|
  {
    seq(|r|, i requires 0 <= i < |r| => Lacks(c, level, r[i]))
  }

  function SnapItem(c: Catalogue, level: Level, item: Item<Addr>, a: Addr): string {
    match level
    case City => c.SnapCity(item.fields.city, a.state)
    case Ward => c.SnapWard(item.fields.ward, a.city)
  }

  function SetLevel(level: Level, a: Addr, v: string): Addr {
    match level
    case City => a.(city := v)
    case Ward => a.(ward := v)
  }

  /** What one item makes of an entry: the level set to the snapped name, None when it snaps to nothing. */
  function Pick(c: Catalogue, level: Level, item: Item<Addr>, a: Addr): Option<Addr> {
    var v := SnapItem(c, level, item, a);
    if v == "" then None else Some(SetLevel(level, a, v))
  }

  function Chooser(c: Catalogue, level: Level): (Item<Addr>, Addr) -> Option<Addr> {
    (item: Item<Addr>, a: Addr) => Pick(c, level, item, a)
  }

  /** A tier only sets its own level, which its picks do not look at. */
  lemma PicksOverwrite(c: Catalogue, level: Level)
    ensures Overwrites(Chooser(c, level))
  {
    hide Catalogue.SnapCity, Catalogue.SnapWard;
  }

  function PickedAll(c: Catalogue, level: Level, r: seq<Addr>, reply: Reply<Addr>): (out: seq<Addr>)
    ensures |out| == |r|
  {
    PickAll(Chooser(c, level), LackFlags(c, level, r), r, reply)
  }

  method SnapReply(m: OldMatcher, level: Level, item: Item<Addr>, a: Addr) returns (v: string)
    requires m.Valid()
    ensures v == SnapItem(m.cat, level, item, a)
  {
    match level {
      case City => v := m.SnapCity(item.fields.city, a.state);
      case Ward => v := m.SnapWard(item.fields.ward, a.city);
    }
  }

  /** One item of the reply: writes its pick into the entry it answers, if it names a question. */
  method PickOne(m: OldMatcher, level: Level, resolved: array<Addr>, miss: seq<nat>, item: Item<Addr>)
    requires m.Valid() && forall k :: 0 <= k < |miss| ==> miss[k] < resolved.Length
    modifies resolved
    ensures match SlotOf(item, |miss|)
            case At(k) =>
              && k < |miss|
              && var v := Pick(m.cat, level, item, old(resolved[miss[k]]));
                 resolved[..] == if v.Some? then old(resolved[..])[miss[k] := v.value] else old(resolved[..])
            case _ => resolved[..] == old(resolved[..])
  {
    hide SnapItem, SetLevel;
    var slot := SlotOf(item, |miss|);
    SlotInRange(item, |miss|);
    if slot.At? {
      var oi := miss[slot.k];
      var v := SnapReply(m, level, item, resolved[oi]);
      if v != "" {
        resolved[oi] := SetLevel(level, resolved[oi], v);
      }
    }
  }

  method TierPick(m: OldMatcher, level: Level, resolved: array<Addr>, reply: Reply<Addr>)
    requires m.Valid()
    modifies resolved
    ensures resolved[..] == PickedAll(m.cat, level, old(resolved[..]), reply)
  {
    hide Pick, PickFrom, Overwrites, LackFlags;
    ghost var r := resolved[..];
    ghost var choose := Chooser(m.cat, level);
    var flags := LackFlags(m.cat, level, resolved[..]);
    var miss := Select(flags);
    PicksOverwrite(m.cat, level);
    if |miss| > 0 && reply.Items? {
      var items := reply.items;
      HeardPrefix(items, |miss|);
      SelectPicks(flags);
      PickedNothing(choose, flags, r, items);
      var j := 0;
      while j < |items| && !SlotOf(items[j], |miss|).Between?
        invariant 0 <= j <= |Heard(items, |miss|)|
        invariant resolved[..] == PickFrom(choose, flags, r, items[..j])
      {
        PickStep(choose, flags, r, items, j);
        PickOne(m, level, resolved, miss, items[j]);
        j := j + 1;
      }
      assert items[..j] == Heard(items, |miss|);
    } else {
      NothingAsked(choose, flags, r, reply);
    }
  }

  method TierResolve(m: OldMatcher, clean: seq<string>) returns (resolved: array<Addr>)
    requires m.Valid()
    ensures fresh(resolved) && resolved[..] == ResolveAll(m.cat, clean)
  {
    hide Catalogue.Resolve;
    resolved := new Addr[|clean|](_ => Addr("", "", ""));
    for i := 0 to |clean|
      invariant forall j :: 0 <= j < i ==> resolved[j] == m.cat.Resolve(clean[j])
    {
      var a := m.Resolve(clean[i]);
      resolved[i] := a;
    }
  }

  // ---- the service ----

  function ResolveAll(c: Catalogue, clean: seq<string>): seq<Addr> {
    seq(|clean|, i requires 0 <= i < |clean| => c.Resolve(clean[i]))
  }

  /** The three replies of one run, whatever they are. */
  datatype Replies = Replies(extract: Reply<Addr>, city: Reply<Addr>, ward: Reply<Addr>)

  function RunResult(c: Catalogue, addresses: seq<string>, useAi: bool, ai: Replies): seq<Addr> {
    var clean := CleanAll(addresses);
    var first := ResolveAll(c, clean);
    if !useAi then first
    else PickedAll(c, Ward, PickedAll(c, City, Extracted(c, clean, first, ai.extract), ai.city), ai.ward)
  }

  class SpxAddressOldService {
    var matcher: OldMatcher?

    ghost predicate Valid()
      reads this
    {
      matcher != null ==> matcher.Valid()
    }

    constructor ()
      ensures Valid() && matcher == null
    {
      matcher := null;
    }

    /** Builds the matcher from the database once and keeps it. */
    method GetMatcher(db: Catalogue) returns (m: OldMatcher)
      requires Valid()
      modifies this
      ensures Valid() && matcher == m && m.Valid()
      ensures if old(matcher) == null then m.cat == db else m == old(matcher)
    {
      if matcher == null {
        matcher := new OldMatcher(db);
      }
      m := matcher;
    }

    method Run(db: Catalogue, addresses: seq<string>, useAi: bool, ai: Replies) returns (resolved: array<Addr>)
      requires Valid()
      modifies this
      ensures Valid() && fresh(resolved) && matcher != null
      ensures old(matcher) != null ==> matcher == old(matcher)
      ensures old(matcher) == null ==> matcher.cat == db
      ensures resolved[..] == RunResult(matcher.cat, addresses, useAi, ai)
    {
      var m := GetMatcher(db);
      var clean := CleanAll(addresses);
      resolved := TierResolve(m, clean);
      if !useAi { return; }
      TierExtract(m, clean, resolved, ai.extract);
      TierPick(m, City, resolved, ai.city);
      TierPick(m, Ward, resolved, ai.ward);
    }
  }

  // ---- what survives every reply ----

  /** Every level filled in `a` reads the same in `b`. */
  predicate Keeps(a: Addr, b: Addr) {
    (a.state != "" ==> b.state == a.state) && (a.city != "" ==> b.city == a.city) && (a.ward != "" ==> b.ward == a.ward)
  }

  /** The kept parents already carry the levels that are taken from `s`, or allow them. */
  predicate TakenLegal(c: Catalogue, kept: Addr, s: Addr) {
    && (kept.city == "" && s.city != "" && kept.state != "" && s.state != kept.state ==>
          c.CityLegal(s.city, kept.state))
    && (kept.ward == "" && s.ward != "" && kept.city != "" && s.city != kept.city ==> c.WardLegal(s.ward, kept.city))
  }

  /** The merge keeps filled levels and prefix closure; it stays nested exactly when the taken levels are legal. */
  lemma MergeEffect(c: Catalogue, kept: Addr, s: Addr)
    requires Grounded(c, kept) && Grounded(c, s)
    ensures var m := Merge(c, kept, s);
            Keeps(kept, m) && c.PrefixClosed(m) && c.InCatalogue(m) && (c.Nested(m) <==> TakenLegal(c, kept, s))
  {
    GroundedInCatalogue(c, kept);
    GroundedInCatalogue(c, s);
  }

  /** Tiers 3 and 4: what a pick does to one entry it was asked about. */
  lemma {:induction false} PickEffect(c: Catalogue, level: Level, items: seq<Item<Addr>>, n: nat, k: nat, a: Addr)
    requires Lacks(c, level, a) && c.PrefixClosed(a) && c.InCatalogue(a)
    ensures var p := PickFor(Chooser(c, level), items, n, k, a);
            Keeps(a, p) && c.PrefixClosed(p) && c.InCatalogue(p) && (c.Nested(p) <==> c.Nested(a))
  {
    if items != [] {
      var last := items[|items| - 1];
      if SlotOf(last, n) == At(k) && SnapItem(c, level, last, a) != "" {
        SnapCityLegal(c, last.fields.city, a.state);
        SnapWardLegal(c, last.fields.ward, a.city);
        CitiesOfRows(c.cities, a.state, c.SnapCity(last.fields.city, a.state));
        WardsOfRows(c.wards, a.city, c.SnapWard(last.fields.ward, a.city));
      } else {
        PickEffect(c, level, items[..|items| - 1], n, k, a);
      }
    }
  }

  lemma PickAllEffect(c: Catalogue, level: Level, r: seq<Addr>, reply: Reply<Addr>, i: nat)
    requires i < |r| && c.PrefixClosed(r[i]) && c.InCatalogue(r[i])
    ensures var p := PickedAll(c, level, r, reply)[i];
            Keeps(r[i], p) && c.PrefixClosed(p) && c.InCatalogue(p) && (c.Nested(p) <==> c.Nested(r[i]))
  {
    var flags := LackFlags(c, level, r);
    var n := |Select(flags)|;
    if flags[i] && reply.Items? {
      PickEffect(c, level, Heard(reply.items, n), n, Rank(flags, i), r[i]);
    }
  }

  /** The tier-1 answer of entry `i` and what tier 2 merges into it. */
  function FirstAnswer(c: Catalogue, addresses: seq<string>, i: nat): Addr
    requires i < |addresses|
  {
    c.Resolve(Clean(addresses[i]))
  }

  function MergedIn(c: Catalogue, addresses: seq<string>, ai: Replies, i: nat): Option<Addr>
    requires i < |addresses|
  {
    var clean := CleanAll(addresses);
    SnappedFor(c, clean, ResolveAll(c, clean), ai.extract, i)
  }

  lemma RunKeeps(c: Catalogue, addresses: seq<string>, useAi: bool, ai: Replies, i: nat)
    requires i < |addresses|
    ensures |RunResult(c, addresses, useAi, ai)| == |addresses|
    ensures var out := RunResult(c, addresses, useAi, ai)[i];
            && Keeps(FirstAnswer(c, addresses, i), out)
            && c.PrefixClosed(out)
            && c.InCatalogue(out)
            && (c.Nested(out) <==>
                (useAi && MergedIn(c, addresses, ai, i).Some? ==>
                   TakenLegal(c, FirstAnswer(c, addresses, i), MergedIn(c, addresses, ai, i).value)))
  {
    var clean := CleanAll(addresses);
    var first := ResolveAll(c, clean);
    ResolveGrounded(c, clean[i]);
    GroundedInCatalogue(c, first[i]);
    if useAi {
      var second := Extracted(c, clean, first, ai.extract);
      var s := SnappedFor(c, clean, first, ai.extract, i);
      if s.Some? {
        var flags := MissingFlags(first);
        var answer := AnswerFor(ai.extract.items, |Select(flags)|, Rank(flags, i));
        SnapGrounded(c, answer.value, clean[i]);
        MergeEffect(c, first[i], s.value);
      }
      PickAllEffect(c, City, second, ai.city, i);
      PickAllEffect(c, Ward, PickedAll(c, City, second, ai.city), ai.ward, i);
    }
  }

  /**
    For every catalogue, address list and replies: one entry per address in order; no filled level
    of the rule-based tier is ever changed; every entry is prefix-closed and made of catalogue
    strings; and it is nested exactly when the levels tier 2 took are legal under the kept parents.
  */
  lemma RunSurvives(c: Catalogue, addresses: seq<string>, useAi: bool, ai: Replies, i: nat)
    requires i < |addresses|
    ensures |RunResult(c, addresses, useAi, ai)| == |addresses|
    ensures var first, out := c.Resolve(Clean(addresses[i])), RunResult(c, addresses, useAi, ai)[i];
            && (first.state != "" ==> out.state == first.state)
            && (first.city != "" ==> out.city == first.city)
            && (first.ward != "" ==> out.ward == first.ward)
            && (out.ward != "" ==> out.city != "") && (out.city != "" ==> out.state != "")
            && (out.state != "" ==> out.state in c.states)
            && (out.city != "" ==> exists r :: r in c.cities && r.city == out.city)
            && (out.ward != "" ==> exists r :: r in c.wards && r.ward == out.ward)
            && (!useAi ==> out == first)
    ensures var first, out := c.Resolve(Clean(addresses[i])), RunResult(c, addresses, useAi, ai)[i];
            var taken := MergedIn(c, addresses, ai, i);
            (out.city != "" ==> CityRow(out.state, out.city) in c.cities) &&
            (out.ward != "" ==> WardRow(out.city, out.ward) in c.wards) <==>
              (useAi && taken.Some? ==>
                 && (first.city == "" && taken.value.city != "" && first.state != ""
                     && taken.value.state != first.state ==>
                       CityRow(first.state, taken.value.city) in c.cities)
                 && (first.ward == "" && taken.value.ward != "" && first.city != ""
                     && taken.value.city != first.city ==>
                       WardRow(first.city, taken.value.ward) in c.wards))
  {
    hide Catalogue.Resolve, MergedIn, RunResult, Clean;
    RunKeeps(c, addresses, useAi, ai, i);
    RunWithoutAi(c, addresses, useAi, ai, i);
    var first, out := c.Resolve(Clean(addresses[i])), RunResult(c, addresses, useAi, ai)[i];
    CitiesOfRows(c.cities, out.state, out.city);
    WardsOfRows(c.wards, out.city, out.ward);
    var taken := MergedIn(c, addresses, ai, i);
    if taken.Some? {
      CitiesOfRows(c.cities, first.state, taken.value.city);
      WardsOfRows(c.wards, first.city, taken.value.ward);
    }
  }

  lemma RunWithoutAi(c: Catalogue, addresses: seq<string>, useAi: bool, ai: Replies, i: nat)
    requires i < |addresses|
    ensures |RunResult(c, addresses, useAi, ai)| == |addresses|
    ensures !useAi ==> RunResult(c, addresses, useAi, ai)[i] == c.Resolve(Clean(addresses[i]))
  {
    hide Catalogue.Resolve, Clean, PickedAll, Extracted;
  }

  // ---- good answers are taken ----

  /** A full catalogue row that is not shadowed is snapped to itself, whatever the address says. */
  lemma FullRowSnaps(c: Catalogue, row: Addr, address: string)
    requires Grounded(c, row) && Unshadowed(c, row) && row.ward != ""
    ensures c.Snap(row, address) == row
  {
    SnapIdentity(c, row);
    SnapLevels(c, row);
  }

  /** How many of the first `i` entries have an empty level: those are asked about before entry `i`. */
  function AskedBefore(r: seq<Addr>, i: nat): nat
    requires i <= |r|
  {
    if i == 0 then 0
    else
      AskedBefore(r, i - 1) + (if r[i - 1].state == "" || r[i - 1].city == "" || r[i - 1].ward == "" then 1 else 0)
  }

  lemma {:induction false} RankIsAskedBefore(r: seq<Addr>, i: nat)
    requires i <= |r|
    ensures Rank(MissingFlags(r), i) == AskedBefore(r, i)
  {
    var flags := MissingFlags(r);
    if i > 0 {
      RankIsAskedBefore(r, i - 1);
      assert flags[..i][..i - 1] == flags[..i - 1];
    }
  }

  /** An entry is asked about exactly when it has an empty level. */
  lemma AskedIffEmptyLevel(r: seq<Addr>, i: nat)
    requires i < |r|
    ensures i in Select(MissingFlags(r)) <==> r[i].state == "" || r[i].city == "" || r[i].ward == ""
  {
    var flags := MissingFlags(r);
    SelectPicks(flags);
    if flags[i] {
      SelectRank(flags, i);
    }
  }

  /**
    Tier 2 takes the last answer to a question, which is the one with its number: the questions are
    the entries with an empty level, numbered from 1. A full, unshadowed row fills every level that
    was empty and leaves the others alone.
  */
  lemma ExtractTaken(c: Catalogue, clean: seq<string>, r: seq<Addr>, items: seq<Item<Addr>>, i: nat, j: nat)
    requires i < |r| == |clean| && clean[i] != ""
    requires r[i].state == "" || r[i].city == "" || r[i].ward == ""
    requires j < |items| && Grounded(c, items[j].fields) && Unshadowed(c, items[j].fields) && items[j].fields.ward != ""
    requires items[j].index == Some((AskedBefore(r, i) + 1) as real)
    requires forall l :: j < l < |items| ==> items[l].index != Some((AskedBefore(r, i) + 1) as real)
    ensures var out, row := Extracted(c, clean, r, Items(items))[i], items[j].fields;
            && out.state == (if r[i].state != "" then r[i].state else row.state)
            && out.city == (if r[i].city != "" then r[i].city else row.city)
            && out.ward == (if r[i].ward != "" then r[i].ward else row.ward)
  {
    RankIsAskedBefore(r, i);
    var flags := MissingFlags(r);
    var n := |Select(flags)|;
    SelectPicks(flags);
    SelectRank(flags, i);
    var miss := Select(flags);
    assert DecimalDigits(Rank(flags, i) + 1) + 2 + |clean[miss[Rank(flags, i)]]| > 3;
    AnswerIs(items, n, Rank(flags, i), j);
    FullRowSnaps(c, items[j].fields, clean[i]);
  }

  /**
    How many of the first `i` entries a picking tier asks about: parent known, level empty, parent's list
    not empty.
  */
  function ListedBefore(c: Catalogue, level: Level, r: seq<Addr>, i: nat): nat
    requires i <= |r|
  {
    if i == 0 then 0
    else
      var a := r[i - 1];
      ListedBefore(c, level, r, i - 1) +
      (if match level
          case City => a.state != "" && a.city == "" && CitiesOf(c.cities, a.state) != []
          case Ward => a.state != "" && a.city != "" && a.ward == "" && WardsOf(c.wards, a.city) != []
       then 1 else 0)
  }

  lemma {:induction false} RankIsListedBefore(c: Catalogue, level: Level, r: seq<Addr>, i: nat)
    requires i <= |r|
    ensures Rank(LackFlags(c, level, r), i) == ListedBefore(c, level, r, i)
  {
    var flags := LackFlags(c, level, r);
    if i > 0 {
      RankIsListedBefore(c, level, r, i - 1);
      assert flags[..i][..i - 1] == flags[..i - 1];
    }
  }

  /** Item `j` carries the number of entry `i`, and no later item does before one whose number is fractional. */
  predicate Answers(c: Catalogue, level: Level, r: seq<Addr>, items: seq<Item<Addr>>, i: nat, j: nat) {
    && i < |r| && j < |items| && items[j].index == Some((ListedBefore(c, level, r, i) + 1) as real)
    && j < |Heard(items, ListedBefore(c, level, r, |r|))|
    && forall l :: j < l < |items| && l < |Heard(items, ListedBefore(c, level, r, |r|))| ==>
         items[l].index != Some((ListedBefore(c, level, r, i) + 1) as real)
  }

  /**
    Tiers 3 and 4 take a listed, unshadowed name for the question it answers, unless an item before it
    throws or a later one replaces it.
  */
  lemma PickTaken(c: Catalogue, level: Level, r: seq<Addr>, items: seq<Item<Addr>>, i: nat, j: nat)
    requires i < |r| && j < |items| && r[i].state != ""
    requires var fields := items[j].fields;
             match level
             case City => r[i].city == "" && fields.city != "" && fields.city in CitiesOf(c.cities, r[i].state)
                          && !Shadowed(c, CitiesOf(c.cities, r[i].state), CITY_PREFIXES, fields.city)
             case Ward => r[i].city != "" && r[i].ward == ""
                          && fields.ward != "" && fields.ward in WardsOf(c.wards, r[i].city)
                          && !Shadowed(c, WardsOf(c.wards, r[i].city), WARD_PREFIXES, fields.ward)
    requires Answers(c, level, r, items, i, j)
    ensures PickedAll(c, level, r, Items(items))[i] ==
            match level
            case City => Addr(r[i].state, items[j].fields.city, r[i].ward)
            case Ward => Addr(r[i].state, r[i].city, items[j].fields.ward)
  {
    RankIsListedBefore(c, level, r, i);
    RankIsListedBefore(c, level, r, |r|);
    assert LackFlags(c, level, r)[..|r|] == LackFlags(c, level, r);
    HeardPrefix(items, ListedBefore(c, level, r, |r|));
    SelectRank(LackFlags(c, level, r), i);
    var flags := LackFlags(c, level, r);
    var n := |Select(flags)|;
    var heard := Heard(items, n);
    match level {
      case City => FindIdentity(c, CitiesOf(c.cities, r[i].state), CITY_PREFIXES, heard[j].fields.city);
      case Ward => FindIdentity(c, WardsOf(c.wards, r[i].city), WARD_PREFIXES, heard[j].fields.ward);
    }
    PickIs(c, level, heard, n, Rank(flags, i), r[i], j);
  }

  lemma {:induction false} PickIs(c: Catalogue, level: Level, items: seq<Item<Addr>>, n: nat, k: nat, a: Addr, j: nat)
    requires k < n && j < |items| && items[j].index == Some((k + 1) as real) && SnapItem(c, level, items[j], a) != ""
    requires forall l :: j < l < |items| ==> items[l].index != Some((k + 1) as real)
    ensures PickFor(Chooser(c, level), items, n, k, a) == SetLevel(level, a, SnapItem(c, level, items[j], a))
  {
    SlotIs(items[|items| - 1], n, k);
    if j < |items| - 1 {
      PickIs(c, level, items[..|items| - 1], n, k, a, j);
    }
  }

  /** A city that the reply of tier 3 may pick for entry `a`, and a ward that the reply of tier 4 may. */
  predicate CityFits(c: Catalogue, a: Addr, city: string) {
    city != "" && city in CitiesOf(c.cities, a.state) && !Shadowed(c, CitiesOf(c.cities, a.state), CITY_PREFIXES, city)
  }

  predicate WardFits(c: Catalogue, city: string, ward: string) {
    ward != "" && ward in WardsOf(c.wards, city) && !Shadowed(c, WardsOf(c.wards, city), WARD_PREFIXES, ward)
  }

  /**
    The tiers build on each other: an entry that tier 2 leaves with a state only, for which the reply
    of tier 3 picks a city and the reply of tier 4 a ward of that very city, ends up with both.
  */
  lemma CityThenWard(c: Catalogue, addresses: seq<string>, ai: Replies, i: nat, j: nat, k: nat, r: seq<Addr>)
    requires r == Extracted(c, CleanAll(addresses), ResolveAll(c, CleanAll(addresses)), ai.extract)
    requires i < |r| && r[i].state != "" && r[i].city == "" && r[i].ward == ""
    requires ai.city.Items? && Answers(c, City, r, ai.city.items, i, j)
    requires ai.ward.Items? && Answers(c, Ward, PickedAll(c, City, r, ai.city), ai.ward.items, i, k)
    requires CityFits(c, r[i], ai.city.items[j].fields.city)
    requires WardFits(c, ai.city.items[j].fields.city, ai.ward.items[k].fields.ward)
    ensures |RunResult(c, addresses, true, ai)| == |r| &&
            RunResult(c, addresses, true, ai)[i] ==
            Addr(r[i].state, ai.city.items[j].fields.city, ai.ward.items[k].fields.ward)
  {
    hide Extracted, ResolveAll, PickedAll, CitiesOf, WardsOf, Shadowed, Answers, ListedBefore;
    AnswersExist(c, City, r, ai.city.items, i, j);
    AnswersExist(c, Ward, PickedAll(c, City, r, ai.city), ai.ward.items, i, k);
    PickTaken(c, City, r, ai.city.items, i, j);
    PickTaken(c, Ward, PickedAll(c, City, r, ai.city), ai.ward.items, i, k);
    assert ai.city == Items(ai.city.items) && ai.ward == Items(ai.ward.items);
  }

  lemma AnswersExist(c: Catalogue, level: Level, r: seq<Addr>, items: seq<Item<Addr>>, i: nat, j: nat)
    requires Answers(c, level, r, items, i, j)
    ensures i < |r| && j < |items|
  {
  }
}
