/**
  Replies of the AI, the numbered questions they answer, and what picking from a reply does to a
  result array, for both services.

  A reply is arbitrary: the call may fail, the items may name any index (missing, out of range,
  fractional, repeated) and carry any strings.
*/
module AiReply {
  import opened Text

  /** One element of `items`: the number `i` (None when it is not a number) and its strings after `normalizeStr`. */
  datatype Item<F> = Item(index: Option<real>, fields: F)

  /** `Failed` covers a failed call, unparsable JSON and a null body. */
  datatype Reply<F> = Failed | Items(items: seq<Item<F>>)

  datatype Slot = Outside | At(k: nat) | Between

  /** Where `r.i - 1` points in a list of `n` questions. */
  function SlotOf<F>(item: Item<F>, n: nat): Slot {
    if item.index.None? then Outside
    else
      var k := item.index.value - 1.0;
      if k < 0.0 || k >= n as real then Outside
      else if k.Floor as real == k then At(k.Floor)
      else Between
  }

  lemma SlotInRange<F>(item: Item<F>, n: nat)
    ensures SlotOf(item, n).At? ==> SlotOf(item, n).k < n
  {
  }

  /** The questions are numbered from 1: number `k + 1` answers question `k`, and no other number does. */
  lemma SlotIs<F>(item: Item<F>, n: nat, k: nat)
    ensures SlotOf(item, n) == At(k) <==> k < n && item.index == Some((k + 1) as real)
  {
    if item.index.Some? {
      var x := item.index.value - 1.0;
      if x == k as real {
        assert x.Floor == k;
      }
      assert x.Floor as real == x && x.Floor == k ==> x == k as real;
    }
  }

  /** Between two questions lie the fractional numbers from 1 to below `n + 1`. */
  lemma SlotBetween<F>(item: Item<F>, n: nat)
    ensures SlotOf(item, n).Between? <==>
            item.index.Some? && 1.0 <= item.index.value < (n + 1) as real
            && item.index.value.Floor as real != item.index.value
  {
  }

  // ---- the questions: indices of the entries a tier asks about ----

  function Select(flags: seq<bool>): seq<nat> {
    if flags == [] then []
    else Select(flags[..|flags| - 1]) + (if flags[|flags| - 1] then [|flags| - 1] else [])
  }

  /** The position of entry `i` among the questions. */
  function Rank(flags: seq<bool>, i: nat): nat
    requires i <= |flags|
  {
    |Select(flags[..i])|
  }

  lemma {:induction false} SelectPicks(flags: seq<bool>)
    ensures forall k :: 0 <= k < |Select(flags)| ==> Select(flags)[k] < |flags| && flags[Select(flags)[k]]
    ensures forall j, k :: 0 <= j < k < |Select(flags)| ==> Select(flags)[j] < Select(flags)[k]
  {
    if flags != [] {
      SelectPicks(flags[..|flags| - 1]);
    }
  }

  lemma {:induction false} SelectRank(flags: seq<bool>, i: nat)
    requires i < |flags| && flags[i]
    ensures Rank(flags, i) < |Select(flags)| && Select(flags)[Rank(flags, i)] == i
  {
    if i < |flags| - 1 {
      SelectRank(flags[..|flags| - 1], i);
      assert flags[..|flags| - 1][..i] == flags[..i];
    }
  }

  lemma RankOfSelected(flags: seq<bool>, k: nat)
    requires k < |Select(flags)|
    ensures Select(flags)[k] < |flags| && flags[Select(flags)[k]] && Rank(flags, Select(flags)[k]) == k
  {
    SelectPicks(flags);
    SelectRank(flags, Select(flags)[k]);
  }

  function DecimalDigits(n: nat): nat { if n < 10 then 1 else 1 + DecimalDigits(n / 10) }

  /** Some line `${k + 1}. ${clean}` is longer than three characters, so the AI is asked at all. */
  predicate AnyLine(clean: seq<string>, miss: seq<nat>)
    requires forall k :: 0 <= k < |miss| ==> miss[k] < |clean|
  {
    exists k :: 0 <= k < |miss| && DecimalDigits(k + 1) + 2 + |clean[miss[k]]| > 3
  }

  /** `aiByK.get(k)` after the loop: the last item that named slot `k`. */
  function AnswerFor<F>(items: seq<Item<F>>, n: nat, k: nat): Option<F> {
    if items == [] then None
    else if SlotOf(items[|items| - 1], n) == At(k) then Some(items[|items| - 1].fields)
    else AnswerFor(items[..|items| - 1], n, k)
  }

  /** The answer for question `k` is the one of the last item numbered `k + 1`; no other item counts. */
  lemma {:induction false} AnswerIsLast<F>(items: seq<Item<F>>, n: nat, k: nat)
    requires k < n
    ensures match AnswerFor(items, n, k)
            case None => forall j :: 0 <= j < |items| ==> items[j].index != Some((k + 1) as real)
            case Some(f) =>
              exists j :: 0 <= j < |items| && items[j].index == Some((k + 1) as real) && items[j].fields == f
                          && forall l :: j < l < |items| ==> items[l].index != Some((k + 1) as real)
  {
    if items != [] {
      var last := |items| - 1;
      SlotIs(items[last], n, k);
      if SlotOf(items[last], n) != At(k) {
        AnswerIsLast(items[..last], n, k);
      }
    }
  }

  lemma {:induction false} AnswerIs<F>(items: seq<Item<F>>, n: nat, k: nat, j: nat)
    requires k < n && j < |items| && items[j].index == Some((k + 1) as real)
    requires forall l :: j < l < |items| ==> items[l].index != Some((k + 1) as real)
    ensures AnswerFor(items, n, k) == Some(items[j].fields)
  {
    SlotIs(items[|items| - 1], n, k);
    if j < |items| - 1 {
      AnswerIs(items[..|items| - 1], n, k, j);
    }
  }

  method CollectAnswers<F>(items: seq<Item<F>>, n: nat) returns (aiByK: map<nat, F>)
    ensures forall k: nat :: AnswerFor(items, n, k) == if k in aiByK then Some(aiByK[k]) else None
    ensures forall k: nat :: k in aiByK <==>
              k < n && exists j :: 0 <= j < |items| && items[j].index == Some((k + 1) as real)
  {
    aiByK := map[];
    for j := 0 to |items|
      invariant forall k: nat :: AnswerFor(items[..j], n, k) == if k in aiByK then Some(aiByK[k]) else None
    {
      assert items[..j + 1][..j] == items[..j];
      var slot := SlotOf(items[j], n);
      // A fractional index is stored under a key that no question ever looks up.
      if slot.At? {
        aiByK := aiByK[slot.k := items[j].fields];
      }
    }
    assert items[..|items|] == items;
    forall k: nat ensures k in aiByK <==>
        k < n && exists j :: 0 <= j < |items| && items[j].index == Some((k + 1) as real)
    {
      if k < n {
        AnswerIsLast(items, n, k);
      } else {
        NoAnswerBeyond(items, n, k);
      }
    }
  }

  lemma {:induction false} NoAnswerBeyond<F>(items: seq<Item<F>>, n: nat, k: nat)
    requires k >= n
    ensures AnswerFor(items, n, k).None?
  {
    if items != [] {
      SlotInRange(items[|items| - 1], n);
      NoAnswerBeyond(items[..|items| - 1], n, k);
    }
  }

  /** Some line is long enough exactly when an address is non-empty or a question has two digits. */
  lemma AnyLineIff(clean: seq<string>, miss: seq<nat>)
    requires forall k :: 0 <= k < |miss| ==> miss[k] < |clean|
    ensures AnyLine(clean, miss) <==> |miss| >= 10 || exists k :: 0 <= k < |miss| && clean[miss[k]] != ""
  {
    if |miss| >= 10 {
      assert DecimalDigits(9 + 1) == 2 && |clean[miss[9]]| >= 0;
    }
  }

  /** The items processed before a fractional index in range raises an exception and ends the tier. */
  function Heard<F>(items: seq<Item<F>>, n: nat): seq<Item<F>> {
    if items == [] || SlotOf(items[0], n).Between? then [] else [items[0]] + Heard(items[1..], n)
  }

  lemma {:induction false} HeardPrefix<F>(items: seq<Item<F>>, n: nat)
    ensures |Heard(items, n)| <= |items| && Heard(items, n) == items[..|Heard(items, n)|]
    ensures forall j :: 0 <= j < |Heard(items, n)| ==> !SlotOf(items[j], n).Between?
    ensures |Heard(items, n)| < |items| ==> SlotOf(items[|Heard(items, n)|], n).Between?
  {
    if items != [] && !SlotOf(items[0], n).Between? {
      HeardPrefix(items[1..], n);
    }
  }

  // ---- picks: the last usable item for a question is written into the entry it asks about ----

  /**
    The entry that asked question `k` after `items`: `choose` says what one item makes of an entry,
    None when it picks nothing usable.
  */
  function PickFor<A, F>(choose: (Item<F>, A) -> Option<A>, items: seq<Item<F>>, n: nat, k: nat, a: A): A {
    if items == [] then a
    else
      var last := items[|items| - 1];
      if SlotOf(last, n) == At(k) && choose(last, a).Some? then choose(last, a).value
      else PickFor(choose, items[..|items| - 1], n, k, a)
  }

  /** The result array once `items` have been processed; `flags` marks the entries that were asked about. */
  function PickFrom<A, F>(choose: (Item<F>, A) -> Option<A>, flags: seq<bool>, r: seq<A>, items: seq<Item<F>>)
    : (out: seq<A>)
    requires |flags| == |r|
    ensures |out| == |r|
  {
    var n := |Select(flags)|;
    seq(|r|, i requires 0 <= i < |r| => if flags[i] then PickFor(choose, items, n, Rank(flags, i), r[i]) else r[i])
  }

  function PickAll<A, F>(choose: (Item<F>, A) -> Option<A>, flags: seq<bool>, r: seq<A>, reply: Reply<F>): (out: seq<A>)
    requires |flags| == |r|
    ensures |out| == |r|
  {
    if reply.Failed? then r else PickFrom(choose, flags, r, Heard(reply.items, |Select(flags)|))
  }

  /** A pick does not influence later ones: the next usable one replaces it. */
  ghost predicate Overwrites<A(!new), F(!new)>(choose: (Item<F>, A) -> Option<A>) {
    forall i, j, a :: choose(i, a).Some? ==> choose(j, choose(i, a).value) == choose(j, a)
  }

  lemma {:induction false} PickKeeps<A(!new), F(!new)>(choose: (Item<F>, A) -> Option<A>, items: seq<Item<F>>, n: nat,
                                                       k: nat, a: A, next: Item<F>)
    requires Overwrites(choose)
    ensures choose(next, PickFor(choose, items, n, k, a)) == choose(next, a)
  {
    if items != [] {
      PickKeeps(choose, items[..|items| - 1], n, k, a, next);
    }
  }

  /** Processing one more item changes at most the entry it names. */
  lemma PickStep<A(!new), F(!new)>(choose: (Item<F>, A) -> Option<A>, flags: seq<bool>, r: seq<A>,
                                   items: seq<Item<F>>, j: nat)
    requires |flags| == |r| && j < |items| && Overwrites(choose)
    ensures var miss := Select(flags);
            var before := PickFrom(choose, flags, r, items[..j]);
            match SlotOf(items[j], |miss|)
            case At(k) =>
              && k < |miss| && miss[k] < |r|
              && var v := choose(items[j], before[miss[k]]);
                 PickFrom(choose, flags, r, items[..j + 1]) == if v.Some? then before[miss[k] := v.value] else before
            case _ => PickFrom(choose, flags, r, items[..j + 1]) == before
  {
    hide Overwrites;
    var miss := Select(flags);
    assert items[..j + 1][..j] == items[..j];
    SlotInRange(items[j], |miss|);
    forall i | 0 <= i < |r| && flags[i] ensures Rank(flags, i) < |miss| && miss[Rank(flags, i)] == i {
      SelectRank(flags, i);
    }
    if SlotOf(items[j], |miss|).At? {
      var k := SlotOf(items[j], |miss|).k;
      RankOfSelected(flags, k);
      PickKeeps(choose, items[..j], |miss|, k, r[miss[k]], items[j]);
      var before := PickFrom(choose, flags, r, items[..j]);
      var after := PickFrom(choose, flags, r, items[..j + 1]);
      assert forall i :: 0 <= i < |r| && i != miss[k] ==> after[i] == before[i];
    }
  }

  /** Without a question or without a reply nothing changes. */
  lemma NothingAsked<A, F>(choose: (Item<F>, A) -> Option<A>, flags: seq<bool>, r: seq<A>, reply: Reply<F>)
    requires |flags| == |r| && (reply.Failed? || Select(flags) == [])
    ensures PickAll(choose, flags, r, reply) == r
  {
    forall i | 0 <= i < |r| ensures reply.Items? ==> !flags[i] {
      if flags[i] { SelectRank(flags, i); }
    }
  }

  lemma PickedNothing<A, F>(choose: (Item<F>, A) -> Option<A>, flags: seq<bool>, r: seq<A>, items: seq<Item<F>>)
    requires |flags| == |r|
    ensures PickFrom(choose, flags, r, items[..0]) == r
  {
  }
}
