/**
  `bestPhrase` and the key lists it scans, as both address matchers build them.

  A key is a phrase, the catalogue string it stands for, and a weight `len` (usually the phrase
  length, but 3 and 2 for the "q 5" / "q5" forms and 1 for an old-district hint).
*/
module Phrase {
  import opened Text

  datatype Key = Key(key: string, val: string, len: nat)

  /** The record `best` that the scan carries. */
  datatype Hit = Hit(val: string, len: nat, pos: int)

  predicate OccursAt(hay: string, key: string, p: int) {
    0 <= p && p + |key| <= |hay| && hay[p..p + |key|] == key
  }

  /** `hay.lastIndexOf(key)` searched downwards from `from`: a raw substring position. */
  function LastIndexFrom(hay: string, key: string, from: int): (p: int)
    requires -1 <= from
    ensures -1 <= p <= from
    ensures p >= 0 ==> OccursAt(hay, key, p)
    ensures forall q :: p < q <= from ==> !OccursAt(hay, key, q)
    decreases from + 1
  {
    if from < 0 then -1 else if OccursAt(hay, key, from) then from else LastIndexFrom(hay, key, from - 1)
  }

  function LastIndexOf(hay: string, key: string): int {
    LastIndexFrom(hay, key, |hay|)
  }

  function HitOf(hay: string, k: Key): Option<Hit> {
    if ContainsPhrase(hay, k.key) then Some(Hit(k.val, k.len, LastIndexOf(hay, k.key))) else None
  }

  /** The replacement test of the scan: longer, or as long and further right. */
  predicate Beats(a: Hit, b: Hit) {
    a.len > b.len || (a.len == b.len && a.pos > b.pos)
  }

  function Keep(best: Option<Hit>, next: Option<Hit>): Option<Hit> {
    if best.None? then next
    else if next.Some? && Beats(next.value, best.value) then next
    else best
  }

  /** What scanning `keys` leaves in `best`. */
  function BestHit(hay: string, keys: seq<Key>): Option<Hit> {
    if keys == [] then None else Keep(HitOf(hay, keys[0]), BestHit(hay, keys[1..]))
  }

  function Best(hay: string, keys: seq<Key>): string {
    var h := BestHit(hay, keys);
    if h.Some? then h.value.val else ""
  }

  lemma KeepAssociative(a: Option<Hit>, b: Option<Hit>, c: Option<Hit>)
    ensures Keep(Keep(a, b), c) == Keep(a, Keep(b, c))
  {
  }

  /** `bestPhrase`. */
  method BestPhrase(hay: string, keys: seq<Key>) returns (r: string)
    ensures r == Best(hay, keys)
  {
    var best: Option<Hit> := None;
    for i := 0 to |keys|
      invariant Keep(best, BestHit(hay, keys[i..])) == BestHit(hay, keys)
    {
      ghost var before := best;
      ghost var rest := keys[i + 1..];
      assert keys[i..][0] == keys[i] && keys[i..][1..] == rest;
      KeepAssociative(before, HitOf(hay, keys[i]), BestHit(hay, rest));
      var k := keys[i];
      if !ContainsPhrase(hay, k.key) { continue; }
      var pos := LastIndexOf(hay, k.key);
      if best.None? || k.len > best.value.len || (k.len == best.value.len && pos > best.value.pos) {
        best := Some(Hit(k.val, k.len, pos));
      }
    }
    r := if best.Some? then best.value.val else "";
  }

  // ---- what the scan finds ----

  /** Key `w` matches, no key beats it, and no earlier key is as good. */
  ghost predicate Wins(hay: string, keys: seq<Key>, w: nat) {
    && w < |keys|
    && HitOf(hay, keys[w]).Some?
    && (forall j :: 0 <= j < |keys| && HitOf(hay, keys[j]).Some? ==>
          !Beats(HitOf(hay, keys[j]).value, HitOf(hay, keys[w]).value))
    && (forall j :: 0 <= j < w && HitOf(hay, keys[j]).Some? ==>
          Beats(HitOf(hay, keys[w]).value, HitOf(hay, keys[j]).value))
  }

  lemma WinsLater(hay: string, keys: seq<Key>, v: nat)
    requires keys != [] && Wins(hay, keys[1..], v)
    requires HitOf(hay, keys[0]).None? || Beats(HitOf(hay, keys[1..][v]).value, HitOf(hay, keys[0]).value)
    ensures Wins(hay, keys, v + 1)
  {
    hide HitOf;
    assert forall j :: 0 < j < |keys| ==> keys[j] == keys[1..][j - 1];
  }

  lemma WinsFirst(hay: string, keys: seq<Key>, v: nat)
    requires keys != [] && HitOf(hay, keys[0]).Some?
    requires (forall j :: 0 <= j < |keys[1..]| ==> HitOf(hay, keys[1..][j]).None?)
             || (Wins(hay, keys[1..], v) && !Beats(HitOf(hay, keys[1..][v]).value, HitOf(hay, keys[0]).value))
    ensures Wins(hay, keys, 0)
  {
    hide HitOf;
    assert forall j :: 0 < j < |keys| ==> keys[j] == keys[1..][j - 1];
  }

  lemma MatchesInRest(hay: string, keys: seq<Key>)
    requires keys != []
    ensures (forall j :: 0 <= j < |keys| ==> !ContainsPhrase(hay, keys[j].key)) <==>
            !ContainsPhrase(hay, keys[0].key) && forall j :: 0 <= j < |keys[1..]| ==>
              !ContainsPhrase(hay, keys[1..][j].key)
  {
    hide ContainsPhrase;
    assert forall j :: 0 < j < |keys| ==> keys[j] == keys[1..][j - 1];
  }

  /** The scan returns the lexicographic maximum by (len, last position), earliest key winning ties. */
  lemma {:induction false} BestHitIsWinner(hay: string, keys: seq<Key>) returns (w: nat)
    ensures BestHit(hay, keys).None? <==> forall j :: 0 <= j < |keys| ==> !ContainsPhrase(hay, keys[j].key)
    ensures BestHit(hay, keys).Some? ==> Wins(hay, keys, w) && BestHit(hay, keys) == HitOf(hay, keys[w])
  {
    w := 0;
    if keys != [] {
      var v := BestHitIsWinner(hay, keys[1..]);
      var head, tail := HitOf(hay, keys[0]), BestHit(hay, keys[1..]);
      if tail.Some? && (head.None? || Beats(tail.value, head.value)) {
        w := v + 1;
        WinsLater(hay, keys, v);
      } else if head.Some? {
        WinsFirst(hay, keys, v);
      }
      MatchesInRest(hay, keys);
    }
  }

  /** Conversely, a key that wins is the answer, so the answer depends on nothing else. */
  lemma WinnerIsBestHit(hay: string, keys: seq<Key>, w: nat)
    requires Wins(hay, keys, w)
    ensures BestHit(hay, keys) == HitOf(hay, keys[w])
  {
    var v := BestHitIsWinner(hay, keys);
  }

  /** `lastIndexOf` is the last position at which the key stands in the text as a raw substring, -1 if there is none. */
  lemma LastIndexIs(hay: string, key: string, q: nat)
    ensures var p := LastIndexOf(hay, key);
            && -1 <= p
            && (p >= 0 ==> p + |key| <= |hay| && hay[p..p + |key|] == key)
            && (p < q && q + |key| <= |hay| ==> hay[q..q + |key|] != key)
  {
    assert LastIndexOf(hay, key) < q <= |hay| ==> !OccursAt(hay, key, q);
  }

  /**
    The answer of the scan in full: the value of a key that occurs as a phrase, such that every other
    key that occurs is shorter, or as long with an earlier last position, or equal in both and later
    in the list; empty when no key occurs.
  */
  lemma BestIs(hay: string, keys: seq<Key>)
    ensures (forall j :: 0 <= j < |keys| ==> !ContainsPhrase(hay, keys[j].key)) ==> Best(hay, keys) == ""
    ensures (exists j :: 0 <= j < |keys| && ContainsPhrase(hay, keys[j].key)) ==>
              exists w :: 0 <= w < |keys| && ContainsPhrase(hay, keys[w].key) && Best(hay, keys) == keys[w].val
                && forall j :: 0 <= j < |keys| && j != w && ContainsPhrase(hay, keys[j].key) ==>
                     var p, q := LastIndexOf(hay, keys[w].key), LastIndexOf(hay, keys[j].key);
                     keys[j].len < keys[w].len || (keys[j].len == keys[w].len && (q < p || (q == p && j > w)))
  {
    hide ContainsPhrase, LastIndexOf;
    var w := BestHitIsWinner(hay, keys);
    if BestHit(hay, keys).Some? {
      assert ContainsPhrase(hay, keys[w].key);
      forall j | 0 <= j < |keys| && j != w && ContainsPhrase(hay, keys[j].key)
        ensures var p, q := LastIndexOf(hay, keys[w].key), LastIndexOf(hay, keys[j].key);
                keys[j].len < keys[w].len || (keys[j].len == keys[w].len && (q < p || (q == p && j > w)))
      {
        assert HitOf(hay, keys[j]).Some?;
      }
    }
  }

  /** A non-empty answer is the value of a key that occurs in `hay` as a phrase. */
  lemma BestComesFromKey(hay: string, keys: seq<Key>)
    ensures Best(hay, keys) != "" ==>
            exists w :: 0 <= w < |keys| && ContainsPhrase(hay, keys[w].key) && keys[w].val == Best(hay, keys)
  {
    var w := BestHitIsWinner(hay, keys);
  }

  // ---- the sorts before the scan ----

  predicate SortedByLen(keys: seq<Key>) {
    forall i, j :: 0 <= i < j < |keys| ==> keys[i].len >= keys[j].len
  }

  function WithLen(keys: seq<Key>, n: nat): seq<Key> {
    if keys == [] then [] else (if keys[0].len == n then [keys[0]] else []) + WithLen(keys[1..], n)
  }

  /** A stable sort by decreasing `len`: sorted, and the keys of each length keep their order. */
  ghost predicate StableSortOf(out: seq<Key>, keys: seq<Key>) {
    SortedByLen(out) && forall n: nat :: WithLen(out, n) == WithLen(keys, n)
  }

  function Insert(k: Key, keys: seq<Key>): seq<Key> {
    if keys == [] || k.len >= keys[0].len then [k] + keys else [keys[0]] + Insert(k, keys[1..])
  }

  /** `keys.sort((a, b) => b.len - a.len)`, which the language specifies to be stable. */
  function SortByLen(keys: seq<Key>): seq<Key> {
    if keys == [] then [] else Insert(keys[0], SortByLen(keys[1..]))
  }

  lemma {:induction false} InsertStable(k: Key, keys: seq<Key>)
    requires SortedByLen(keys)
    ensures SortedByLen(Insert(k, keys))
    ensures forall n: nat :: WithLen(Insert(k, keys), n) == (if k.len == n then [k] else []) + WithLen(keys, n)
  {
    if keys == [] || k.len >= keys[0].len {
      assert ([k] + keys)[1..] == keys;
    } else {
      InsertStable(k, keys[1..]);
      var rest := Insert(k, keys[1..]);
      assert ([keys[0]] + rest)[1..] == rest;
      InsertKeepsKeys(k, keys[1..]);
      assert forall x :: x in rest ==> x.len <= keys[0].len;
    }
  }

  lemma {:induction false} SortIsStable(keys: seq<Key>)
    ensures StableSortOf(SortByLen(keys), keys)
  {
    if keys != [] {
      SortIsStable(keys[1..]);
      InsertStable(keys[0], SortByLen(keys[1..]));
    }
  }

  lemma {:induction false} WithLenHead(keys: seq<Key>, n: nat)
    ensures WithLen(keys, n) != [] ==> WithLen(keys, n)[0] in keys && WithLen(keys, n)[0].len == n
    ensures (exists k :: k in keys && k.len == n) ==> WithLen(keys, n) != []
  {
    if keys != [] {
      WithLenHead(keys[1..], n);
    }
  }

  /** There is only one stable sort of a list. */
  lemma {:induction false} StableSortUnique(a: seq<Key>, b: seq<Key>)
    requires SortedByLen(a) && SortedByLen(b)
    requires forall n: nat :: WithLen(a, n) == WithLen(b, n)
    ensures a == b
  {
    if a == [] || b == [] {
      if a != [] { WithLenHead(a, a[0].len); }
      if b != [] { WithLenHead(b, b[0].len); }
    } else {
      WithLenHead(a, b[0].len);
      WithLenHead(b, a[0].len);
      WithLenHead(a, a[0].len);
      WithLenHead(b, b[0].len);
      assert a[0].len == b[0].len;
      assert WithLen(a, a[0].len)[0] == a[0] && WithLen(b, a[0].len)[0] == b[0];
      forall n: nat ensures WithLen(a[1..], n) == WithLen(b[1..], n) {
        assert WithLen(a, n) == WithLen(b, n);
        if n == a[0].len {
          assert WithLen(a, n)[1..] == WithLen(a[1..], n);
          assert WithLen(b, n)[1..] == WithLen(b[1..], n);
        } else {
          assert WithLen(a, n) == WithLen(a[1..], n) && WithLen(b, n) == WithLen(b[1..], n);
        }
      }
      StableSortUnique(a[1..], b[1..]);
      assert a == [a[0]] + a[1..] && b == [b[0]] + b[1..];
    }
  }

  lemma {:induction false} BestHitInsert(hay: string, k: Key, keys: seq<Key>)
    ensures BestHit(hay, Insert(k, keys)) == Keep(HitOf(hay, k), BestHit(hay, keys))
  {
    if keys == [] || k.len >= keys[0].len {
      assert ([k] + keys)[1..] == keys;
    } else {
      var rest := Insert(k, keys[1..]);
      assert ([keys[0]] + rest)[1..] == rest;
      BestHitInsert(hay, k, keys[1..]);
    }
  }

  lemma {:induction false} BestHitSorted(hay: string, keys: seq<Key>)
    ensures BestHit(hay, SortByLen(keys)) == BestHit(hay, keys)
  {
    if keys != [] {
      BestHitSorted(hay, keys[1..]);
      BestHitInsert(hay, keys[0], SortByLen(keys[1..]));
    }
  }

  /** Sorting the keys first (any stable sort by length) never changes an answer. */
  lemma SortNeverMatters(hay: string, keys: seq<Key>, out: seq<Key>)
    requires StableSortOf(out, keys)
    ensures Best(hay, out) == Best(hay, keys)
  {
    SortIsStable(keys);
    StableSortUnique(out, SortByLen(keys));
    BestHitSorted(hay, keys);
  }

  lemma {:induction false} SortKeepsKeys(keys: seq<Key>)
    ensures forall k :: k in SortByLen(keys) <==> k in keys
  {
    if keys != [] {
      SortKeepsKeys(keys[1..]);
      InsertKeepsKeys(keys[0], SortByLen(keys[1..]));
    }
  }

  lemma {:induction false} InsertKeepsKeys(k: Key, keys: seq<Key>)
    ensures forall x :: x in Insert(k, keys) <==> x == k || x in keys
  {
    if !(keys == [] || k.len >= keys[0].len) {
      InsertKeepsKeys(k, keys[1..]);
      assert forall x :: x in keys <==> x == keys[0] || x in keys[1..];
    }
  }

  lemma {:induction false} BestHitConcat(hay: string, a: seq<Key>, b: seq<Key>)
    ensures BestHit(hay, a + b) == Keep(BestHit(hay, a), BestHit(hay, b))
  {
    if a == [] {
      assert a + b == b;
    } else {
      assert (a + b)[1..] == a[1..] + b;
      BestHitConcat(hay, a[1..], b);
      KeepAssociative(HitOf(hay, a[0]), BestHit(hay, a[1..]), BestHit(hay, b));
    }
  }

  /** When every key stands for a name of `list`, so does every non-empty answer. */
  lemma BestListed(hay: string, keys: seq<Key>, list: seq<string>)
    requires forall k :: k in keys ==> k.val in list
    ensures Best(hay, SortByLen(keys)) != "" ==> Best(hay, SortByLen(keys)) in list
  {
    SortKeepsKeys(keys);
    BestComesFromKey(hay, SortByLen(keys));
  }

  predicate Occurs(hay: string, keys: seq<Key>) {
    exists k :: 0 <= k < |keys| && ContainsPhrase(hay, keys[k].key)
  }

  /** `val` is the answer of a winning key. */
  ghost predicate Chosen(hay: string, keys: seq<Key>, val: string) {
    exists w :: 0 <= w < |keys| && Wins(hay, keys, w) && keys[w].val == val
  }

  /** `val` is what the rules find in `hay`: empty exactly when no key occurs, else the value of the winning key. */
  ghost predicate Ruled(hay: string, keys: seq<Key>, val: string) {
    (val != "" <==> Occurs(hay, keys)) && (val != "" ==> Chosen(hay, keys, val))
  }

  /**
    When no usable key stands for the empty name, the answer is empty exactly if no key occurs, else it
    is the winner's.
  */
  lemma BestExact(hay: string, keys: seq<Key>)
    requires forall k :: k in keys && k.key != "" ==> k.val != ""
    ensures Best(hay, SortByLen(keys)) == Best(hay, keys)
    ensures Best(hay, keys) != "" <==> Occurs(hay, keys)
    ensures Best(hay, keys) != "" ==> Chosen(hay, keys, Best(hay, keys))
  {
    BestHitSorted(hay, keys);
    var w := BestHitIsWinner(hay, keys);
  }
}
