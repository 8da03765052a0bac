/**
  The bounded audio cache of `paymentAudio`.

  A request looks its key up, awaits the synthesis on a miss, and then evicts and stores. Other
  requests run while it awaits, so the two halves are separate steps: `Lookup` and `Store` of the
  class, and `Begin` / `Finish` / `Fail` events of a run of interleaved requests.
*/
module TtsCache {
  import opened Text
  import opened Tts

  /** A clip of `text`; two takes of the same text need not be the same bytes. */
  datatype Audio = Audio(text: string, take: int)

  /** An insertion-ordered `Map`. */
  datatype Entry = Entry(key: nat, audio: Audio)
  type Entries = seq<Entry>

  const CACHE_MAX: nat := 200

  /** `Math.max(0, Math.min(Math.floor(amount || 0), 999_999_999_999))`. */
  function CacheKey(amount: real): nat {
    if amount.Floor > 999999999999 then 999999999999 else if amount.Floor < 0 then 0 else amount.Floor
  }

  /** The whole amount between 0 and the largest number that is read uniquely, else the nearer end. */
  lemma CacheKeyIs(amount: real)
    ensures 0 <= amount.Floor < 1_000_000_000_000 ==> CacheKey(amount) == amount.Floor
    ensures amount.Floor < 0 ==> CacheKey(amount) == 0
    ensures amount.Floor >= 1_000_000_000_000 ==> CacheKey(amount) == 999_999_999_999
  {
  }

  /** What is spoken for an amount in range is read back as the amount. */
  lemma AmountReadBack(amount: real)
    requires 0 <= amount.Floor < 1_000_000_000_000
    ensures ReadText(Render(NumberWords(CacheKey(amount)))) == Some(amount.Floor)
  {
    CacheKeyIs(amount);
    TextReadBack(amount.Floor);
  }

  function Find(es: Entries, key: nat): Option<Audio> {
    if es == [] then None else if es[0].key == key then Some(es[0].audio) else Find(es[1..], key)
  }

  predicate Has(es: Entries, key: nat) { exists i :: 0 <= i < |es| && es[i].key == key }

  /** `map.set`: an existing key keeps its place, a new one goes last. */
  function Put(es: Entries, key: nat, audio: Audio): Entries {
    if es == [] then [Entry(key, audio)]
    else if es[0].key == key then [Entry(key, audio)] + es[1..]
    else [es[0]] + Put(es[1..], key, audio)
  }

  /** The part of `paymentAudio` after the await. */
  function Stored(es: Entries, key: nat, audio: Audio): Entries {
    Put(if |es| >= CACHE_MAX then es[1..] else es, key, audio)
  }

  predicate DistinctKeys(es: Entries) {
    forall i, j :: 0 <= i < j < |es| ==> es[i].key != es[j].key
  }

  /** Every entry is a clip of its own key's sentence, and keys are within the clamp. */
  predicate Own(es: Entries) {
    forall i :: 0 <= i < |es| ==> es[i].key < LIMIT && es[i].audio.text == Sentence(es[i].key)
  }

  predicate CacheOk(es: Entries) { |es| <= CACHE_MAX && DistinctKeys(es) && Own(es) }

  class PaymentCache {
    var entries: Entries

    constructor ()
      ensures entries == []
    {
      entries := [];
    }

    method Lookup(key: nat) returns (r: Option<Audio>)
      ensures r == Find(entries, key)
    {
      for i := 0 to |entries|
        invariant Find(entries, key) == Find(entries[i..], key)
      {
        assert entries[i..][0] == entries[i] && entries[i..][1..] == entries[i + 1..];
        if entries[i].key == key { return Some(entries[i].audio); }
      }
      r := None;
    }

    method Store(key: nat, audio: Audio)
      modifies this
      ensures entries == Stored(old(entries), key, audio)
    {
      if |entries| >= CACHE_MAX {
        entries := entries[1..];
      }
      entries := Put(entries, key, audio);
    }

    /** One request on its own: `take` is what the provider answers on a miss, None if it fails. */
    method PaymentAudio(amount: real, take: Option<int>) returns (r: Option<Audio>)
      requires CacheOk(entries)
      modifies this
      ensures CacheOk(entries)
      ensures r.None? <==> Find(old(entries), CacheKey(amount)).None? && take.None?
      ensures r.Some? ==> r.value.text == Sentence(CacheKey(amount))
      ensures r.Some? && 0 <= amount.Floor < 1_000_000_000_000 ==>
                r.value.text == "Đã nhận " + Render(NumberWords(amount.Floor)) + " đồng"
      ensures entries == if Find(old(entries), CacheKey(amount)).Some? || r.None? then old(entries)
                         else Stored(old(entries), CacheKey(amount), r.value)
    {
      var key := CacheKey(amount);
      var cached := Lookup(key);
      FindHas(entries, key);
      if cached.Some? { return cached; }
      if take.None? { return None; }
      var sentence := PaymentSentence(key as real);
      var audio := Audio(sentence, take.value);
      StoredOk(entries, key, audio);
      Store(key, audio);
      r := Some(audio);
    }
  }

  lemma {:induction false} FindHas(es: Entries, key: nat)
    ensures Find(es, key).Some? <==> Has(es, key)
    ensures Find(es, key).Some? ==> exists i :: 0 <= i < |es| && es[i] == Entry(key, Find(es, key).value)
  {
    if es != [] {
      FindHas(es[1..], key);
      if Has(es, key) && es[0].key != key {
        var i :| 0 <= i < |es| && es[i].key == key;
        assert es[1..][i - 1] == es[i];
      }
      if Has(es[1..], key) {
        var i :| 0 <= i < |es[1..]| && es[1..][i].key == key;
        assert es[i + 1] == es[1..][i];
      }
    }
  }

  lemma {:induction false} PutEffect(es: Entries, key: nat, audio: Audio)
    ensures |Put(es, key, audio)| == if Has(es, key) then |es| else |es| + 1
    ensures !Has(es, key) ==> Put(es, key, audio) == es + [Entry(key, audio)]
    ensures forall i :: 0 <= i < |es| ==> Put(es, key, audio)[i].key == es[i].key
    ensures forall i :: 0 <= i < |Put(es, key, audio)| ==>
              Put(es, key, audio)[i] == Entry(key, audio) || (i < |es| && Put(es, key, audio)[i] == es[i])
  {
    if es != [] {
      PutEffect(es[1..], key, audio);
      assert Has(es, key) <==> es[0].key == key || Has(es[1..], key) by {
        FindHas(es, key);
        FindHas(es[1..], key);
      }
    }
  }

  lemma StoredOk(es: Entries, key: nat, audio: Audio)
    requires CacheOk(es) && key < LIMIT && audio.text == Sentence(key)
    ensures CacheOk(Stored(es, key, audio))
  {
    hide Sentence;
    PutOk(if |es| >= CACHE_MAX then es[1..] else es, key, audio);
  }

  lemma PutOk(es: Entries, key: nat, audio: Audio)
    requires |es| < CACHE_MAX && DistinctKeys(es) && Own(es) && key < LIMIT && audio.text == Sentence(key)
    ensures CacheOk(Put(es, key, audio))
  {
    hide Sentence;
    PutEffect(es, key, audio);
    var put := Put(es, key, audio);
    forall i, j | 0 <= i < j < |put| ensures put[i].key != put[j].key {
      if j == |es| {
        assert put[j] == Entry(key, audio) && !Has(es, key);
        assert es[i].key != key;
      }
    }
  }

  // ---- interleaved requests ----

  datatype Event = Begin(amount: real) | Finish(key: nat, take: int) | Fail(key: nat)

  datatype State = State(entries: Entries, waiting: multiset<nat>)

  /** A step is possible: only a waiting request can finish or fail. */
  predicate Enabled(s: State, e: Event) {
    match e
    case Begin(_) => true
    case Finish(key, _) => key in s.waiting
    case Fail(key) => key in s.waiting
  }

  function Next(s: State, e: Event): State {
    match e
    case Begin(amount) =>
      var key := CacheKey(amount);
      if Find(s.entries, key).Some? then s else s.(waiting := s.waiting + multiset{key})
    case Finish(key, take) =>
      State(Stored(s.entries, key, Audio(Sentence(key), take)), s.waiting - multiset{key})
    case Fail(key) => s.(waiting := s.waiting - multiset{key})
  }

  predicate Possible(es: seq<Event>) {
    es == [] || (Possible(es[..|es| - 1]) && Enabled(After(es[..|es| - 1]), es[|es| - 1]))
  }

  function After(es: seq<Event>): State {
    if es == [] then State([], multiset{}) else Next(After(es[..|es| - 1]), es[|es| - 1])
  }

  /** In every interleaving: at most 200 entries with different keys, each a clip of its own key's sentence. */
  lemma AlwaysBoundedAndOwn(es: seq<Event>)
    requires Possible(es)
    ensures var kept := After(es).entries;
            && |kept| <= 200
            && (forall i, j :: 0 <= i < j < |kept| ==> kept[i].key != kept[j].key)
            && (forall i :: 0 <= i < |kept| ==> kept[i].key < 1_000_000_000_000)
            && (forall i :: 0 <= i < |kept| ==>
                  kept[i].audio.text == "Đã nhận " + Render(NumberWords(kept[i].key)) + " đồng")
  {
    AlwaysCacheOk(es);
  }

  lemma {:induction false} AlwaysCacheOk(es: seq<Event>)
    requires Possible(es)
    ensures CacheOk(After(es).entries)
    ensures forall k :: k in After(es).waiting ==> k < LIMIT
  {
    if es != [] {
      var before := After(es[..|es| - 1]);
      AlwaysCacheOk(es[..|es| - 1]);
      match es[|es| - 1]
      case Begin(amount) =>
      case Finish(key, take) => StoredOk(before.entries, key, Audio(Sentence(key), take));
      case Fail(key) =>
    }
  }

  /** An entry disappears exactly when a store of another key finds the cache full and the entry is the oldest one. */
  lemma OnlyOldestEvicted(s: State, e: Event, key: nat)
    requires |s.entries| <= CACHE_MAX && DistinctKeys(s.entries) && Enabled(s, e)
    ensures Has(s.entries, key) && !Has(Next(s, e).entries, key) <==>
            e.Finish? && |s.entries| == 200 && s.entries[0].key == key != e.key
  {
    hide Sentence;
    if e.Finish? {
      var kept := if |s.entries| >= CACHE_MAX then s.entries[1..] else s.entries;
      var audio := Audio(Sentence(e.key), e.take);
      PutHas(kept, e.key, audio, key);
      if |s.entries| >= CACHE_MAX {
        TailHas(s.entries, key);
        assert forall i :: 0 <= i < |kept| ==> kept[i] == s.entries[i + 1];
      }
    }
  }

  lemma TailHas(es: Entries, key: nat)
    requires es != []
    ensures Has(es, key) <==> es[0].key == key || Has(es[1..], key)
  {
    FindHas(es, key);
    FindHas(es[1..], key);
  }

  /** After a store the cache has the stored key and the keys it had. */
  lemma PutHas(es: Entries, stored: nat, audio: Audio, key: nat)
    ensures Has(Put(es, stored, audio), key) <==> key == stored || Has(es, key)
  {
    FindHas(Put(es, stored, audio), key);
    PutFind(es, stored, audio, key);
    FindHas(es, key);
  }

  lemma {:induction false} PutFind(es: Entries, stored: nat, audio: Audio, key: nat)
    ensures Find(Put(es, stored, audio), key) == if key == stored then Some(audio) else Find(es, key)
  {
    if es != [] {
      PutFind(es[1..], stored, audio, key);
    }
  }

  // ---- requests one at a time: first in, first out ----

  /** A request and what the provider answers it, None for a failure. */
  datatype Request = Request(amount: real, take: Option<int>)

  /** The events of requests that do not overlap: each begins and, unless it hits, ends before the next. */
  function InTurn(requests: seq<Request>): seq<Event> {
    if requests == [] then []
    else
      var before, r := InTurn(requests[..|requests| - 1]), requests[|requests| - 1];
      before + [Begin(r.amount)] + Ending(After(before).entries, r)
  }

  function Ending(es: Entries, r: Request): seq<Event> {
    var key := CacheKey(r.amount);
    if Find(es, key).Some? then [] else if r.take.Some? then [Finish(key, r.take.value)] else [Fail(key)]
  }

  /** The keys synthesised, oldest first. */
  function Synthesised(requests: seq<Request>): seq<nat> {
    if requests == [] then []
    else
      var init, r := requests[..|requests| - 1], requests[|requests| - 1];
      Synthesised(init) +
      (if Find(After(InTurn(init)).entries, CacheKey(r.amount)).None? && r.take.Some? then [CacheKey(r.amount)] else [])
  }

  function Newest(log: seq<nat>): seq<nat> {
    if |log| <= CACHE_MAX then log else log[|log| - CACHE_MAX..]
  }

  function Keys(es: Entries): (k: seq<nat>)
    ensures |k| == |es|
  {
    seq(|es|, i requires 0 <= i < |es| => es[i].key)
  }

  lemma PossibleMore(es: seq<Event>, e: Event)
    requires Possible(es) && Enabled(After(es), e)
    ensures Possible(es + [e]) && After(es + [e]) == Next(After(es), e)
  {
    hide Enabled, Next;
    assert (es + [e])[..|es|] == es;
  }

  /** One request on its own: it ends with nothing waiting, and at most its own key stored. */
  lemma OneRequest(es: seq<Event>, r: Request)
    requires Possible(es) && After(es).waiting == multiset{}
    ensures var key := CacheKey(r.amount);
            var before := After(es).entries;
            var all := es + [Begin(r.amount)] + Ending(before, r);
            && Possible(all) && After(all).waiting == multiset{}
            && After(all).entries == if Find(before, key).Some? || r.take.None? then before
                                     else Stored(before, key, Audio(Sentence(key), r.take.value))
  {
    hide Possible, After, Sentence, CacheKey, Stored;
    PossibleMore(es, Begin(r.amount));
    var begun := es + [Begin(r.amount)];
    var ending := Ending(After(es).entries, r);
    if ending == [] {
      assert begun + [] == begun;
    } else {
      PossibleMore(begun, ending[0]);
      assert [ending[0]] == ending;
    }
  }

  /** Served so far in turn: nothing waits, and the cache holds the newest syntheses. */
  predicate ServedInTurn(requests: seq<Request>) {
    && Possible(InTurn(requests)) && After(InTurn(requests)).waiting == multiset{}
    && Keys(After(InTurn(requests)).entries) == Newest(Synthesised(requests))
  }

  lemma OneMoreServed(requests: seq<Request>)
    requires requests != [] && ServedInTurn(requests[..|requests| - 1])
    ensures ServedInTurn(requests)
  {
    hide Sentence, CacheKey, Stored, Possible, After, Newest, Find;
    var init, r := requests[..|requests| - 1], requests[|requests| - 1];
    OneRequest(InTurn(init), r);
    var es, key := After(InTurn(init)).entries, CacheKey(r.amount);
    assert InTurn(requests) == InTurn(init) + [Begin(r.amount)] + Ending(es, r);
    NewestStep(Synthesised(init), key);
    assert |es| == |Keys(es)|;
    if Find(es, key).None? && r.take.Some? {
      StoredKeys(es, key, Audio(Sentence(key), r.take.value));
      assert Synthesised(requests) == Synthesised(init) + [key];
    } else {
      assert Synthesised(requests) == Synthesised(init);
    }
  }

  /** Requests served one at a time leave exactly the 200 most recent syntheses in the cache, oldest first. */
  lemma FirstInFirstOut(requests: seq<Request>)
    ensures var served, log := After(InTurn(requests)), Synthesised(requests);
            var kept := served.entries;
            && Possible(InTurn(requests)) && served.waiting == multiset{}
            && |kept| == (if |log| <= 200 then |log| else 200)
            && forall i :: 0 <= i < |kept| ==> kept[i].key == log[|log| - |kept| + i]
  {
    hide Possible, After, InTurn, Synthesised;
    AllServed(requests);
    var kept := After(InTurn(requests)).entries;
    assert forall i :: 0 <= i < |kept| ==> kept[i].key == Keys(kept)[i];
    assert |kept| == |Keys(kept)|;
  }

  lemma {:induction false} AllServed(requests: seq<Request>)
    ensures ServedInTurn(requests)
  {
    if requests != [] {
      hide ServedInTurn;
      AllServed(requests[..|requests| - 1]);
      OneMoreServed(requests);
    }
  }

  lemma StoredKeys(es: Entries, key: nat, audio: Audio)
    requires Find(es, key).None? && |es| <= CACHE_MAX
    ensures Keys(Stored(es, key, audio)) == (if |es| == CACHE_MAX then Keys(es)[1..] else Keys(es)) + [key]
  {
    FindHas(es, key);
    var kept := if |es| >= CACHE_MAX then es[1..] else es;
    PutEffect(kept, key, audio);
    assert Keys(kept + [Entry(key, audio)]) == Keys(kept) + [key];
    assert |es| == CACHE_MAX ==> Keys(kept) == Keys(es)[1..];
  }

  lemma NewestStep(log: seq<nat>, key: nat)
    ensures Newest(log + [key]) == (if |Newest(log)| == CACHE_MAX then Newest(log)[1..] else Newest(log)) + [key]
    ensures |Newest(log)| <= CACHE_MAX
  {
  }

  // ---- overlapping requests for one key ----

  /**
    A store makes the cache smaller exactly when the cache is full and the key is already there,
    not as the oldest: the oldest entry is dropped for nothing.
  */
  lemma OverlapShrinks(s: State, key: nat, take: int)
    requires |s.entries| <= CACHE_MAX && DistinctKeys(s.entries)
    ensures |Next(s, Finish(key, take)).entries| < |s.entries| <==>
            |s.entries| == 200 && Has(s.entries[1..], key)
    ensures |Next(s, Finish(key, take)).entries| >= |s.entries| - 1
  {
    hide Sentence;
    PutEffect(if |s.entries| >= CACHE_MAX then s.entries[1..] else s.entries, key, Audio(Sentence(key), take));
  }

  /** Two overlapping requests for amount 0, and meanwhile the amounts 1 to `n` in turn. */
  function Overlapping(n: nat): seq<Event> {
    if n == 0 then [Begin(0.0), Begin(0.0)] else Overlapping(n - 1) + [Begin(n as real)] + [Finish(n, 0)]
  }

  lemma KeysHas(es: Entries, key: nat)
    ensures Has(es, key) <==> key in Keys(es)
  {
    if key in Keys(es) {
      var i :| 0 <= i < |es| && Keys(es)[i] == key;
      assert es[i].key == key;
    }
    if Has(es, key) {
      var i :| 0 <= i < |es| && es[i].key == key;
      assert Keys(es)[i] == key;
    }
  }

  function OneTo(n: nat): (r: seq<nat>) { seq(n, i requires 0 <= i < n => i + 1) }

  /** Amounts 1 to `n` are in the cache, two requests for 0 still wait. */
  predicate Filled(n: nat) {
    var s := After(Overlapping(n));
    Possible(Overlapping(n)) && Keys(s.entries) == OneTo(n) && s.waiting == multiset{0, 0}
  }

  lemma TwoWaiting()
    ensures Filled(0)
  {
    assert CacheKey(0.0) == 0;
    PossibleMore([], Begin(0.0));
    assert [] + [Begin(0.0)] == [Begin(0.0)];
    PossibleMore([Begin(0.0)], Begin(0.0));
    assert [Begin(0.0)] + [Begin(0.0)] == [Begin(0.0), Begin(0.0)];
    assert multiset{0} + multiset{0} == multiset{0, 0};
  }

  lemma OverlappingMore(n: nat)
    requires 0 < n < CACHE_MAX && Filled(n - 1)
    ensures Filled(n)
  {
    hide Sentence, Possible, After, Stored, Find;
    var before := Overlapping(n - 1);
    var es := After(before).entries;
    assert CacheKey(n as real) == n;
    KeysHas(es, n);
    FindHas(es, n);
    assert |es| == n - 1 by { assert |Keys(es)| == |es|; }
    PossibleMore(before, Begin(n as real));
    PossibleMore(before + [Begin(n as real)], Finish(n, 0));
    StoredKeys(es, n, Audio(Sentence(n), 0));
    assert multiset{0, 0} + multiset{n} - multiset{n} == multiset{0, 0};
    assert OneTo(n - 1) + [n] == OneTo(n);
  }

  lemma {:induction false} OverlappingFills(n: nat)
    requires n < CACHE_MAX
    ensures Filled(n)
  {
    hide Filled;
    if n == 0 {
      TwoWaiting();
    } else {
      OverlappingFills(n - 1);
      OverlappingMore(n);
    }
  }

  /** It happens: the second of two overlapping requests takes a cache of 200 entries down to 199. */
  lemma OverlapHappens(t: int, u: int)
    ensures var first := Overlapping(CACHE_MAX - 1) + [Finish(0, t)];
            && Possible(first) && |After(first).entries| == 200
            && Possible(first + [Finish(0, u)]) && |After(first + [Finish(0, u)]).entries| == 199
  {
    hide Sentence, Possible, After, Overlapping;
    var fill := Overlapping(CACHE_MAX - 1);
    var es := After(fill).entries;
    OverlappingFills(CACHE_MAX - 1);
    KeysHas(es, 0);
    FindHas(es, 0);
    PossibleMore(fill, Finish(0, t));
    var first := fill + [Finish(0, t)];
    StoredKeys(es, 0, Audio(Sentence(0), t));
    var full := After(first).entries;
    assert Keys(full) == Keys(es) + [0];
    assert |full| == |Keys(full)|;
    assert Keys(full)[CACHE_MAX - 1] == 0;
    assert full[1..][CACHE_MAX - 2].key == 0;
    assert After(first).waiting == multiset{0};
    PossibleMore(first, Finish(0, u));
    AlwaysBoundedAndOwn(first);
    OverlapShrinks(After(first), 0, u);
  }
}
