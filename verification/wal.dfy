/**
  `applyWal`: replays the frames of a write-ahead log over a decrypted database.

  A frame is accepted when its salts are those of the WAL header and its page deciphers. The
  specification is "last accepted frame wins", byte by byte; the method works in place on a copy
  that it reallocates as pages beyond its end arrive.
*/
module Wal {
  import opened Text
  import opened SqlCipher

  function U32(s: Bytes, off: nat): nat
    requires off + 4 <= |s|
  {
    ((s[off] as nat * 256 + s[off + 1] as nat) * 256 + s[off + 2] as nat) * 256 + s[off + 3] as nat
  }

  /** The log is long enough and starts with one of the two magic numbers. */
  predicate Replayable(wal: Bytes) {
    |wal| >= 32 && (U32(wal, 0) == 0x377f0682 || U32(wal, 0) == 0x377f0683)
  }

  function PageSize(wal: Bytes): nat requires |wal| >= 32 { U32(wal, 8) }

  function FrameSize(wal: Bytes): nat requires |wal| >= 32 { 24 + PageSize(wal) }

  function Div(a: nat, b: nat): nat requires b > 0 { a / b }

  function FrameCount(wal: Bytes): nat
    requires |wal| >= 32
  {
    Div(|wal| - 32, FrameSize(wal))
  }

  /** Frame `k` as bytes: 24 header bytes and one page. */
  function Frame(wal: Bytes, k: nat): (f: Bytes)
    requires |wal| >= 32 && k < FrameCount(wal)
    ensures |f| == FrameSize(wal)
  {
    FrameFits(wal, k);
    wal[32 + k * FrameSize(wal)..32 + (k + 1) * FrameSize(wal)]
  }

  lemma FrameFits(wal: Bytes, k: nat)
    requires |wal| >= 32 && k < FrameCount(wal)
    ensures 32 + (k + 1) * FrameSize(wal) <= |wal|
    ensures (k + 1) * FrameSize(wal) == k * FrameSize(wal) + FrameSize(wal)
  {
    MulMono(k + 1, FrameCount(wal), FrameSize(wal));
  }

  /** The page number a frame carries, and its page if the frame is accepted. */
  datatype Write = Write(pageNo: nat, page: Option<Bytes>)

  function WriteOf(c: Crypto, key: Bytes, wal: Bytes, frame: Bytes): Write
    requires |wal| >= 32 && |frame| == FrameSize(wal)
  {
    var pageNo := U32(frame, 0);
    if U32(frame, 8) != U32(wal, 16) || U32(frame, 12) != U32(wal, 20) then Write(pageNo, None)
    else Write(pageNo, DecryptedPage(c, key, frame[24..], pageNo - 1, PageSize(wal)))
  }

  /** The writes of the log, in order. */
  function Writes(c: Crypto, key: Bytes, wal: Bytes): (ws: seq<Write>)
    requires |wal| >= 32
    ensures |ws| == FrameCount(wal)
  {
    seq(FrameCount(wal), k requires 0 <= k < FrameCount(wal) => WriteOf(c, key, wal, Frame(wal, k)))
  }

  lemma AcceptedPage(c: Crypto, key: Bytes, wal: Bytes, frame: Bytes)
    requires |wal| >= 32 && |frame| == FrameSize(wal)
    ensures var w := WriteOf(c, key, wal, frame); w.page.Some? ==> |w.page.value| == PageSize(wal) >= 16
  {
  }

  // ---- replaying a list of writes ----

  /** The last accepted write whose page covers byte `p`. */
  function LastCovering(ws: seq<Write>, ps: nat, p: nat): Option<nat> {
    if ws == [] then None
    else if Covers(ws[|ws| - 1], ps, p) then Some(|ws| - 1)
    else LastCovering(ws[..|ws| - 1], ps, p)
  }

  predicate Covers(w: Write, ps: nat, p: int) {
    w.page.Some? && (w.pageNo - 1) * ps <= p < w.pageNo * ps
  }

  predicate Fit(ws: seq<Write>, ps: nat) {
    forall k :: 0 <= k < |ws| ==> ws[k].page.Some? ==> |ws[k].page.value| == ps
  }

  /** No accepted write names page 0, on which the copy would start at a negative position. */
  predicate Placed(ws: seq<Write>) {
    forall k :: 0 <= k < |ws| ==> ws[k].page.Some? ==> ws[k].pageNo >= 1
  }

  function Length(len: nat, ws: seq<Write>, ps: nat): nat {
    if ws == [] then len
    else
      var w := ws[|ws| - 1];
      var n := Length(len, ws[..|ws| - 1], ps);
      if w.page.Some? && n < w.pageNo * ps then w.pageNo * ps else n
  }

  lemma {:induction false} LastCoveringFinds(ws: seq<Write>, ps: nat, p: nat)
    ensures var k := LastCovering(ws, ps, p);
            match k
            case None => forall j :: 0 <= j < |ws| ==> !Covers(ws[j], ps, p)
            case Some(j) => j < |ws| && Covers(ws[j], ps, p) && forall l :: j < l < |ws| ==> !Covers(ws[l], ps, p)
  {
    if ws != [] && !Covers(ws[|ws| - 1], ps, p) {
      LastCoveringFinds(ws[..|ws| - 1], ps, p);
    }
  }

  /** Byte `p` after replaying `ws` over `plain`: the last covering write, else the original, else zero. */
  function ReplayedByte(plain: Bytes, ws: seq<Write>, ps: nat, p: nat): byte
    requires Fit(ws, ps)
  {
    LastCoveringFinds(ws, ps, p);
    match LastCovering(ws, ps, p)
    case Some(k) => ws[k].page.value[p - (ws[k].pageNo - 1) * ps]
    case None => if p < |plain| then plain[p] else 0
  }

  function Replayed(plain: Bytes, ws: seq<Write>, ps: nat): (r: Bytes)
    requires Fit(ws, ps)
    ensures |r| == Length(|plain|, ws, ps)
  {
    seq(Length(|plain|, ws, ps), p requires 0 <= p => ReplayedByte(plain, ws, ps, p))
  }

  /** One more write: grow with zeros if needed, then lay the page over its place. */
  lemma ReplayedStep(plain: Bytes, ws: seq<Write>, ps: nat, k: nat)
    requires k < |ws| && Fit(ws, ps) && Placed(ws[..k + 1])
    ensures Fit(ws[..k], ps) && Fit(ws[..k + 1], ps)
    ensures var before := Replayed(plain, ws[..k], ps);
            var after := Replayed(plain, ws[..k + 1], ps);
            var w := ws[k];
            if w.page.None? then after == before
            else
              var at := (w.pageNo - 1) * ps;
              && at >= 0 && at + ps == w.pageNo * ps <= |after|
              && |after| == (if |before| < w.pageNo * ps then w.pageNo * ps else |before|)
              && after == Overlay(before + Zeros(|after| - |before|), at, w.page.value)
  {
    var w := ws[k];
    assert ws[..k + 1][..k] == ws[..k];
    assert ws[..k + 1][k] == w;
    var before, after := Replayed(plain, ws[..k], ps), Replayed(plain, ws[..k + 1], ps);
    if w.page.Some? {
      var at := (w.pageNo - 1) * ps;
      assert at + ps == w.pageNo * ps;
      MulMono(0, w.pageNo - 1, ps);
      GrownBefore(plain, ws[..k], ps, |after|);
      forall p | 0 <= p < |after|
        ensures after[p] == if at <= p < at + ps then w.page.value[p - at] else (before + Zeros(|after| - |before|))[p]
      {
        ReplayedByteStep(plain, ws, ps, k, p);
      }
    } else {
      forall p | 0 <= p < |after| ensures after[p] == before[p] {
        ReplayedByteStep(plain, ws, ps, k, p);
      }
    }
  }

  /** Beyond its length a replay is all zeros, which is what growing the buffer fills in. */
  lemma GrownBefore(plain: Bytes, ws: seq<Write>, ps: nat, n: nat)
    requires Fit(ws, ps) && Length(|plain|, ws, ps) <= n
    ensures var r := Replayed(plain, ws, ps);
            forall p :: 0 <= p < n ==> (r + Zeros(n - |r|))[p] == ReplayedByte(plain, ws, ps, p)
  {
    var r := Replayed(plain, ws, ps);
    forall p | |r| <= p < n ensures ReplayedByte(plain, ws, ps, p) == 0 {
      BeyondLength(|plain|, ws, ps, p);
    }
  }

  lemma ReplayedByteStep(plain: Bytes, ws: seq<Write>, ps: nat, k: nat, p: nat)
    requires k < |ws| && Fit(ws, ps) && Fit(ws[..k], ps) && Fit(ws[..k + 1], ps)
    ensures ReplayedByte(plain, ws[..k + 1], ps, p) ==
            if Covers(ws[k], ps, p) then ws[k].page.value[p - (ws[k].pageNo - 1) * ps]
            else ReplayedByte(plain, ws[..k], ps, p)
  {
    assert ws[..k + 1][..k] == ws[..k];
    assert ws[..k + 1][k] == ws[k];
    LastCoveringFinds(ws[..k], ps, p);
  }

  lemma {:induction false} BeyondLength(len: nat, ws: seq<Write>, ps: nat, p: nat)
    requires p >= Length(len, ws, ps)
    ensures p >= len && LastCovering(ws, ps, p).None?
  {
    if ws != [] {
      BeyondLength(len, ws[..|ws| - 1], ps, p);
    }
  }

  lemma ReplayedNothing(plain: Bytes, ws: seq<Write>, ps: nat)
    ensures ws[..0] == [] && Replayed(plain, ws[..0], ps) == plain && Placed(ws[..0])
  {
  }

  // ---- the method ----

  method Grow(out: array<byte>, need: nat) returns (bigger: array<byte>)
    requires out.Length <= need
    ensures fresh(bigger) && bigger[..] == out[..] + Zeros(need - out.Length)
  {
    bigger := Alloc(need);
    CopyInto(out[..], bigger, 0);
  }

  /**
    `applyWal`; None stands for the range error of a frame that is accepted but names page 0.
    A log that is absent, short or foreign gives the input buffer itself back.
  */
  method ApplyWal(c: Crypto, plainDb: array<byte>, walBuf: Option<array<byte>>, passphrase: string, mainSalt: Bytes)
    returns (r: Option<array<byte>>)
    ensures walBuf.None? || !Replayable(walBuf.value[..]) ==> r == Some(plainDb)
    ensures walBuf.Some? && Replayable(walBuf.value[..]) ==>
              var wal := walBuf.value[..];
              var ws := Writes(c, c.kdf(passphrase, mainSalt, 256000), wal);
              && Fit(ws, PageSize(wal))
              && (r.Some? <==> Placed(ws))
              && (r.Some? ==> fresh(r.value) && r.value[..] == Replayed(plainDb[..], ws, PageSize(wal)))
  {
    hide Replayed, DecryptedPage, Frame;
    if walBuf.None? || !Replayable(walBuf.value[..]) { return Some(plainDb); }
    var wal := walBuf.value[..];
    var ps := PageSize(wal);
    var key := c.kdf(passphrase, mainSalt, 256000);
    var frameSize := FrameSize(wal);
    ghost var ws := Writes(c, key, wal);
    forall k | 0 <= k < |ws| ensures ws[k].page.Some? ==> |ws[k].page.value| == ps {
      AcceptedPage(c, key, wal, Frame(wal, k));
    }
    var out := Alloc(plainDb.Length);
    CopyInto(plainDb[..], out, 0);
    ghost var plain := plainDb[..];
    ReplayedNothing(plain, ws, ps);
    var off := 32;
    ghost var k := 0;
    while off + frameSize <= |wal|
      invariant k <= |ws| && off == 32 + k * frameSize
      invariant fresh(out) && Placed(ws[..k]) && Fit(ws[..k], ps)
      invariant out[..] == Replayed(plain, ws[..k], ps)
      decreases |wal| - off
    {
      FrameHere(wal, k, off);
      var w := WriteOf(c, key, wal, wal[off..off + frameSize]);
      assert w == ws[k];
      if w.page.Some? && w.pageNo == 0 {
        assert !Placed(ws);
        return None;
      }
      out := ReplayOne(out, w, ps, plain, ws, k);
      NextFrame(frameSize, k);
      off := off + frameSize;
      k := k + 1;
    }
    LastFrame(wal, k, off);
    assert ws[..k] == ws;
    r := Some(out);
  }

  lemma NextFrame(size: nat, k: nat)
    ensures k * size + size == (k + 1) * size
  {
  }

  /** The end of the loop body: applies one write, if it was accepted. */
  method ReplayOne(before: array<byte>, w: Write, ps: nat, ghost plain: Bytes, ghost ws: seq<Write>, ghost k: nat)
    returns (out: array<byte>)
    requires k < |ws| && w == ws[k] && Fit(ws, ps) && Placed(ws[..k]) && (w.page.Some? ==> w.pageNo >= 1)
    requires Fit(ws[..k], ps) && before[..] == Replayed(plain, ws[..k], ps)
    modifies before
    ensures out == before || fresh(out)
    ensures Placed(ws[..k + 1]) && Fit(ws[..k + 1], ps) && out[..] == Replayed(plain, ws[..k + 1], ps)
  {
    assert ws[..k + 1] == ws[..k] + [ws[k]];
    ReplayedStep(plain, ws, ps, k);
    out := before;
    if w.page.Some? {
      out := Overwrite(out, w, ps);
    }
  }

  method Overwrite(before: array<byte>, w: Write, ps: nat) returns (out: array<byte>)
    requires w.page.Some? && w.pageNo >= 1 && |w.page.value| == ps
    modifies before
    ensures out == before || fresh(out)
    ensures var need := w.pageNo * ps;
            var n := if before.Length < need then need else before.Length;
            && (w.pageNo - 1) * ps >= 0
            && out[..] == Overlay(old(before[..]) + Zeros(n - before.Length), (w.pageNo - 1) * ps, w.page.value)
  {
    PageSpan(w.pageNo, ps);
    out := PutPage(before, w.page.value, (w.pageNo - 1) * ps);
  }

  lemma PageSpan(pageNo: nat, ps: nat)
    requires pageNo >= 1
    ensures (pageNo - 1) * ps >= 0 && (pageNo - 1) * ps + ps == pageNo * ps
  {
    MulMono(0, pageNo - 1, ps);
  }

  /** Lays a page over the buffer from `at`, in a longer zero-padded copy when the buffer ends before the page does. */
  method PutPage(before: array<byte>, page: Bytes, at: nat) returns (out: array<byte>)
    modifies before
    ensures out == before || fresh(out)
    ensures var n := if before.Length < at + |page| then at + |page| else before.Length;
            out[..] == Overlay(old(before[..]) + Zeros(n - before.Length), at, page)
  {
    out := before;
    if out.Length < at + |page| {
      out := Grow(out, at + |page|);
    } else {
      assert before[..] + Zeros(0) == before[..];
    }
    CopyInto(page, out, at);
  }

  lemma CountAt(len: nat, size: nat, k: nat)
    requires len >= 32 && size > 0 && 32 + k * size + size <= len
    ensures k < Div(len - 32, size)
  {
    if k >= Div(len - 32, size) {
      MulMono(Div(len - 32, size) + 1, k + 1, size);
    }
  }

  lemma FrameHere(wal: Bytes, k: nat, off: nat)
    requires |wal| >= 32 && off == 32 + k * FrameSize(wal) && off + FrameSize(wal) <= |wal|
    ensures k < FrameCount(wal) && Frame(wal, k) == wal[off..off + FrameSize(wal)]
  {
    CountAt(|wal|, FrameSize(wal), k);
    FrameFits(wal, k);
  }

  lemma LastFrame(wal: Bytes, k: nat, off: nat)
    requires |wal| >= 32 && off == 32 + k * FrameSize(wal) && off + FrameSize(wal) > |wal| && k <= FrameCount(wal)
    ensures k == FrameCount(wal)
  {
    if k < FrameCount(wal) {
      FrameFits(wal, k);
    }
  }

  // ---- what a replay amounts to ----

  /** The final length: the original one, or the end of the furthest accepted page. */
  lemma {:induction false} LengthIsMax(len: nat, ws: seq<Write>, ps: nat)
    ensures len <= Length(len, ws, ps)
    ensures forall k :: 0 <= k < |ws| && ws[k].page.Some? ==> ws[k].pageNo * ps <= Length(len, ws, ps)
    ensures Length(len, ws, ps) == len ||
            exists k :: 0 <= k < |ws| && ws[k].page.Some? && ws[k].pageNo * ps == Length(len, ws, ps)
  {
    if ws != [] {
      var last := |ws| - 1;
      LengthIsMax(len, ws[..last], ps);
      assert forall k :: 0 <= k < last ==> ws[..last][k] == ws[k];
    }
  }

  lemma {:induction false} LengthStable(len: nat, ws: seq<Write>, ps: nat, n: nat)
    requires Length(len, ws, ps) <= n
    ensures Length(n, ws, ps) == n
  {
    if ws != [] {
      LengthStable(len, ws[..|ws| - 1], ps, n);
    }
  }

  /** Replaying the same log twice changes nothing more. */
  lemma ReplayIdempotent(plain: Bytes, ws: seq<Write>, ps: nat)
    requires Fit(ws, ps)
    ensures Replayed(Replayed(plain, ws, ps), ws, ps) == Replayed(plain, ws, ps)
  {
    LengthStable(|plain|, ws, ps, Length(|plain|, ws, ps));
  }

  /** Page `n` of the result is decided by the last accepted frame that names it. */
  lemma LastFrameWins(plain: Bytes, ws: seq<Write>, ps: nat, k: nat, q: nat)
    requires Fit(ws, ps) && k < |ws| && q < ps
    requires ws[k].page.Some? && ws[k].pageNo >= 1
    requires forall l :: k < l < |ws| && ws[l].page.Some? ==> ws[l].pageNo != ws[k].pageNo
    ensures var p := (ws[k].pageNo - 1) * ps + q;
            0 <= p < Length(|plain|, ws, ps) && ReplayedByte(plain, ws, ps, p) == ws[k].page.value[q]
  {
    var n := ws[k].pageNo;
    var p := (n - 1) * ps + q;
    assert (n - 1) * ps + ps == n * ps;
    MulMono(0, n - 1, ps);
    PageOf(p, ps, n - 1);
    LengthIsMax(|plain|, ws, ps);
    forall l | k < l < |ws| ensures !Covers(ws[l], ps, p) {
      if Covers(ws[l], ps, p) {
        if ws[l].pageNo > 0 {
          PageOf(p, ps, ws[l].pageNo - 1);
        }
      }
    }
    assert Covers(ws[k], ps, p);
    LastCoveringFinds(ws, ps, p);
  }

  /** A page that no accepted frame names keeps its bytes. */
  lemma UntouchedPage(plain: Bytes, ws: seq<Write>, ps: nat, p: nat)
    requires Fit(ws, ps) && ps > 0 && Placed(ws) && p < |plain|
    requires forall k :: 0 <= k < |ws| && ws[k].page.Some? ==> ws[k].pageNo != p / ps + 1
    ensures p < Length(|plain|, ws, ps) && ReplayedByte(plain, ws, ps, p) == plain[p]
  {
    LengthIsMax(|plain|, ws, ps);
    LastCoveringFinds(ws, ps, p);
    var k := LastCovering(ws, ps, p);
    if k.Some? {
      PageOf(p, ps, ws[k.value].pageNo - 1);
    }
  }

  // ---- which frames are accepted ----

  /** The frame carries the salts of the log's header. */
  predicate SaltsMatch(wal: Bytes, frame: Bytes)
    requires |wal| >= 32 && |frame| >= 24
  {
    U32(frame, 8) == U32(wal, 16) && U32(frame, 12) == U32(wal, 20)
  }

  /** The 16 bytes before the last 64 of a page: bounds that fall before its start count from its end. */
  lemma IvLength(enc: Bytes)
    ensures |Sub(enc, |enc| - RESERVE, |enc| - RESERVE + 16)| == 16 <==> 40 <= |enc| < 64 || |enc| >= 80
  {
  }

  /** What stands before them, without the salt of page 1. */
  function CipherLength(pageNo: nat, ps: nat): nat {
    var end := if ps >= 80 then ps - 80 else if ps >= 40 then 2 * ps - 80 else 0;
    var start := if pageNo == 1 then 16 else 0;
    if start <= end then end - start else 0
  }

  lemma CipherLengthIs(enc: Bytes, pageNo: nat)
    ensures |enc| >= 16 ==> |Sub(enc, Offset(pageNo - 1), |enc| - RESERVE)| == CipherLength(pageNo, |enc|)
  {
  }

  /** A page of this size can be deciphered: its IV is 16 bytes and its ciphertext whole blocks. */
  predicate Opens(pageNo: nat, ps: nat) {
    (40 <= ps < 64 || ps >= 80) && CipherLength(pageNo, ps) % 16 == 0
  }

  lemma OpensIff(pageNo: nat, ps: nat)
    ensures pageNo != 1 ==> (Opens(pageNo, ps) <==> (40 <= ps < 64 && ps % 8 == 0) || (ps >= 80 && ps % 16 == 0))
    ensures pageNo == 1 ==> (Opens(pageNo, ps) <==>
              40 <= ps <= 48 || (48 < ps < 64 && ps % 8 == 0) || 80 <= ps < 96 || (ps >= 96 && ps % 16 == 0))
  {
  }

  lemma PageAcceptedIff(c: Crypto, key: Bytes, enc: Bytes, pageNo: nat)
    ensures DecryptedPage(c, key, enc, pageNo - 1, |enc|).Some? <==> Opens(pageNo, |enc|)
  {
    hide Sub, CipherLength;
    IvLength(enc);
    CipherLengthIs(enc, pageNo);
  }

  /**
    In terms of the headers alone, for every page size and page number: a frame is accepted iff its
    salts match and its page opens.
  */
  lemma AcceptedIff(c: Crypto, key: Bytes, wal: Bytes, frame: Bytes)
    requires |wal| >= 32 && |frame| == FrameSize(wal)
    ensures WriteOf(c, key, wal, frame).pageNo == U32(frame, 0)
    ensures WriteOf(c, key, wal, frame).page.Some? <==>
            SaltsMatch(wal, frame) && Opens(U32(frame, 0), PageSize(wal))
  {
    hide DecryptedPage, U32, Opens;
    PageAcceptedIff(c, key, frame[24..], U32(frame, 0));
  }

  /** Frame `k` is one of the log and names page 0. */
  predicate NamesPageZero(wal: Bytes, k: nat)
    requires |wal| >= 32
  {
    k < FrameCount(wal) && SaltsMatch(wal, Frame(wal, k)) && U32(Frame(wal, k), 0) == 0
  }

  /**
    The replay throws, under every key, exactly when some frame of the log names page 0 and the
    page size is a multiple of 16 from 80 on, or 40, 48 or 56.
  */
  lemma ThrowsIff(c: Crypto, key: Bytes, wal: Bytes)
    requires |wal| >= 32
    ensures var ps := PageSize(wal);
            !Placed(Writes(c, key, wal)) <==>
            ((ps >= 80 && ps % 16 == 0) || (40 <= ps < 64 && ps % 8 == 0)) && exists k :: NamesPageZero(wal, k)
  {
    hide U32, Frame, SaltsMatch, WriteOf, Opens;
    OpensIff(0, PageSize(wal));
    var ws := Writes(c, key, wal);
    forall k | 0 <= k < |ws|
      ensures ws[k].page.Some? && ws[k].pageNo == 0 <==> Opens(0, PageSize(wal)) && NamesPageZero(wal, k)
    {
      AcceptedIff(c, key, wal, Frame(wal, k));
    }
  }

  /** A frame of the log that encrypts `content` as page `n` carries it: header, plaintext, zeroed reserve. */
  lemma EncryptedFrameAccepted(c: Crypto, enc: (Bytes, Bytes, Bytes) -> Bytes, key: Bytes, wal: Bytes, frame: Bytes,
                               content: Bytes, n: nat, salt: Bytes, iv: Bytes, tail: Bytes, w: Write)
    requires Encrypts(c, enc) && |salt| == 16 && |iv| == 16 && |tail| == RESERVE - 16
    requires |wal| >= 32 && |frame| == FrameSize(wal) && |content| == PageSize(wal) >= 16 + RESERVE &&
             |content| % 16 == 0
    requires U32(frame, 8) == U32(wal, 16) && U32(frame, 12) == U32(wal, 20)
    requires n == U32(frame, 0) >= 1 && frame[24..] == EncryptedPage(enc, key, content, n - 1, salt, iv, tail)
    requires w == WriteOf(c, key, wal, frame)
    ensures w.pageNo == n && w.page.Some? && |w.page.value| == |content|
    ensures forall q :: 0 <= q < |content| ==> w.page.value[q] == RestoredByte(content, n - 1, RESERVE, q)
  {
    var payload := frame[24..];
    assert w == Write(n, DecryptedPage(c, key, payload, n - 1, |content|));
    DecryptPageRestores(c, enc, key, content, n - 1, salt, iv, tail);
  }
}
