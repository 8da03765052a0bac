/**
  A write-ahead log laid out byte by byte, as section 4.1 of the SQLite "Database File Format"
  describes it, and what its replay holds.
*/
module WalLog {
  import opened Text
  import opened SqlCipher
  import opened Wal

  const WORD: nat := 0x1_0000_0000

  /** A 32-bit number, most significant byte first. */
  function Be32(n: nat): (b: Bytes)
    ensures |b| == 4
  {
    [(n / 16777216 % 256) as byte, (n / 65536 % 256) as byte, (n / 256 % 256) as byte, (n % 256) as byte]
  }

  lemma ReadBe32(n: nat, rest: Bytes)
    requires n < WORD
    ensures U32(Be32(n) + rest, 0) == n
  {
    var s := Be32(n) + rest;
    assert s[0] == Be32(n)[0] && s[1] == Be32(n)[1] && s[2] == Be32(n)[2] && s[3] == Be32(n)[3];
    Horner(n);
  }

  lemma Horner(n: nat)
    requires n < WORD
    ensures ((n / 16777216 % 256 * 256 + n / 65536 % 256) * 256 + n / 256 % 256) * 256 + n % 256 == n
  {
    var a := n / 256;
    var b := a / 256;
    assert b == n / 65536 && b / 256 == n / 16777216;
    assert b / 256 < 256;
  }

  /** The same in the middle of a buffer. */
  lemma ReadBe32At(before: Bytes, n: nat, rest: Bytes)
    requires n < WORD
    ensures U32(before + (Be32(n) + rest), |before|) == n
  {
    var s, t := before + (Be32(n) + rest), Be32(n) + rest;
    ReadBe32(n, rest);
    assert s[|before|] == t[0] && s[|before| + 1] == t[1] && s[|before| + 2] == t[2] && s[|before| + 3] == t[3];
  }

  /** The header of a log; `last` is the last byte of its magic number. */
  datatype Header = Header(last: byte, version: nat, pageSize: nat, checkpoint: nat, salt1: nat, salt2: nat,
                           sums: Bytes)

  predicate HeaderOk(h: Header) {
    && (h.last == 0x82 || h.last == 0x83) && |h.sums| == 8
    && h.version < WORD && h.pageSize < WORD && h.checkpoint < WORD && h.salt1 < WORD && h.salt2 < WORD
  }

  function HeaderBytes(h: Header): (b: Bytes)
    ensures |h.sums| == 8 ==> |b| == 32
  {
    [0x37, 0x7f, 0x06, h.last] + (Be32(h.version) + (Be32(h.pageSize) + (Be32(h.checkpoint) +
    (Be32(h.salt1) + (Be32(h.salt2) + h.sums)))))
  }

  datatype LogFrame = LogFrame(pageNo: nat, commit: nat, salt1: nat, salt2: nat, sums: Bytes, page: Bytes)

  predicate FrameOk(f: LogFrame, ps: nat) {
    f.pageNo < WORD && f.commit < WORD && f.salt1 < WORD && f.salt2 < WORD && |f.sums| == 8 && |f.page| == ps
  }

  function FrameBytes(f: LogFrame): (b: Bytes)
    ensures |f.sums| == 8 ==> |b| == 24 + |f.page|
  {
    Be32(f.pageNo) + (Be32(f.commit) + (Be32(f.salt1) + (Be32(f.salt2) + (f.sums + f.page))))
  }

  lemma HeaderFields(h: Header, rest: Bytes)
    requires HeaderOk(h)
    ensures var log := HeaderBytes(h) + rest;
            && Replayable(log) && PageSize(log) == h.pageSize
            && U32(log, 16) == h.salt1 && U32(log, 20) == h.salt2
  {
    var magic := [0x37, 0x7f, 0x06, h.last];
    var log := HeaderBytes(h) + rest;
    var a := magic + Be32(h.version);
    var b := a + Be32(h.pageSize) + Be32(h.checkpoint);
    assert log[0] == 0x37 && log[1] == 0x7f && log[2] == 0x06 && log[3] == h.last;
    ReadBe32At(a, h.pageSize, Be32(h.checkpoint) + (Be32(h.salt1) + (Be32(h.salt2) + (h.sums + rest))));
    assert log == a + (Be32(h.pageSize) + (Be32(h.checkpoint) + (Be32(h.salt1) + (Be32(h.salt2) + (h.sums + rest)))));
    ReadBe32At(b, h.salt1, Be32(h.salt2) + (h.sums + rest));
    assert log == b + (Be32(h.salt1) + (Be32(h.salt2) + (h.sums + rest)));
    ReadBe32At(b + Be32(h.salt1), h.salt2, h.sums + rest);
    assert log == b + Be32(h.salt1) + (Be32(h.salt2) + (h.sums + rest));
  }

  lemma FrameFields(f: LogFrame, ps: nat)
    requires FrameOk(f, ps)
    ensures var b := FrameBytes(f);
            && U32(b, 0) == f.pageNo && U32(b, 8) == f.salt1 && U32(b, 12) == f.salt2 && b[24..] == f.page
  {
    var b := FrameBytes(f);
    var head := Be32(f.pageNo) + Be32(f.commit);
    ReadBe32(f.pageNo, Be32(f.commit) + (Be32(f.salt1) + (Be32(f.salt2) + (f.sums + f.page))));
    ReadBe32At(head, f.salt1, Be32(f.salt2) + (f.sums + f.page));
    assert b == head + (Be32(f.salt1) + (Be32(f.salt2) + (f.sums + f.page)));
    ReadBe32At(head + Be32(f.salt1), f.salt2, f.sums + f.page);
    assert b == head + Be32(f.salt1) + (Be32(f.salt2) + (f.sums + f.page));
    assert b == head + Be32(f.salt1) + Be32(f.salt2) + f.sums + f.page;
  }

  function FramesBytes(fs: seq<LogFrame>): Bytes {
    if fs == [] then [] else FramesBytes(fs[..|fs| - 1]) + FrameBytes(fs[|fs| - 1])
  }

  function Log(h: Header, fs: seq<LogFrame>): Bytes { HeaderBytes(h) + FramesBytes(fs) }

  predicate LogOk(h: Header, fs: seq<LogFrame>) {
    HeaderOk(h) && forall k :: 0 <= k < |fs| ==> FrameOk(fs[k], h.pageSize)
  }

  lemma {:induction false} FramesLength(fs: seq<LogFrame>, ps: nat)
    requires forall k :: 0 <= k < |fs| ==> FrameOk(fs[k], ps)
    ensures |FramesBytes(fs)| == |fs| * (24 + ps)
  {
    hide FrameBytes;
    if fs != [] {
      var init := fs[..|fs| - 1];
      FramesLength(init, ps);
      NextFrame(24 + ps, |init|);
    }
  }

  predicate FramesOk(fs: seq<LogFrame>, ps: nat) { forall k :: 0 <= k < |fs| ==> FrameOk(fs[k], ps) }

  lemma {:induction false} FramesAt(fs: seq<LogFrame>, ps: nat, k: nat, at: nat)
    requires FramesOk(fs, ps) && k < |fs| && at == k * (24 + ps)
    ensures at + 24 + ps <= |FramesBytes(fs)| && FramesBytes(fs)[at..at + 24 + ps] == FrameBytes(fs[k])
  {
    hide FrameBytes;
    var init := fs[..|fs| - 1];
    FramesLength(init, ps);
    var a, b := FramesBytes(init), FrameBytes(fs[|init|]);
    assert FrameOk(fs[|init|], ps);
    if k == |init| {
      MiddleOf(a, b, at);
    } else {
      FramesAt(init, ps, k, at);
      InFirst(a, b, at, at + 24 + ps);
    }
  }

  lemma MiddleOf(a: Bytes, b: Bytes, at: nat)
    requires at == |a|
    ensures (a + b)[at..at + |b|] == b
  {
  }

  lemma InFirst(a: Bytes, b: Bytes, lo: nat, hi: nat)
    requires lo <= hi <= |a|
    ensures (a + b)[lo..hi] == a[lo..hi]
  {
  }

  /** The log is read as what was laid out: its frames, in order. */
  lemma LogIsRead(h: Header, fs: seq<LogFrame>)
    requires LogOk(h, fs)
    ensures var log := Log(h, fs);
            && Replayable(log) && PageSize(log) == h.pageSize && FrameCount(log) == |fs|
            && U32(log, 16) == h.salt1 && U32(log, 20) == h.salt2
            && forall k :: 0 <= k < |fs| ==> Frame(log, k) == FrameBytes(fs[k])
  {
    hide U32, HeaderBytes, FrameBytes, FramesBytes;
    var log, size := Log(h, fs), 24 + h.pageSize;
    HeaderFields(h, FramesBytes(fs));
    FramesLength(fs, h.pageSize);
    CountIs(|fs|, size);
    forall k | 0 <= k < |fs| ensures Frame(log, k) == FrameBytes(fs[k]) {
      FramesAt(fs, h.pageSize, k, k * size);
      NextFrame(size, k);
      FrameFits(log, k);
      assert log[32 + k * size..32 + (k + 1) * size] == FramesBytes(fs)[k * size..k * size + size];
    }
  }

  lemma CountIs(n: nat, size: nat)
    requires size > 0
    ensures Div(n * size, size) == n
  {
  }

  /** A frame counts when it carries the salts of the header: others are left over from an earlier log. */
  predicate Current(h: Header, f: LogFrame) { f.salt1 == h.salt1 && f.salt2 == h.salt2 }

  /** The writes of a laid-out log: page numbers as written, pages of current frames deciphered. */
  lemma LogWrites(c: Crypto, key: Bytes, h: Header, fs: seq<LogFrame>, k: nat)
    requires LogOk(h, fs) && k < |fs|
    ensures |Writes(c, key, Log(h, fs))| == |fs|
    ensures Writes(c, key, Log(h, fs))[k] ==
            Write(fs[k].pageNo,
                  if Current(h, fs[k]) then DecryptedPage(c, key, fs[k].page, fs[k].pageNo - 1, h.pageSize) else None)
  {
    hide U32, FrameBytes, Log, DecryptedPage;
    LogIsRead(h, fs);
    FrameFields(fs[k], h.pageSize);
  }

  // ---- what the replay of a laid-out log holds ----

  /** What a frame encrypts: the content of its page, and the bytes the encryption adds. */
  datatype Image = Image(content: Bytes, salt: Bytes, iv: Bytes, tail: Bytes)

  /** The frame's page is the encryption of the image, 80 bytes of it reserve. */
  predicate Carries(enc: (Bytes, Bytes, Bytes) -> Bytes, key: Bytes, f: LogFrame, m: Image) {
    && f.pageNo >= 1 && |m.salt| == 16 && |m.iv| == 16 && |m.tail| == 64
    && |m.content| == |f.page| >= 96
    && f.page == EncryptedPage(enc, key, m.content, f.pageNo - 1, m.salt, m.iv, m.tail)
  }

  /** Every frame of this log carries its image; frames of an earlier log may hold anything. */
  predicate LogCarries(enc: (Bytes, Bytes, Bytes) -> Bytes, key: Bytes, h: Header, fs: seq<LogFrame>,
                       images: seq<Image>) {
    && LogOk(h, fs) && h.pageSize % 16 == 0 && h.pageSize >= 96 && |images| == |fs|
    && forall k :: 0 <= k < |fs| && Current(h, fs[k]) ==> Carries(enc, key, fs[k], images[k])
  }

  lemma CurrentIsWritten(c: Crypto, enc: (Bytes, Bytes, Bytes) -> Bytes, key: Bytes, h: Header, fs: seq<LogFrame>,
                         images: seq<Image>, k: nat)
    requires Encrypts(c, enc) && LogCarries(enc, key, h, fs, images) && k < |fs|
    ensures |Writes(c, key, Log(h, fs))| == |fs| == |images|
    ensures var w := Writes(c, key, Log(h, fs))[k];
            && w.pageNo == fs[k].pageNo && (w.page.Some? <==> Current(h, fs[k]))
            && (w.page.Some? ==>
                  && w.pageNo >= 1 && |w.page.value| == h.pageSize
                  && forall q :: 0 <= q < h.pageSize ==>
                       w.page.value[q] ==
                       if fs[k].pageNo == 1 && q < 16 then HEADER[q]
                       else if q < h.pageSize - 80 && q < |images[k].content| then images[k].content[q] else 0)
  {
    hide DecryptedPage, Log, EncryptedPage, Encrypts;
    LogWrites(c, key, h, fs, k);
    if Current(h, fs[k]) {
      var m := images[k];
      assert Carries(enc, key, fs[k], m);
      DecryptPageRestores(c, enc, key, m.content, fs[k].pageNo - 1, m.salt, m.iv, m.tail);
    }
  }

  lemma LogFits(c: Crypto, enc: (Bytes, Bytes, Bytes) -> Bytes, key: Bytes, h: Header, fs: seq<LogFrame>,
                images: seq<Image>)
    requires Encrypts(c, enc) && LogCarries(enc, key, h, fs, images)
    ensures var ws := Writes(c, key, Log(h, fs)); Fit(ws, h.pageSize) && Placed(ws)
  {
    hide Log, LogCarries, Encrypts;
    LogIsLong(c, enc, key, h, fs, images);
    forall k | 0 <= k < |fs|
      ensures var w := Writes(c, key, Log(h, fs))[k]; w.page.Some? ==> |w.page.value| == h.pageSize && w.pageNo >= 1
    {
      CurrentIsWritten(c, enc, key, h, fs, images, k);
    }
  }

  lemma LogIsLong(c: Crypto, enc: (Bytes, Bytes, Bytes) -> Bytes, key: Bytes, h: Header, fs: seq<LogFrame>,
                  images: seq<Image>)
    requires LogCarries(enc, key, h, fs, images)
    ensures |Writes(c, key, Log(h, fs))| == |fs| && PageSize(Log(h, fs)) == h.pageSize && Replayable(Log(h, fs))
  {
    hide Log, U32;
    LogIsRead(h, fs);
  }

  /**
    The replay of a laid-out log: byte `q` of page `n` is what the last current frame for `n`
    encrypts, with the fixed header on page 1 and the reserve zeroed; frames left over from an
    earlier log do not count.
  */
  lemma LogReplays(c: Crypto, enc: (Bytes, Bytes, Bytes) -> Bytes, passphrase: string, mainSalt: Bytes, plain: Bytes,
                   h: Header, fs: seq<LogFrame>, images: seq<Image>, k: nat, q: nat)
    requires Encrypts(c, enc) && LogCarries(enc, c.kdf(passphrase, mainSalt, 256000), h, fs, images)
    requires k < |fs| && Current(h, fs[k]) && q < h.pageSize
    requires forall l :: k < l < |fs| && Current(h, fs[l]) ==> fs[l].pageNo != fs[k].pageNo
    ensures var log := Log(h, fs);
            var ws := Writes(c, c.kdf(passphrase, mainSalt, 256000), log);
            var p := (fs[k].pageNo - 1) * h.pageSize + q;
            && Replayable(log) && PageSize(log) == h.pageSize && Fit(ws, h.pageSize) && Placed(ws)
            && 0 <= p < |Replayed(plain, ws, h.pageSize)|
            && Replayed(plain, ws, h.pageSize)[p] ==
               if fs[k].pageNo == 1 && q < 16 then HEADER[q]
               else if q < h.pageSize - 80 then images[k].content[q] else 0
  {
    hide Log, LogCarries, Encrypts, LastCovering, ReplayedByte, WriteOf, Covers, Current, U32, Length;
    var key, ps := c.kdf(passphrase, mainSalt, 256000), h.pageSize;
    LogIsLong(c, enc, key, h, fs, images);
    var ws := Writes(c, key, Log(h, fs));
    LogFits(c, enc, key, h, fs, images);
    CurrentIsWritten(c, enc, key, h, fs, images, k);
    forall l | k < l < |ws| && ws[l].page.Some? ensures ws[l].pageNo != ws[k].pageNo {
      CurrentIsWritten(c, enc, key, h, fs, images, l);
    }
    ImageLength(enc, key, h, fs, images, k);
    LastFrameWins(plain, ws, ps, k, q);
  }

  lemma ImageLength(enc: (Bytes, Bytes, Bytes) -> Bytes, key: Bytes, h: Header, fs: seq<LogFrame>, images: seq<Image>,
                    k: nat)
    requires LogCarries(enc, key, h, fs, images) && k < |fs| && Current(h, fs[k])
    ensures |images| == |fs| && |images[k].content| == h.pageSize >= 96 && fs[k].pageNo >= 1
  {
    assert Carries(enc, key, fs[k], images[k]);
  }

  /** A page that no current frame names keeps its bytes. */
  lemma LogKeepsRest(c: Crypto, enc: (Bytes, Bytes, Bytes) -> Bytes, key: Bytes, plain: Bytes, h: Header,
                     fs: seq<LogFrame>, images: seq<Image>, p: nat)
    requires Encrypts(c, enc) && LogCarries(enc, key, h, fs, images) && h.pageSize > 0 && p < |plain|
    requires forall k :: 0 <= k < |fs| && Current(h, fs[k]) ==> fs[k].pageNo != p / h.pageSize + 1
    ensures var ws := Writes(c, key, Log(h, fs));
            && Fit(ws, h.pageSize) && p < |Replayed(plain, ws, h.pageSize)|
            && Replayed(plain, ws, h.pageSize)[p] == plain[p]
  {
    hide Log, LogCarries, Encrypts, LastCovering, ReplayedByte, WriteOf, Covers, Current;
    LogIsLong(c, enc, key, h, fs, images);
    var ws := Writes(c, key, Log(h, fs));
    LogFits(c, enc, key, h, fs, images);
    forall l | 0 <= l < |ws| && ws[l].page.Some? ensures ws[l].pageNo != p / h.pageSize + 1 {
      CurrentIsWritten(c, enc, key, h, fs, images, l);
    }
    UntouchedPage(plain, ws, h.pageSize, p);
  }
}
