/**
  SQLCipher 4 page decryption and WAL replay on byte buffers.

  Key derivation and AES are functions of the `Crypto` record: all that is assumed of the
  decryption is that it keeps the length of a whole number of blocks. Where a matching encryption
  is needed it is a parameter with its own hypothesis. WAL offsets are those of section 4.1 of the
  SQLite "Database File Format" document; as in the source, frame checksums and commit markers are
  not looked at.
*/
module SqlCipher {
  import opened Common
  import opened Text

  newtype byte = x: int | 0 <= x < 256
  type Bytes = seq<byte>

  /** "SQLite format 3\0". */
  const HEADER: Bytes := [83, 81, 76, 105, 116, 101, 32, 102, 111, 114, 109, 97, 116, 32, 51, 0]

  datatype RawCrypto = RawCrypto(kdf: (string, Bytes, nat) -> Bytes, dec: (Bytes, Bytes, Bytes) -> Bytes)

  ghost predicate KeepsLength(c: RawCrypto) {
    forall key, iv, ct :: |ct| % 16 == 0 ==> |c.dec(key, iv, ct)| == |ct|
  }

  type Crypto = c: RawCrypto | KeepsLength(c) witness RawCrypto((_, _, _) => [], (_, _, ct) => ct)

  /** AES-256-CBC without padding: refuses an IV that is not one block and a partial final block. */
  function Decipher(c: Crypto, key: Bytes, iv: Bytes, ct: Bytes): (pt: Option<Bytes>)
    ensures pt.Some? ==> |pt.value| == |ct| && |iv| == 16 && |ct| % 16 == 0
  {
    if |iv| != 16 || |ct| % 16 != 0 then None else Some(c.dec(key, iv, ct))
  }

  // ---- buffers ----

  function Clamp(x: int, n: nat): nat {
    if x < 0 then (if n + x < 0 then 0 else n + x) else if x > n then n else x
  }

  /** `buf.subarray(a, b)`: negative bounds count from the end, both are clamped. */
  function Sub(s: Bytes, a: int, b: int): (r: Bytes)
    ensures |r| <= |s|
    ensures 0 <= a <= b <= |s| ==> r == s[a..b]
    ensures 0 <= a ==> |r| <= if a <= |s| then |s| - a else 0
  {
    var lo, hi := Clamp(a, |s|), Clamp(b, |s|);
    if lo <= hi then s[lo..hi] else []
  }

  /** `dst` with `src` laid over it from position `at`. */
  function Overlay(dst: Bytes, at: nat, src: Bytes): (r: Bytes)
    ensures |r| == |dst|
  {
    seq(|dst|, j requires 0 <= j < |dst| => if at <= j < at + |src| then src[j - at] else dst[j])
  }

  function Zeros(n: nat): (z: Bytes)
    ensures |z| == n
  {
    seq(n, _ => 0)
  }

  /** `src.copy(dst, at)` where it fits. */
  method CopyInto(src: Bytes, dst: array<byte>, at: nat)
    requires at + |src| <= dst.Length
    modifies dst
    ensures dst[..] == Overlay(old(dst[..]), at, src)
  {
    forall j | 0 <= j < |src| {
      dst[at + j] := src[j];
    }
  }

  method Alloc(n: nat) returns (a: array<byte>)
    ensures fresh(a) && a[..] == Zeros(n)
  {
    a := new byte[n](_ => 0);
  }

  function Offset(page: int): nat { if page == 0 then 16 else 0 }

  function RoundUp16(reserve: int): int { (reserve + 15) / 16 * 16 }

  // ---- the main database file ----

  function Page(file: Bytes, ps: nat, i: nat): (p: Bytes)
    requires (i + 1) * ps <= |file|
    ensures |p| == ps
  {
    file[i * ps..(i + 1) * ps]
  }

  /** The plaintext of page `i` of the file, or None when the page cannot be deciphered. */
  function PagePlain(c: Crypto, key: Bytes, page: Bytes, ps: nat, ra: int, i: nat): Option<Bytes> {
    Decipher(c, key, Sub(page, ps - ra, ps - ra + 16), Sub(page, Offset(i), ps - ra))
  }

  lemma PagePlainFits(c: Crypto, key: Bytes, page: Bytes, ps: nat, ra: int, i: nat)
    requires |page| == ps
    ensures var pt := PagePlain(c, key, page, ps, ra, i); pt.Some? ==> ps >= 16 && Offset(i) + |pt.value| <= ps
  {
  }

  /** Byte `q` of page `i` in the output: the plaintext where there is any, else zero. */
  function PageByte(c: Crypto, key: Bytes, page: Bytes, ps: nat, ra: int, i: nat, q: nat): byte {
    var pt := PagePlain(c, key, page, ps, ra, i);
    if pt.Some? && Offset(i) <= q < Offset(i) + |pt.value| then pt.value[q - Offset(i)] else 0
  }

  /** Byte `p` of the decrypted file. */
  function PlainByte(c: Crypto, key: Bytes, file: Bytes, ps: nat, ra: int, p: nat): byte
    requires ps > 0
  {
    if p < 16 then HEADER[p]
    else
      var i := p / ps;
      if i >= |file| / ps then 0
      else
        PagesFit(|file|, ps, i);
        PageByte(c, key, Page(file, ps, i), ps, ra, i, p % ps)
  }

  lemma PagesFit(len: nat, ps: nat, i: nat)
    requires ps > 0 && i < len / ps
    ensures (i + 1) * ps <= len
  {
    MulMono(i + 1, len / ps, ps);
  }

  lemma MulMono(a: nat, b: nat, m: nat)
    requires a <= b
    ensures a * m <= b * m
  {
  }

  lemma PageOf(p: nat, ps: nat, i: nat)
    requires ps > 0 && i * ps <= p < (i + 1) * ps
    ensures p / ps == i && p % ps == p - i * ps
  {
    var d, m := p / ps, p % ps;
    if d < i {
      MulMono(d + 1, i, ps);
    } else if d > i {
      MulMono(i + 1, d, ps);
    }
  }

  function FileKey(c: Crypto, file: Bytes, passphrase: string, kdfIter: nat): Bytes {
    c.kdf(passphrase, Sub(file, 0, 16), kdfIter)
  }

  /** `out` is decrypted below `upto` (and in the header), the rest is still zero. */
  ghost predicate Decrypted(c: Crypto, key: Bytes, file: Bytes, ps: nat, ra: int, upto: nat, out: Bytes)
    requires ps > 0
  {
    && |out| == |file|
    && forall p :: 0 <= p < |out| ==> out[p] == if p < 16 || p < upto then PlainByte(c, key, file, ps, ra, p) else 0
  }

  lemma HeaderDecrypted(c: Crypto, key: Bytes, file: Bytes, ps: nat, ra: int)
    requires ps > 0
    ensures Decrypted(c, key, file, ps, ra, 0, Overlay(Zeros(|file|), 0, HEADER[..Min(16, |file|)]))
  {
  }

  lemma PageDecrypted(c: Crypto, key: Bytes, file: Bytes, ps: nat, ra: int, i: nat, lo: nat, before: Bytes,
                      after: Bytes)
    requires ps > 0 && i < |file| / ps && lo == i * ps && lo + ps == (i + 1) * ps <= |file| == |after|
    requires Decrypted(c, key, file, ps, ra, lo, before)
    requires forall p :: 0 <= p < |after| && (p < 16 || p < lo || lo + ps <= p) ==> after[p] == before[p]
    requires forall p :: lo <= p < lo + ps && 16 <= p ==>
             after[p] == PageByte(c, key, Page(file, ps, i), ps, ra, i, p - lo)
    ensures Decrypted(c, key, file, ps, ra, lo + ps, after)
  {
    forall p | 16 <= p && lo <= p < lo + ps ensures after[p] == PlainByte(c, key, file, ps, ra, p) {
      PageByteIn(c, key, file, ps, ra, i, p);
    }
  }

  lemma PageByteIn(c: Crypto, key: Bytes, file: Bytes, ps: nat, ra: int, i: nat, p: nat)
    requires ps > 0 && i < |file| / ps && (i + 1) * ps <= |file|
    requires 16 <= p && i * ps <= p < (i + 1) * ps
    ensures PlainByte(c, key, file, ps, ra, p) == PageByte(c, key, Page(file, ps, i), ps, ra, i, p - i * ps)
  {
    PageOf(p, ps, i);
  }

  lemma AllDecrypted(c: Crypto, key: Bytes, file: Bytes, ps: nat, ra: int, out: Bytes)
    requires ps > 0 && Decrypted(c, key, file, ps, ra, |file| / ps * ps, out)
    ensures forall p :: 0 <= p < |out| ==> out[p] == PlainByte(c, key, file, ps, ra, p)
  {
    forall p | 0 <= p < |out| && |file| / ps * ps <= p ensures p / ps >= |file| / ps {
      if p / ps < |file| / ps {
        MulMono(p / ps + 1, |file| / ps, ps);
      }
    }
  }

  /** `decryptSqlcipher4`. A page size of zero would make the source loop for ever. */
  method DecryptSqlcipher4(c: Crypto, file: array<byte>, passphrase: string, ps: nat, kdfIter: nat, reserve: int)
    returns (out: array<byte>)
    requires ps > 0
    ensures fresh(out) && out.Length == file.Length
    ensures forall p :: 0 <= p < out.Length ==>
              out[p] == PlainByte(c, FileKey(c, file[..], passphrase, kdfIter), file[..], ps, RoundUp16(reserve), p)
  {
    hide PlainByte, PageByte, FileKey, RoundUp16;
    var ra := RoundUp16(reserve);
    var key := FileKey(c, file[..], passphrase, kdfIter);
    var nPages := file.Length / ps;
    out := Alloc(file.Length);
    CopyInto(HEADER[..Min(16, file.Length)], out, 0);
    HeaderDecrypted(c, key, file[..], ps, ra);
    for i := 0 to nPages
      invariant out.Length == file.Length && fresh(out)
      invariant Decrypted(c, key, file[..], ps, ra, i * ps, out[..])
    {
      PagesFit(file.Length, ps, i);
      ghost var before := out[..];
      assert Page(file[..], ps, i) == file[i * ps..(i + 1) * ps];
      DecryptInto(c, key, file[i * ps..(i + 1) * ps], ps, ra, i, out);
      PageDecrypted(c, key, file[..], ps, ra, i, i * ps, before, out[..]);
    }
    AllDecrypted(c, key, file[..], ps, ra, out[..]);
  }

  /** One turn of the loop: deciphers page `i` into its place, which is still zero. */
  method DecryptInto(c: Crypto, key: Bytes, page: Bytes, ps: nat, ra: int, i: nat, out: array<byte>)
    requires |page| == ps > 0 && (i + 1) * ps <= out.Length
    requires forall p :: i * ps <= p < (i + 1) * ps && 16 <= p ==> out[p] == 0
    modifies out
    ensures forall p :: 0 <= p < out.Length && (p < 16 || p < i * ps || (i + 1) * ps <= p) ==> out[p] == old(out[p])
    ensures forall p :: i * ps <= p < (i + 1) * ps && 16 <= p ==>
            out[p] == PageByte(c, key, page, ps, ra, i, p - i * ps)
  {
    hide PagePlain;
    PagePlainFits(c, key, page, ps, ra, i);
    var base := i * ps;
    assert base + ps == (i + 1) * ps;
    var pt := PagePlain(c, key, page, ps, ra, i);
    if pt.Some? {
      if i > 0 { MulMono(1, i, ps); }
      ghost var before := out[..];
      CopyInto(pt.value, out, base + Offset(i));
      forall p | 0 <= p < out.Length ensures out[p] == Overlay(before, base + Offset(i), pt.value)[p] {
        assert out[p] == out[..][p];
      }
    }
  }

  // ---- one page, as `decryptPage` does it ----

  const RESERVE := 80

  /** `decryptPage` as a value: the whole plaintext page, reserve and all. */
  function DecryptedPage(c: Crypto, key: Bytes, enc: Bytes, index: int, ps: nat): (r: Option<Bytes>)
    ensures r.Some? ==> |r.value| == ps
  {
    var pt := Decipher(c, key, Sub(enc, ps - RESERVE, ps - RESERVE + 16), Sub(enc, Offset(index), ps - RESERVE));
    if pt.None? then None
    else Some(Overlay(Overlay(Zeros(ps), 0, if index == 0 then HEADER else []), Offset(index), pt.value))
  }

  method DecryptPage(c: Crypto, key: Bytes, enc: Bytes, index: int, ps: nat) returns (r: Option<Bytes>)
    requires |enc| == ps
    ensures r == DecryptedPage(c, key, enc, index, ps)
  {
    var iv := Sub(enc, ps - RESERVE, ps - RESERVE + 16);
    var ct := Sub(enc, Offset(index), ps - RESERVE);
    var pt := Decipher(c, key, iv, ct);
    if pt.None? { return None; }
    var outPage := Alloc(ps);
    if index == 0 {
      CopyInto(HEADER, outPage, 0);
    }
    ghost var before := outPage[..];
    assert before == Overlay(Zeros(ps), 0, if index == 0 then HEADER else []);
    CopyInto(pt.value, outPage, Offset(index));
    r := Some(outPage[..]);
  }

  lemma PageAgrees(c: Crypto, key: Bytes, page: Bytes, ps: nat, i: nat, q: nat)
    requires |page| == ps && q < ps && (i == 0 ==> q >= 16)
    ensures var r := DecryptedPage(c, key, page, i, ps);
            PageByte(c, key, page, ps, RoundUp16(RESERVE), i, q) == if r.Some? then r.value[q] else 0
  {
    hide Decipher, Sub;
    assert RoundUp16(RESERVE) == RESERVE;
    PagePlainFits(c, key, page, ps, RESERVE, i);
    var pt := PagePlain(c, key, page, ps, RESERVE, i);
    if pt.Some? {
      OverlayByte(Overlay(Zeros(ps), 0, if i == 0 then HEADER else []), Offset(i), pt.value, q);
      OverlayByte(Zeros(ps), 0, if i == 0 then HEADER else [], q);
    }
  }

  lemma OverlayByte(a: Bytes, at: nat, src: Bytes, q: nat)
    requires at + |src| <= |a| && q < |a|
    ensures Overlay(a, at, src)[q] == if at <= q < at + |src| then src[q - at] else a[q]
  {
  }

  lemma HeaderAgrees(c: Crypto, key: Bytes, page: Bytes, ps: nat, q: nat)
    requires |page| == ps && q < 16
    ensures var r := DecryptedPage(c, key, page, 0, ps); r.Some? ==> ps >= 16 && r.value[q] == HEADER[q]
  {
  }

  /** With the default reserve the main loop decrypts each page exactly as `decryptPage` does. */
  lemma MainLoopAgrees(c: Crypto, key: Bytes, file: Bytes, ps: nat, i: nat, q: nat)
    requires ps >= 16 && i < |file| / ps && q < ps
    ensures (i + 1) * ps <= |file|
    ensures var page := DecryptedPage(c, key, Page(file, ps, i), i, ps);
            PlainByte(c, key, file, ps, RoundUp16(RESERVE), i * ps + q) ==
            if page.Some? then page.value[q] else if i == 0 && q < 16 then HEADER[q] else 0
  {
    hide DecryptedPage, PlainByte, PageByte;
    PagesFit(|file|, ps, i);
    PlainByteAt(c, key, file, ps, RoundUp16(RESERVE), i, q);
    if i == 0 && q < 16 {
      HeaderAgrees(c, key, Page(file, ps, 0), ps, q);
    } else {
      PageAgrees(c, key, Page(file, ps, i), ps, i, q);
    }
  }

  /**
    Where page, IV and reserve fit, a page is deciphered exactly when pages are whole blocks: the
    ciphertext then is too.
  */
  lemma PageDecipherIff(c: Crypto, key: Bytes, page: Bytes, ps: nat, reserve: int, i: nat)
    requires reserve >= 1 && |page| == ps && 16 + RoundUp16(reserve) <= ps
    ensures |Sub(page, Offset(i), ps - RoundUp16(reserve))| == ps - RoundUp16(reserve) - Offset(i)
    ensures PagePlain(c, key, page, ps, RoundUp16(reserve), i).Some? <==> ps % 16 == 0
  {
    hide Sub;
    var ra := RoundUp16(reserve);
    assert ra >= 16 && ra % 16 == 0;
    assert |Sub(page, ps - ra, ps - ra + 16)| == 16;
    var n := ps - ra - Offset(i);
    assert |Sub(page, Offset(i), ps - ra)| == n;
    assert n % 16 == 0 <==> ps % 16 == 0;
  }

  /** So at the default parameters deciphering never refuses a page. */
  lemma DefaultPagesDecipher(c: Crypto, key: Bytes, page: Bytes, i: nat)
    requires |page| == 4096
    ensures PagePlain(c, key, page, 4096, RoundUp16(RESERVE), i).Some?
  {
    PageDecipherIff(c, key, page, 4096, RESERVE, i);
  }

  // ---- decryption undoes encryption ----

  /** `enc` is an inverse of the decryption on whole blocks. */
  ghost predicate Encrypts(c: Crypto, enc: (Bytes, Bytes, Bytes) -> Bytes) {
    forall key, iv, pt :: |pt| % 16 == 0 ==>
      |enc(key, iv, pt)| == |pt| && c.dec(key, iv, enc(key, iv, pt)) == pt
  }

  /** A page as SQLCipher stores it: salt (page 1 only), ciphertext, IV, and the rest of the reserve. */
  function EncryptedPage(enc: (Bytes, Bytes, Bytes) -> Bytes, key: Bytes, plain: Bytes, i: nat,
                         salt: Bytes, iv: Bytes, tail: Bytes): Bytes
    requires |salt| == 16 && |iv| == 16
    requires Offset(i) + 16 + |tail| <= |plain|
  {
    (if i == 0 then salt else []) + enc(key, iv, plain[Offset(i)..|plain| - 16 - |tail|]) + iv + tail
  }

  /** Byte `q` of page `i` as decryption restores it: the fixed header, the plaintext, a zeroed reserve. */
  function RestoredByte(plain: Bytes, i: nat, ra: nat, q: nat): byte
    requires q < |plain|
  {
    if i == 0 && q < 16 then HEADER[q] else if q < |plain| - ra then plain[q] else 0
  }

  lemma EncryptedPageParts(c: Crypto, enc: (Bytes, Bytes, Bytes) -> Bytes, key: Bytes, plain: Bytes, ra: nat, i: nat,
                           salt: Bytes, iv: Bytes, tail: Bytes, e: Bytes)
    requires Encrypts(c, enc) && |salt| == 16 && |iv| == 16 && ra == 16 + |tail|
    requires |plain| % 16 == 0 && ra % 16 == 0 && Offset(i) + ra <= |plain|
    requires e == EncryptedPage(enc, key, plain, i, salt, iv, tail)
    ensures |e| == |plain| && PagePlain(c, key, e, |plain|, ra, i) == Some(plain[Offset(i)..|plain| - ra])
  {
    var ps := |plain|;
    var pt := plain[Offset(i)..ps - ra];
    var head := if i == 0 then salt else [];
    var ct := enc(key, iv, pt);
    assert |pt| % 16 == 0;
    assert |head| == Offset(i);
    assert e == head + (ct + (iv + tail));
    assert e[Offset(i)..ps - ra] == ct;
    assert e[ps - ra..ps - ra + 16] == iv;
  }

  /** The file holds, page by page, encryptions of `plain` under the key derived from its own salt. */
  ghost predicate EncryptionOf(enc: (Bytes, Bytes, Bytes) -> Bytes, key: Bytes, file: Bytes, plain: Bytes, ps: nat,
                               ra: nat)
    requires ps > 0 && 16 + ra <= ps && ra >= 16
  {
    && |file| == |plain|
    && forall i: nat :: i < |file| / ps ==> PageEncrypts(enc, key, file, plain, ps, ra, i)
  }

  ghost predicate PageEncrypts(enc: (Bytes, Bytes, Bytes) -> Bytes, key: Bytes, file: Bytes, plain: Bytes, ps: nat,
                               ra: nat, i: nat)
    requires ps > 0 && 16 + ra <= ps && ra >= 16 && |file| == |plain| && i < |file| / ps
  {
    PagesFit(|file|, ps, i);
    IsEncryptedPage(enc, key, Page(plain, ps, i), ra, i, Page(file, ps, i))
  }

  ghost predicate IsEncryptedPage(enc: (Bytes, Bytes, Bytes) -> Bytes, key: Bytes, plain: Bytes, ra: nat, i: nat,
                                  e: Bytes)
    requires 16 + ra <= |plain| && ra >= 16
  {
    exists salt: Bytes, iv: Bytes, tail: Bytes :: |salt| == 16 && |iv| == 16 && |tail| == ra - 16 &&
      e == EncryptedPage(enc, key, plain, i, salt, iv, tail)
  }

  /** Decrypting an encrypted database restores every page: header, plaintext, zeroed reserve. */
  lemma DecryptionRestores(c: Crypto, enc: (Bytes, Bytes, Bytes) -> Bytes, key: Bytes, file: Bytes, plain: Bytes,
                           ps: nat, ra: nat, i: nat, q: nat)
    requires Encrypts(c, enc)
    requires ps > 0 && ps % 16 == 0 && ra % 16 == 0 && 16 + ra <= ps && ra >= 16
    requires EncryptionOf(enc, key, file, plain, ps, ra)
    requires i < |file| / ps && q < ps
    ensures (i + 1) * ps <= |plain|
    ensures PlainByte(c, key, file, ps, ra, i * ps + q) == RestoredByte(Page(plain, ps, i), i, ra, q)
  {
    PagesFit(|file|, ps, i);
    assert PageEncrypts(enc, key, file, plain, ps, ra, i);
    EncryptedPageRead(c, enc, key, Page(plain, ps, i), ra, i, Page(file, ps, i), q);
    PlainByteAt(c, key, file, ps, ra, i, q);
  }

  /** Byte `q` of page `i`, seen in the whole file. */
  lemma PlainByteAt(c: Crypto, key: Bytes, file: Bytes, ps: nat, ra: int, i: nat, q: nat)
    requires ps >= 16 && i < |file| / ps && q < ps && (i + 1) * ps <= |file|
    ensures PlainByte(c, key, file, ps, ra, i * ps + q) ==
            if i == 0 && q < 16 then HEADER[q] else PageByte(c, key, Page(file, ps, i), ps, ra, i, q)
  {
    var p := i * ps + q;
    assert i * ps <= p < (i + 1) * ps;
    PageOf(p, ps, i);
    if i > 0 {
      MulMono(1, i, ps);
    }
  }

  lemma EncryptedPageRead(c: Crypto, enc: (Bytes, Bytes, Bytes) -> Bytes, key: Bytes, plain: Bytes, ra: nat, i: nat,
                          e: Bytes, q: nat)
    requires Encrypts(c, enc)
    requires |plain| % 16 == 0 && ra % 16 == 0 && 16 + ra <= |plain| && ra >= 16 && q < |plain|
    requires IsEncryptedPage(enc, key, plain, ra, i, e)
    ensures i > 0 || q >= 16 ==> PageByte(c, key, e, |plain|, ra, i, q) == RestoredByte(plain, i, ra, q)
  {
    var salt: Bytes, iv: Bytes, tail: Bytes :| |salt| == 16 && |iv| == 16 && |tail| == ra - 16 &&
      e == EncryptedPage(enc, key, plain, i, salt, iv, tail);
    EncryptedPageParts(c, enc, key, plain, ra, i, salt, iv, tail, e);
    PlaintextRead(c, key, plain, ra, i, e, q);
  }

  lemma PlaintextRead(c: Crypto, key: Bytes, plain: Bytes, ra: nat, i: nat, e: Bytes, q: nat)
    requires q < |plain| && Offset(i) + ra <= |plain|
    requires PagePlain(c, key, e, |plain|, ra, i) == Some(plain[Offset(i)..|plain| - ra])
    ensures i > 0 || q >= 16 ==> PageByte(c, key, e, |plain|, ra, i, q) == RestoredByte(plain, i, ra, q)
  {
  }

  /** The same for one page: `decryptPage` undoes the encryption of a page. */
  lemma DecryptPageRestores(c: Crypto, enc: (Bytes, Bytes, Bytes) -> Bytes, key: Bytes, plain: Bytes, i: nat,
                            salt: Bytes, iv: Bytes, tail: Bytes)
    requires Encrypts(c, enc) && |salt| == 16 && |iv| == 16 && |tail| == RESERVE - 16
    requires |plain| % 16 == 0 && |plain| >= 16 + RESERVE
    ensures var page := DecryptedPage(c, key, EncryptedPage(enc, key, plain, i, salt, iv, tail), i, |plain|);
            page.Some? && forall q :: 0 <= q < |plain| ==>
              page.value[q] == if i == 0 && q < 16 then HEADER[q] else if q < |plain| - 80 then plain[q] else 0
  {
    EncryptedPageParts(c, enc, key, plain, RESERVE, i, salt, iv, tail,
                       EncryptedPage(enc, key, plain, i, salt, iv, tail));
  }

  /** A database whose first 16 bytes are the fixed header and whose reserves are zero comes back unchanged. */
  lemma DecryptionInverts(c: Crypto, enc: (Bytes, Bytes, Bytes) -> Bytes, key: Bytes, file: Bytes, plain: Bytes,
                          ps: nat, ra: nat, i: nat, q: nat)
    requires Encrypts(c, enc)
    requires ps > 0 && ps % 16 == 0 && ra % 16 == 0 && 16 + ra <= ps && ra >= 16
    requires EncryptionOf(enc, key, file, plain, ps, ra)
    requires i < |file| / ps && q < ps && (i + 1) * ps <= |plain|
    requires i == 0 && q < 16 ==> Page(plain, ps, i)[q] == HEADER[q]
    requires ps - ra <= q ==> Page(plain, ps, i)[q] == 0
    ensures PlainByte(c, key, file, ps, ra, i * ps + q) == Page(plain, ps, i)[q]
  {
    DecryptionRestores(c, enc, key, file, plain, ps, ra, i, q);
  }

  // ---- a whole file, under its own salt ----

  /** The reserve is rounded up to whole blocks. */
  lemma RoundUp16Is(reserve: int)
    ensures RoundUp16(reserve) % 16 == 0 && reserve <= RoundUp16(reserve) < reserve + 16
  {
  }

  /** The fixed header is the text "SQLite format 3" and a zero byte. */
  lemma HeaderIs(i: nat)
    requires i < 16
    ensures |HEADER| == 16
    ensures HEADER[i] as int == if i < 15 then "SQLite format 3"[i] as int else 0
  {
  }

  /**
    A file that starts with a salt and is encrypted under the key derived from the passphrase and
    that salt comes back: byte `q` of page `i` is the plaintext, with the fixed header in place of
    the salt and zeros in place of the reserve.
  */
  lemma FileRestored(c: Crypto, enc: (Bytes, Bytes, Bytes) -> Bytes, passphrase: string, salt: Bytes, kdfIter: nat,
                     file: Bytes, plain: Bytes, ps: nat, reserve: int, i: nat, q: nat)
    requires Encrypts(c, enc) && |salt| == 16 && salt <= file
    requires reserve >= 16 && ps % 16 == 0 && 16 + RoundUp16(reserve) <= ps
    requires EncryptionOf(enc, c.kdf(passphrase, salt, kdfIter), file, plain, ps, RoundUp16(reserve))
    requires i < |file| / ps && q < ps
    ensures i * ps + q < |plain|
    ensures PlainByte(c, FileKey(c, file, passphrase, kdfIter), file, ps, RoundUp16(reserve), i * ps + q) ==
            if i == 0 && q < 16 then HEADER[q] else if q < ps - RoundUp16(reserve) then plain[i * ps + q] else 0
  {
    hide Encrypts, EncryptionOf, PlainByte;
    var ra := RoundUp16(reserve);
    RoundUp16Is(reserve);
    assert Sub(file, 0, 16) == file[0..16] == salt;
    DecryptionRestores(c, enc, c.kdf(passphrase, salt, kdfIter), file, plain, ps, ra, i, q);
    assert (i + 1) * ps == i * ps + ps;
  }
}
