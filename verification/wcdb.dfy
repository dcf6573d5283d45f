/** The page cipher of the message databases and their write-ahead logs (`src/db/wcdb.rs`). */
module Wcdb {
  import opened Wrappers
  import opened Bytes

  const PAGE: nat := 4096
  const RESERVE: nat := 80
  const IV: nat := 16
  const MAC: nat := 64
  const SALT: nat := 16
  const USABLE: nat := 4016

  const WAL_HEADER: nat := 32
  const FRAME_HEADER: nat := 24
  const FRAME: nat := 4120
  const MAX_PGNO: nat := 1_000_000

  /** "SQLite format 3" and a zero byte. */
  const SQLITE_HEADER: seq<byte> := [83, 81, 76, 105, 116, 101, 32, 102, 111, 114, 109, 97, 116, 32, 51, 0]

  /** One encryption key: its block cipher, and its page authentication code by salt, text and page number. */
  datatype Key = Key(cipher: Cipher, mac: (seq<byte>, seq<byte>, nat) -> seq<byte>)

  ghost predicate IsKey(k: Key) {
    IsCipher(k.cipher) && forall salt, text, pgno :: |k.mac(salt, text, pgno)| == MAC
  }

  // ---- cipher block chaining -------------------------------------------------------------------

  function CbcEncrypt(c: Cipher, iv: seq<byte>, text: seq<byte>): seq<byte>
    requires IsCipher(c) && |iv| == BLOCK && |text| % BLOCK == 0
    decreases |text|
  {
    if text == [] then []
    else
      var block := c.enc(Xor(text[..BLOCK], iv));
      block + CbcEncrypt(c, block, text[BLOCK..])
  }

  function CbcDecrypt(c: Cipher, iv: seq<byte>, text: seq<byte>): (plain: seq<byte>)
    requires IsCipher(c) && |iv| == BLOCK && |text| % BLOCK == 0
    ensures |plain| == |text|
    decreases |text|
  {
    if text == [] then []
    else Xor(c.dec(text[..BLOCK]), iv) + CbcDecrypt(c, text[..BLOCK], text[BLOCK..])
  }

  lemma {:induction false} CbcRoundTrip(c: Cipher, iv: seq<byte>, text: seq<byte>)
    requires IsCipher(c) && |iv| == BLOCK && |text| % BLOCK == 0
    ensures |CbcEncrypt(c, iv, text)| == |text|
    ensures CbcDecrypt(c, iv, CbcEncrypt(c, iv, text)) == text
    decreases |text|
  {
    if text != [] {
      var first, rest := text[..BLOCK], text[BLOCK..];
      var block := c.enc(Xor(first, iv));
      CbcRoundTrip(c, block, rest);
      XorTwice(first, iv);
      var coded := block + CbcEncrypt(c, block, rest);
      assert coded[..BLOCK] == block && coded[BLOCK..] == CbcEncrypt(c, block, rest);
      assert text == first + rest;
    }
  }

  lemma CbcOneBlock(c: Cipher, iv: seq<byte>, text: seq<byte>)
    requires IsCipher(c) && |iv| == BLOCK && |text| % BLOCK == 0 && |text| >= BLOCK
    ensures |c.dec(text[..BLOCK])| == BLOCK && |text[BLOCK..]| % BLOCK == 0
    ensures text == text[..BLOCK] + text[BLOCK..]
    ensures CbcDecrypt(c, iv, text) == Xor(c.dec(text[..BLOCK]), iv) + CbcDecrypt(c, text[..BLOCK], text[BLOCK..])
  {
    hide Xor;
  }

  /** Each block of the plain text is that block of the text decrypted, combined with the block of the text
      before it, or with the initialisation vector. */
  lemma {:induction false} CbcBlock(c: Cipher, iv: seq<byte>, text: seq<byte>, i: nat)
    requires IsCipher(c) && |iv| == BLOCK && |text| % BLOCK == 0 && (i + 1) * BLOCK <= |text|
    ensures Block(CbcDecrypt(c, iv, text), i) == Xor(c.dec(Block(text, i)), if i == 0 then iv else Block(text, i - 1))
    decreases i
  {
    var first, rest := text[..BLOCK], text[BLOCK..];
    CbcOneBlock(c, iv, text);
    hide CbcDecrypt, Xor, Block, IsCipher;
    var block, behind := Xor(c.dec(first), iv), CbcDecrypt(c, first, rest);
    BlockBehind(block, behind, i);
    BlockBehind(first, rest, i);
    if i > 0 {
      BlockBehind(first, rest, i - 1);
      CbcBlock(c, first, rest, i - 1);
    }
  }

  // ---- one page ----------------------------------------------------------------------------------

  /** Where the ciphertext of a page begins: the first page carries the salt in front. */
  function TextStart(pgno: nat): nat {
    if pgno == 1 then SALT else 0
  }

  function EncryptPage(k: Key, salt: seq<byte>, pgno: nat, plain: seq<byte>, iv: seq<byte>): (page: seq<byte>)
    requires IsKey(k) && |salt| == SALT && |plain| == PAGE && |iv| == IV
    ensures |page| == PAGE
  {
    CbcRoundTrip(k.cipher, iv, plain[TextStart(pgno)..USABLE]);
    var text := CbcEncrypt(k.cipher, iv, plain[TextStart(pgno)..USABLE]) + iv;
    (if pgno == 1 then salt else []) + text + k.mac(salt, text, pgno)
  }

  function VerifyPage1(k: Key, page: seq<byte>): bool {
    |page| >= PAGE && k.mac(page[..SALT], page[SALT..USABLE + IV], 1) == page[PAGE - MAC..]
  }

  function DecryptPage(k: Key, page: seq<byte>, pgno: nat): (plain: Option<seq<byte>>)
    requires IsKey(k)
    ensures plain.Some? <==> |page| >= PAGE
    ensures plain.Some? ==> |plain.value| == PAGE
  {
    if |page| < PAGE then None
    else
      var text := CbcDecrypt(k.cipher, page[USABLE..USABLE + IV], page[TextStart(pgno)..USABLE]);
      Some((if pgno == 1 then SQLITE_HEADER else []) + text + Zeros(RESERVE))
  }

  /** What is left of a page after a trip to disk: the standard header on the first, nothing in the reserve. */
  function Standard(plain: seq<byte>, pgno: nat): (page: seq<byte>)
    requires |plain| == PAGE
    ensures |page| == PAGE
  {
    (if pgno == 1 then SQLITE_HEADER else []) + plain[TextStart(pgno)..USABLE] + Zeros(RESERVE)
  }

  lemma PageRoundTrip(k: Key, salt: seq<byte>, pgno: nat, plain: seq<byte>, iv: seq<byte>)
    requires IsKey(k) && |salt| == SALT && |plain| == PAGE && |iv| == IV
    ensures DecryptPage(k, EncryptPage(k, salt, pgno, plain, iv), pgno) == Some(Standard(plain, pgno))
    ensures pgno == 1 ==> VerifyPage1(k, EncryptPage(k, salt, pgno, plain, iv))
  {
    hide CbcEncrypt, CbcDecrypt, IsCipher;
    var body := plain[TextStart(pgno)..USABLE];
    var coded := CbcEncrypt(k.cipher, iv, body);
    var mac := k.mac(salt, coded + iv, pgno);
    CbcRoundTrip(k.cipher, iv, body);
    PageParts(if pgno == 1 then salt else [], coded, iv, mac);
  }

  /** Page 1 authenticates under its own code and no other. */
  lemma OtherCodeRefused(k: Key, salt: seq<byte>, plain: seq<byte>, iv: seq<byte>, code: seq<byte>)
    requires IsKey(k) && |salt| == SALT && |plain| == PAGE && |iv| == IV && |code| == MAC
    ensures
      var page := EncryptPage(k, salt, 1, plain, iv);
      VerifyPage1(k, page[..PAGE - MAC] + code) <==> code == page[PAGE - MAC..]
  {
    hide CbcEncrypt, IsCipher;
    var coded := CbcEncrypt(k.cipher, iv, plain[TextStart(1)..USABLE]);
    CbcRoundTrip(k.cipher, iv, plain[TextStart(1)..USABLE]);
    PageParts(salt, coded, iv, k.mac(salt, coded + iv, 1));
    PageParts(salt, coded, iv, code);
    var page := EncryptPage(k, salt, 1, plain, iv);
    assert page[..PAGE - MAC] + code == salt + (coded + iv) + code;
  }

  lemma PageParts(front: seq<byte>, coded: seq<byte>, iv: seq<byte>, mac: seq<byte>)
    requires |front| + |coded| == USABLE && |iv| == IV && |mac| == MAC
    ensures
      var page := front + (coded + iv) + mac;
      && |page| == PAGE
      && page[..|front|] == front && page[|front|..USABLE] == coded
      && page[|front|..USABLE + IV] == coded + iv
      && page[USABLE..USABLE + IV] == iv && page[PAGE - MAC..] == mac
  {
  }

  // ---- a whole file ---------------------------------------------------------------------------------

  function PageCount(length: nat): (n: nat)
    ensures n * PAGE >= length && (n > 0 ==> (n - 1) * PAGE < length)
  {
    (length + PAGE - 1) / PAGE
  }

  /** The bytes of page `i + 1` of a file; a file that ends inside it is filled up with zeros. */
  function PageAt(file: seq<byte>, i: nat): (page: seq<byte>)
    requires i < PageCount(|file|)
    ensures |page| == PAGE
  {
    if (i + 1) * PAGE <= |file| then file[i * PAGE..(i + 1) * PAGE]
    else file[i * PAGE..] + Zeros((i + 1) * PAGE - |file|)
  }

  /** The first `n` pages, decrypted. */
  function DecryptPages(k: Key, file: seq<byte>, n: nat): (plain: seq<byte>)
    requires IsKey(k) && n <= PageCount(|file|)
    ensures |plain| == n * PAGE
  {
    if n == 0 then [] else DecryptPages(k, file, n - 1) + DecryptPage(k, PageAt(file, n - 1), n).value
  }

  method DecryptDb(k: Key, file: seq<byte>) returns (plain: Option<seq<byte>>)
    requires IsKey(k)
    ensures plain.Some? <==> |file| >= PAGE && VerifyPage1(k, file[..PAGE])
    ensures plain.Some? ==> plain.value == DecryptPages(k, file, PageCount(|file|))
  {
    hide IsKey, DecryptPage, VerifyPage1, PageAt;
    if |file| < PAGE {
      return None;
    }
    var intact := VerifyPage1(k, file[..PAGE]);
    if !intact {
      return None;
    }
    var total := PageCount(|file|);
    var pageBuf := new byte[PAGE](_ => 0);
    var out := [];
    var i := 0;
    while i < total
      invariant 0 <= i <= total && pageBuf.Length == PAGE && fresh(pageBuf)
      invariant out == DecryptPages(k, file, i)
    {
      FillPage(pageBuf, file, i);
      var page := DecryptPage(k, pageBuf[..], i + 1);
      out := out + page.value;
      i := i + 1;
    }
    plain := Some(out);
  }

  /** Copies page `i + 1` of the file into the buffer, over whatever the page before left there. */
  method FillPage(buf: array<byte>, file: seq<byte>, i: nat)
    requires buf.Length == PAGE && i < PageCount(|file|)
    modifies buf
    ensures buf[..] == PageAt(file, i)
  {
    var start := i * PAGE;
    var n := if start + PAGE <= |file| then PAGE else |file| - start;
    var j := 0;
    while j < n
      invariant 0 <= j <= n
      invariant buf[..j] == file[start..start + j]
    {
      buf[j] := file[start + j];
      assert buf[..j + 1] == file[start..start + j] + [file[start + j]];
      j := j + 1;
    }
    while j < PAGE
      invariant n <= j <= PAGE
      invariant buf[..j] == file[start..start + n] + Zeros(j - n)
    {
      buf[j] := 0;
      assert buf[..j + 1] == file[start..start + n] + Zeros(j - n) + [0];
      j := j + 1;
    }
    assert buf[..] == buf[..PAGE];
  }

  /** A file encrypted page by page, with any initialisation vectors. */
  function EncryptPages(k: Key, salt: seq<byte>, pages: seq<seq<byte>>, ivs: seq<seq<byte>>): (file: seq<byte>)
    requires IsKey(k) && |salt| == SALT && |ivs| == |pages|
    requires forall i :: 0 <= i < |pages| ==> |pages[i]| == PAGE && |ivs[i]| == IV
    ensures |file| == |pages| * PAGE
  {
    if pages == [] then []
    else
      var n := |pages|;
      EncryptPages(k, salt, pages[..n - 1], ivs[..n - 1]) + EncryptPage(k, salt, n, pages[n - 1], ivs[n - 1])
  }

  function StandardPages(pages: seq<seq<byte>>): seq<byte>
    requires forall i :: 0 <= i < |pages| ==> |pages[i]| == PAGE
  {
    if pages == [] then []
    else StandardPages(pages[..|pages| - 1]) + Standard(pages[|pages| - 1], |pages|)
  }

  lemma {:induction false} PagesAreWhere(k: Key, salt: seq<byte>, pages: seq<seq<byte>>, ivs: seq<seq<byte>>, i: nat)
    requires IsKey(k) && |salt| == SALT && |ivs| == |pages| && i < |pages|
    requires forall j :: 0 <= j < |pages| ==> |pages[j]| == PAGE && |ivs[j]| == IV
    ensures EncryptPages(k, salt, pages, ivs)[i * PAGE..(i + 1) * PAGE] == EncryptPage(k, salt, i + 1, pages[i], ivs[i])
    decreases |pages|
  {
    hide IsKey, EncryptPage;
    var n := |pages|;
    var init := EncryptPages(k, salt, pages[..n - 1], ivs[..n - 1]);
    var last := EncryptPage(k, salt, n, pages[n - 1], ivs[n - 1]);
    if i < n - 1 {
      PagesAreWhere(k, salt, pages[..n - 1], ivs[..n - 1], i);
      assert (init + last)[i * PAGE..(i + 1) * PAGE] == init[i * PAGE..(i + 1) * PAGE];
    } else {
      assert (init + last)[i * PAGE..(i + 1) * PAGE] == last;
    }
  }

  lemma CountOfPages(n: nat)
    ensures PageCount(n * PAGE) == n
  {
  }

  lemma OneMorePage(k: Key, salt: seq<byte>, pages: seq<seq<byte>>, ivs: seq<seq<byte>>, i: nat)
    requires IsKey(k) && |salt| == SALT && |ivs| == |pages| && i < |pages|
    requires forall j :: 0 <= j < |pages| ==> |pages[j]| == PAGE && |ivs[j]| == IV
    ensures
      var file := EncryptPages(k, salt, pages, ivs);
      && PageCount(|file|) == |pages|
      && DecryptPages(k, file, i + 1) == DecryptPages(k, file, i) + Standard(pages[i], i + 1)
  {
    hide IsKey, EncryptPage, DecryptPage, EncryptPages, Standard, PageCount;
    CountOfPages(|pages|);
    PagesAreWhere(k, salt, pages, ivs, i);
    PageRoundTrip(k, salt, i + 1, pages[i], ivs[i]);
  }

  lemma {:induction false} PagesRoundTrip(k: Key, salt: seq<byte>, pages: seq<seq<byte>>, ivs: seq<seq<byte>>, n: nat)
    requires IsKey(k) && |salt| == SALT && |ivs| == |pages| && n <= |pages|
    requires forall j :: 0 <= j < |pages| ==> |pages[j]| == PAGE && |ivs[j]| == IV
    ensures PageCount(|EncryptPages(k, salt, pages, ivs)|) == |pages|
    ensures DecryptPages(k, EncryptPages(k, salt, pages, ivs), n) == StandardPages(pages[..n])
  {
    hide IsKey, EncryptPages, Standard, PageCount;
    CountOfPages(|pages|);
    if n > 0 {
      PagesRoundTrip(k, salt, pages, ivs, n - 1);
      OneMorePage(k, salt, pages, ivs, n - 1);
      hide DecryptPages;
      assert pages[..n][..n - 1] == pages[..n - 1];
    }
  }

  lemma FirstPageVerifies(k: Key, salt: seq<byte>, pages: seq<seq<byte>>, ivs: seq<seq<byte>>)
    requires IsKey(k) && |salt| == SALT && |ivs| == |pages| > 0
    requires forall j :: 0 <= j < |pages| ==> |pages[j]| == PAGE && |ivs[j]| == IV
    ensures
      var file := EncryptPages(k, salt, pages, ivs);
      |file| >= PAGE && VerifyPage1(k, file[..PAGE])
  {
    hide IsKey, EncryptPages, EncryptPage, VerifyPage1, DecryptPage, Standard;
    PagesAreWhere(k, salt, pages, ivs, 0);
    PageRoundTrip(k, salt, 1, pages[0], ivs[0]);
    var file := EncryptPages(k, salt, pages, ivs);
    assert file[0 * PAGE..(0 + 1) * PAGE] == file[..PAGE];
  }

  /** Decrypting a page-wise encrypted database gives back its pages, the first with the standard header
      and every one with an empty reserve; page 1 authenticates it. */
  lemma DbRoundTrip(k: Key, salt: seq<byte>, pages: seq<seq<byte>>, ivs: seq<seq<byte>>)
    requires IsKey(k) && |salt| == SALT && |ivs| == |pages| > 0
    requires forall j :: 0 <= j < |pages| ==> |pages[j]| == PAGE && |ivs[j]| == IV
    ensures
      var file := EncryptPages(k, salt, pages, ivs);
      && |file| >= PAGE && VerifyPage1(k, file[..PAGE])
      && DecryptPages(k, file, PageCount(|file|)) == StandardPages(pages)
  {
    hide IsKey, EncryptPages, EncryptPage, StandardPages, DecryptPages, VerifyPage1;
    FirstPageVerifies(k, salt, pages, ivs);
    PagesRoundTrip(k, salt, pages, ivs, |pages|);
    assert pages[..|pages|] == pages;
  }

  // ---- the write-ahead log ---------------------------------------------------------------------------

  datatype WalFrame = WalFrame(pgno: nat, page: seq<byte>)

  /** Frames are laid out one after the other behind the header. */
  function SlotCount(length: nat): nat {
    if length <= WAL_HEADER then 0 else (length - WAL_HEADER) / FRAME
  }

  lemma SlotFits(length: nat, i: nat)
    ensures i < SlotCount(length) <==> WAL_HEADER + (i + 1) * FRAME <= length
  {
  }

  function Slot(wal: seq<byte>, i: nat): (frame: seq<byte>)
    requires i < SlotCount(|wal|)
    ensures |frame| == FRAME
  {
    SlotFits(|wal|, i);
    wal[WAL_HEADER + i * FRAME..WAL_HEADER + (i + 1) * FRAME]
  }

  function SlotPgno(wal: seq<byte>, i: nat): nat
    requires i < SlotCount(|wal|)
  {
    FromBE(Slot(wal, i)[..4])
  }

  /** A frame of the present cycle: both salts are those of the log's header, and its page number is one
      a database can have. */
  predicate IsCurrent(wal: seq<byte>, i: nat)
    requires i < SlotCount(|wal|)
  {
    SlotFits(|wal|, i);
    && 0 < SlotPgno(wal, i) <= MAX_PGNO
    && FromBE(Slot(wal, i)[8..12]) == FromBE(wal[16..20])
    && FromBE(Slot(wal, i)[12..16]) == FromBE(wal[20..24])
  }

  function FrameAt(k: Key, wal: seq<byte>, i: nat): (f: WalFrame)
    requires IsKey(k) && i < SlotCount(|wal|)
    ensures |f.page| == PAGE
  {
    WalFrame.WalFrame(SlotPgno(wal, i), DecryptPage(k, Slot(wal, i)[FRAME_HEADER..], SlotPgno(wal, i)).value)
  }

  /** The current frames among the first `n`, in log order. */
  function Frames(k: Key, wal: seq<byte>, n: nat): (frames: seq<WalFrame>)
    requires IsKey(k) && n <= SlotCount(|wal|)
    ensures FramesOk(frames) && forall f :: f in frames ==> f.pgno <= MAX_PGNO
  {
    if n == 0 then []
    else
      var rest := Frames(k, wal, n - 1);
      if IsCurrent(wal, n - 1) then rest + [FrameAt(k, wal, n - 1)] else rest
  }

  /** Reads the frame at this offset: its page, if it is a current one. */
  method ReadFrame(k: Key, wal: seq<byte>, off: nat, ghost i: nat) returns (f: Option<WalFrame>)
    requires IsKey(k) && i < SlotCount(|wal|) && off == WAL_HEADER + i * FRAME
    ensures f == if IsCurrent(wal, i) then Some(FrameAt(k, wal, i)) else None
  {
    hide IsKey, DecryptPage, FromBE;
    SlotFits(|wal|, i);
    var frame := wal[off..off + FRAME];
    assert frame == Slot(wal, i);
    hide Slot;
    var pgno := FromBE(frame[..4]);
    var sameCycle := FromBE(frame[8..12]) == FromBE(wal[16..20]) && FromBE(frame[12..16]) == FromBE(wal[20..24]);
    if pgno == 0 || pgno > MAX_PGNO || !sameCycle {
      return None;
    }
    var page := DecryptPage(k, frame[FRAME_HEADER..], pgno);
    f := Some(WalFrame.WalFrame(pgno, page.value));
  }

  method DecryptWalFrames(k: Key, wal: seq<byte>) returns (frames: seq<WalFrame>)
    requires IsKey(k)
    ensures frames == Frames(k, wal, SlotCount(|wal|))
  {
    hide IsKey, FrameAt, IsCurrent;
    frames := [];
    if |wal| <= WAL_HEADER {
      return;
    }
    var off := WAL_HEADER;
    ghost var i := 0;
    SlotFits(|wal|, 0);
    while off + FRAME <= |wal|
      invariant off == WAL_HEADER + i * FRAME
      invariant i <= SlotCount(|wal|) && frames == Frames(k, wal, i)
      decreases |wal| - off
    {
      SlotFits(|wal|, i);
      var f := ReadFrame(k, wal, off, i);
      if f.Some? {
        frames := frames + [f.value];
      }
      off := off + FRAME;
      i := i + 1;
    }
    SlotFits(|wal|, i);
  }

  // ---- a log as the other side writes it --------------------------------------------------------------

  /** A frame on its way to the log: the salts of the cycle it was written in, two header fields nobody
      reads here, and the page with its initialisation vector. */
  datatype LogFrame = LogFrame(pgno: nat, size: seq<byte>, salts: seq<byte>, sum: seq<byte>, plain: seq<byte>, iv: seq<byte>)

  predicate LogFrameOk(f: LogFrame) {
    && f.pgno < 0x1_0000_0000 && |f.size| == 4 && |f.salts| == 8 && |f.sum| == 8
    && |f.plain| == PAGE && |f.iv| == IV
  }

  predicate LogOk(frames: seq<LogFrame>) {
    forall f :: f in frames ==> LogFrameOk(f)
  }

  function FrameBytes(k: Key, salt: seq<byte>, f: LogFrame): (bytes: seq<byte>)
    requires IsKey(k) && |salt| == SALT && LogFrameOk(f)
    ensures |bytes| == FRAME
  {
    BE(f.pgno) + f.size + f.salts + f.sum + EncryptPage(k, salt, f.pgno, f.plain, f.iv)
  }

  /** The frames one after the other. */
  function FramesBytes(k: Key, salt: seq<byte>, frames: seq<LogFrame>): (bytes: seq<byte>)
    requires IsKey(k) && |salt| == SALT && LogOk(frames)
    ensures |bytes| == |frames| * FRAME
  {
    if frames == [] then []
    else FramesBytes(k, salt, frames[..|frames| - 1]) + FrameBytes(k, salt, frames[|frames| - 1])
  }

  /** The log: sixteen bytes nobody reads here, the salts of the present cycle, eight bytes more, the
      frames, and what is left of the preallocated file. */
  function LogBytes(k: Key, salt: seq<byte>, front: seq<byte>, salts: seq<byte>, sum: seq<byte>, frames: seq<LogFrame>, rest: seq<byte>): seq<byte>
    requires IsKey(k) && |salt| == SALT && LogOk(frames)
  {
    front + salts + sum + FramesBytes(k, salt, frames) + rest
  }

  /** The frames of the present cycle whose page number a database can have, in order, with the page as a
      snapshot holds it. */
  function CurrentFrames(frames: seq<LogFrame>, salts: seq<byte>): seq<WalFrame>
    requires LogOk(frames)
  {
    if frames == [] then []
    else
      var before, last := CurrentFrames(frames[..|frames| - 1], salts), frames[|frames| - 1];
      assert last in frames;
      if last.salts == salts && 1 <= last.pgno <= 1_000_000 then before + [WalFrame.WalFrame(last.pgno, Standard(last.plain, last.pgno))]
      else before
  }

  lemma {:induction false} FrameIsWhere(k: Key, salt: seq<byte>, frames: seq<LogFrame>, i: nat)
    requires IsKey(k) && |salt| == SALT && LogOk(frames) && i < |frames|
    ensures FramesBytes(k, salt, frames)[i * FRAME..(i + 1) * FRAME] == FrameBytes(k, salt, frames[i])
    decreases |frames|
  {
    hide IsKey, FrameBytes, LogFrameOk;
    var n := |frames|;
    var init, last := FramesBytes(k, salt, frames[..n - 1]), FrameBytes(k, salt, frames[n - 1]);
    if i < n - 1 {
      FrameIsWhere(k, salt, frames[..n - 1], i);
      assert (init + last)[i * FRAME..(i + 1) * FRAME] == init[i * FRAME..(i + 1) * FRAME];
    } else {
      assert (init + last)[i * FRAME..(i + 1) * FRAME] == last;
    }
  }

  lemma SlotOfLog(head: seq<byte>, body: seq<byte>, rest: seq<byte>, n: nat, i: nat)
    requires |head| == WAL_HEADER && |body| == n * FRAME && |rest| < FRAME && i < n
    ensures SlotCount(|head + body + rest|) == n
    ensures Slot(head + body + rest, i) == body[i * FRAME..(i + 1) * FRAME]
  {
    SlotFits(|head + body + rest|, n - 1);
    SlotFits(|head + body + rest|, n);
    hide SlotCount;
    var log := head + body + rest;
    assert log[WAL_HEADER..][..|body|] == body;
  }
  /** What a slot says that holds this frame. */
  lemma FrameParts(k: Key, salt: seq<byte>, f: LogFrame)
    requires IsKey(k) && |salt| == SALT && LogFrameOk(f)
    ensures
      var bytes := FrameBytes(k, salt, f);
      && FromBE(bytes[..4]) == f.pgno
      && bytes[8..12] == f.salts[..4] && bytes[12..16] == f.salts[4..]
      && bytes[FRAME_HEADER..] == EncryptPage(k, salt, f.pgno, f.plain, f.iv)
  {
    BERoundTrip(f.pgno);
    var page := EncryptPage(k, salt, f.pgno, f.plain, f.iv);
    hide FromBE, BE, EncryptPage, IsKey;
    HeaderParts(BE(f.pgno), f.size, f.salts, f.sum, page);
  }

  lemma HeaderParts(pgno: seq<byte>, size: seq<byte>, salts: seq<byte>, sum: seq<byte>, page: seq<byte>)
    requires |pgno| == |size| == 4 && |salts| == |sum| == 8
    ensures
      var bytes := pgno + size + salts + sum + page;
      && bytes[..4] == pgno && bytes[8..12] == salts[..4] && bytes[12..16] == salts[4..]
      && bytes[FRAME_HEADER..] == page
  {
  }

  /** A slot of a log with these salts in its header that holds this frame. */
  lemma SlotReads(k: Key, salt: seq<byte>, wal: seq<byte>, i: nat, salts: seq<byte>, f: LogFrame)
    requires IsKey(k) && |salt| == SALT && LogFrameOk(f) && |salts| == 8
    requires i < SlotCount(|wal|) && Slot(wal, i) == FrameBytes(k, salt, f)
    requires WAL_HEADER <= |wal| && wal[16..20] == salts[..4] && wal[20..24] == salts[4..]
    ensures IsCurrent(wal, i) <==> f.salts == salts && 1 <= f.pgno <= 1_000_000
    ensures FrameAt(k, wal, i) == WalFrame.WalFrame(f.pgno, Standard(f.plain, f.pgno))
  {
    hide FrameBytes, IsKey, SlotCount, DecryptPage, Standard, EncryptPage;
    FrameParts(k, salt, f);
    PageRoundTrip(k, salt, f.pgno, f.plain, f.iv);
    FromBEInjective(f.salts[..4], salts[..4]);
    FromBEInjective(f.salts[4..], salts[4..]);
    hide FromBE;
    assert f.salts == salts <==> f.salts[..4] == salts[..4] && f.salts[4..] == salts[4..] by {
      assert f.salts == f.salts[..4] + f.salts[4..] && salts == salts[..4] + salts[4..];
    }
  }

  lemma {:induction false} FramesOfLog(k: Key, salt: seq<byte>, wal: seq<byte>, salts: seq<byte>, frames: seq<LogFrame>, n: nat)
    requires IsKey(k) && |salt| == SALT && LogOk(frames) && |salts| == 8
    requires SlotCount(|wal|) == |frames| && n <= |frames|
    requires forall i :: 0 <= i < |frames| ==> Slot(wal, i) == FrameBytes(k, salt, frames[i])
    requires WAL_HEADER <= |wal| && wal[16..20] == salts[..4] && wal[20..24] == salts[4..]
    ensures Frames(k, wal, n) == CurrentFrames(frames[..n], salts)
  {
    hide FrameBytes, IsKey, SlotCount, Slot, IsCurrent, FrameAt, Standard, LogFrameOk;
    if n > 0 {
      FramesOfLog(k, salt, wal, salts, frames, n - 1);
      assert frames[..n][..n - 1] == frames[..n - 1];
      SlotReads(k, salt, wal, n - 1, salts, frames[n - 1]);
    }
  }

  /** Reading a log gives, in order, exactly the frames of the present cycle whose page number is from one
      to a million, each with its page as a snapshot holds it, whatever the other frames and the rest of the
      file are. */
  lemma LogRoundTrip(k: Key, salt: seq<byte>, front: seq<byte>, salts: seq<byte>, sum: seq<byte>, frames: seq<LogFrame>, rest: seq<byte>)
    requires IsKey(k) && |salt| == SALT && LogOk(frames)
    requires |front| == 16 && |salts| == |sum| == 8 && |rest| < FRAME
    ensures
      var wal := LogBytes(k, salt, front, salts, sum, frames, rest);
      Frames(k, wal, SlotCount(|wal|)) == CurrentFrames(frames, salts)
  {
    var wal := LogBytes(k, salt, front, salts, sum, frames, rest);
    LogParts(front, salts, sum, FramesBytes(k, salt, frames), rest);
    hide FrameBytes, IsKey, Slot, Frames, LogFrameOk, FramesBytes, SlotCount;
    forall i | 0 <= i < |frames|
      ensures i < SlotCount(|wal|) == |frames| && Slot(wal, i) == FrameBytes(k, salt, frames[i])
    {
      SlotOfLog(front + salts + sum, FramesBytes(k, salt, frames), rest, |frames|, i);
      FrameIsWhere(k, salt, frames, i);
    }
    NoSlots(|rest|);
    assert SlotCount(|wal|) == |frames|;
    FramesOfLog(k, salt, wal, salts, frames, |frames|);
    assert frames[..|frames|] == frames;
  }

  lemma NoSlots(length: nat)
    requires length < FRAME
    ensures SlotCount(WAL_HEADER + length) == 0
  {
  }

  lemma LogParts(front: seq<byte>, salts: seq<byte>, sum: seq<byte>, body: seq<byte>, rest: seq<byte>)
    requires |front| == 16 && |salts| == |sum| == 8
    ensures
      var wal := front + salts + sum + body + rest;
      |wal| == WAL_HEADER + |body| + |rest| && wal[16..20] == salts[..4] && wal[20..24] == salts[4..]
  {
  }

  // ---- applying the log ------------------------------------------------------------------------------

  predicate FramesOk(frames: seq<WalFrame>) {
    forall f :: f in frames ==> f.pgno > 0 && |f.page| == PAGE
  }

  function Grown(snapshot: seq<byte>, n: nat): seq<byte> {
    if n > |snapshot| then snapshot + Zeros(n - |snapshot|) else snapshot
  }

  function ApplyFrame(snapshot: seq<byte>, f: WalFrame): (patched: seq<byte>)
    requires f.pgno > 0 && |f.page| == PAGE
    ensures |patched| == if f.pgno * PAGE > |snapshot| then f.pgno * PAGE else |snapshot|
  {
    var off := (f.pgno - 1) * PAGE;
    var grown := Grown(snapshot, off + PAGE);
    grown[..off] + f.page + grown[off + PAGE..]
  }

  function ApplyFrames(snapshot: seq<byte>, frames: seq<WalFrame>): seq<byte>
    requires FramesOk(frames)
  {
    if frames == [] then snapshot
    else ApplyFrame(ApplyFrames(snapshot, frames[..|frames| - 1]), frames[|frames| - 1])
  }

  class Snapshot {
    var bytes: seq<byte>

    constructor (bytes: seq<byte>)
      ensures this.bytes == bytes
    {
      this.bytes := bytes;
    }

    /** Patches the frames in, growing the snapshot where a page lies beyond its end. */
    method Apply(frames: seq<WalFrame>)
      requires FramesOk(frames)
      modifies this
      ensures bytes == ApplyFrames(old(bytes), frames)
    {
      hide ApplyFrame;
      var i := 0;
      while i < |frames|
        invariant 0 <= i <= |frames|
        invariant bytes == ApplyFrames(old(bytes), frames[..i])
      {
        assert frames[..i + 1][..i] == frames[..i];
        Patch(frames[i]);
        i := i + 1;
      }
      assert frames[..i] == frames;
    }

    method Patch(f: WalFrame)
      requires f.pgno > 0 && |f.page| == PAGE
      modifies this
      ensures bytes == ApplyFrame(old(bytes), f)
    {
      var off := (f.pgno - 1) * PAGE;
      if off + PAGE > |bytes| {
        bytes := bytes + Zeros(off + PAGE - |bytes|);
      }
      bytes := bytes[..off] + f.page + bytes[off + PAGE..];
    }
  }

  /** The last frame for a page, if there is one. */
  function LastFor(frames: seq<WalFrame>, pgno: nat): (page: Option<seq<byte>>)
    requires FramesOk(frames)
    ensures page.Some? ==> |page.value| == PAGE
  {
    if frames == [] then None
    else
      var last := frames[|frames| - 1];
      if last.pgno == pgno then Some(last.page) else LastFor(frames[..|frames| - 1], pgno)
  }

  /** The length the frames ask for. */
  function Reach(frames: seq<WalFrame>, length: nat): (reach: nat)
    ensures reach >= length && forall f :: f in frames ==> f.pgno * PAGE <= reach
    ensures reach == length || exists f :: f in frames && f.pgno * PAGE == reach
  {
    if frames == [] then length
    else
      var rest := Reach(frames[..|frames| - 1], length);
      var end := frames[|frames| - 1].pgno * PAGE;
      if end > rest then end else rest
  }

  function ByteAt(bytes: seq<byte>, i: nat): byte {
    if i < |bytes| then bytes[i] else 0
  }

  /** Byte `q` of page `p` of a patched snapshot: from the frame if it is for this page, else the old one. */
  lemma PatchedByte(snapshot: seq<byte>, f: WalFrame, p: nat, q: nat)
    requires f.pgno > 0 && |f.page| == PAGE && p > 0 && q < PAGE
    ensures ByteAt(ApplyFrame(snapshot, f), (p - 1) * PAGE + q)
         == if p == f.pgno then f.page[q] else ByteAt(snapshot, (p - 1) * PAGE + q)
  {
    var off, i := (f.pgno - 1) * PAGE, (p - 1) * PAGE + q;
    assert p == f.pgno <==> off <= i < off + PAGE;
    var grown := Grown(snapshot, off + PAGE);
    assert ByteAt(grown, i) == ByteAt(snapshot, i);
  }

  /** Applying the frames: every page any of them is for holds the last of these, every other byte is as
      it was (zero beyond the old end), and the snapshot reaches to the furthest page. */
  lemma {:induction false} EveryByteFromTheLastFrame(snapshot: seq<byte>, frames: seq<WalFrame>, p: nat, q: nat)
    requires FramesOk(frames) && p > 0 && q < PAGE
    ensures |ApplyFrames(snapshot, frames)| == Reach(frames, |snapshot|)
    ensures ByteAt(ApplyFrames(snapshot, frames), (p - 1) * PAGE + q)
         == if LastFor(frames, p).Some? then LastFor(frames, p).value[q] else ByteAt(snapshot, (p - 1) * PAGE + q)
    ensures LastFor(frames, p).Some? ==> p * PAGE <= |ApplyFrames(snapshot, frames)|
  {
    hide ApplyFrame, ByteAt;
    if frames != [] {
      var init, last := frames[..|frames| - 1], frames[|frames| - 1];
      EveryByteFromTheLastFrame(snapshot, init, p, q);
      PatchedByte(ApplyFrames(snapshot, init), last, p, q);
    }
  }

  /** The last slot of the log that is current and for this page. */
  function LastSlot(wal: seq<byte>, n: nat, pgno: nat): (slot: Option<nat>)
    requires n <= SlotCount(|wal|)
    ensures
      if slot.Some? then
        && slot.value < n && IsCurrent(wal, slot.value) && SlotPgno(wal, slot.value) == pgno
        && forall i :: slot.value < i < n ==> !(IsCurrent(wal, i) && SlotPgno(wal, i) == pgno)
      else forall i :: 0 <= i < n ==> !(IsCurrent(wal, i) && SlotPgno(wal, i) == pgno)
  {
    if n == 0 then None
    else if IsCurrent(wal, n - 1) && SlotPgno(wal, n - 1) == pgno then Some(n - 1)
    else LastSlot(wal, n - 1, pgno)
  }

  lemma LastForNone(pgno: nat)
    ensures LastFor([], pgno) == None
  {
  }

  lemma LastForMore(frames: seq<WalFrame>, f: WalFrame, pgno: nat)
    requires FramesOk(frames) && FramesOk(frames + [f])
    ensures LastFor(frames + [f], pgno) == if f.pgno == pgno then Some(f.page) else LastFor(frames, pgno)
  {
    assert (frames + [f])[..|frames|] == frames;
  }

  lemma FrameHasSlotPgno(k: Key, wal: seq<byte>, i: nat)
    requires IsKey(k) && i < SlotCount(|wal|)
    ensures FrameAt(k, wal, i).pgno == SlotPgno(wal, i)
  {
    hide IsKey, Slot, DecryptPage;
  }

  lemma {:induction false} LastFrameIsLastSlot(k: Key, wal: seq<byte>, n: nat, pgno: nat)
    requires IsKey(k) && n <= SlotCount(|wal|)
    ensures
      var slot := LastSlot(wal, n, pgno);
      LastFor(Frames(k, wal, n), pgno) == if slot.Some? then Some(FrameAt(k, wal, slot.value).page) else None
  {
    hide IsKey, IsCurrent, LastFor, SlotPgno, Slot, FrameAt, SlotCount, DecryptPage, FramesOk;
    if n == 0 {
      LastForNone(pgno);
    } else {
      LastFrameIsLastSlot(k, wal, n - 1, pgno);
      if IsCurrent(wal, n - 1) {
        assert Frames(k, wal, n) == Frames(k, wal, n - 1) + [FrameAt(k, wal, n - 1)];
        assert FramesOk(Frames(k, wal, n)) && FramesOk(Frames(k, wal, n - 1));
        FrameHasSlotPgno(k, wal, n - 1);
        LastForMore(Frames(k, wal, n - 1), FrameAt(k, wal, n - 1), pgno);
      }
    }
  }

  /** Decoding a log and applying it: each page of the snapshot is the decrypted page of the last slot
      with the log's own salts and that page number, else what it was. */
  lemma WalOverSnapshot(k: Key, wal: seq<byte>, snapshot: seq<byte>, p: nat, q: nat)
    requires IsKey(k) && p > 0 && q < PAGE
    ensures
      var frames := Frames(k, wal, SlotCount(|wal|));
      var patched := ApplyFrames(snapshot, frames);
      var slot := LastSlot(wal, SlotCount(|wal|), p);
      && |patched| == Reach(frames, |snapshot|)
      && (slot.Some? ==> p * PAGE <= |patched|)
      && ByteAt(patched, (p - 1) * PAGE + q)
      == if slot.Some? then FrameAt(k, wal, slot.value).page[q] else ByteAt(snapshot, (p - 1) * PAGE + q)
  {
    hide IsKey, FrameAt, ApplyFrames, ByteAt, IsCurrent;
    EveryByteFromTheLastFrame(snapshot, Frames(k, wal, SlotCount(|wal|)), p, q);
    LastFrameIsLastSlot(k, wal, SlotCount(|wal|), p);
  }
}
