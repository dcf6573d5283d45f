/** Encrypted image files (`src/media/mod.rs`): a header, then a padded and encrypted head, a plain middle
    and a tail under one XOR byte. */
module Media {
  import opened Wrappers
  import opened Bytes

  const HEADER: nat := 15

  /** The length of a padded plaintext: padding appends one to sixteen bytes, never none. */
  function PaddedLength(n: nat): (m: nat)
    ensures n < m <= n + BLOCK && m % BLOCK == 0
  {
    n + (BLOCK - n % BLOCK)
  }

  /** PKCS#7 padding, section 6.3 of RFC 5652: as many bytes as are missing, each holding that number. */
  function Pad(plain: seq<byte>): (padded: seq<byte>)
    ensures |padded| == PaddedLength(|plain|) && padded[..|plain|] == plain
  {
    var missing := BLOCK - |plain| % BLOCK;
    plain + seq(missing, _ => missing as byte)
  }

  function EcbEncrypt(c: Cipher, text: seq<byte>): seq<byte> {
    if |text| < BLOCK then text else c.enc(text[..BLOCK]) + EcbEncrypt(c, text[BLOCK..])
  }

  /** Block by block; what is short of a block at the end is left alone. */
  function EcbDecrypt(c: Cipher, text: seq<byte>): seq<byte> {
    if |text| < BLOCK then text else c.dec(text[..BLOCK]) + EcbDecrypt(c, text[BLOCK..])
  }

  lemma {:induction false} EcbRoundTrip(c: Cipher, text: seq<byte>)
    requires IsCipher(c)
    ensures |EcbEncrypt(c, text)| == |text| && EcbDecrypt(c, EcbEncrypt(c, text)) == text
    decreases |text|
  {
    if |text| >= BLOCK {
      var first, rest := text[..BLOCK], text[BLOCK..];
      EcbRoundTrip(c, rest);
      var coded := EcbEncrypt(c, text);
      assert coded[..BLOCK] == c.enc(first) && coded[BLOCK..] == EcbEncrypt(c, rest);
      assert text == first + rest;
    }
  }

  lemma {:induction false} EcbDecryptLength(c: Cipher, text: seq<byte>)
    requires IsCipher(c)
    ensures |EcbDecrypt(c, text)| == |text|
    decreases |text|
  {
    if |text| >= BLOCK {
      EcbDecryptLength(c, text[BLOCK..]);
    }
  }

  /** Each block of the result is that block of the text decrypted. */
  lemma {:induction false} EcbBlock(c: Cipher, text: seq<byte>, i: nat)
    requires IsCipher(c) && (i + 1) * BLOCK <= |text|
    ensures |EcbDecrypt(c, text)| == |text| && Block(EcbDecrypt(c, text), i) == c.dec(Block(text, i))
    decreases i
  {
    EcbDecryptLength(c, text);
    var first, rest := text[..BLOCK], text[BLOCK..];
    var behind := EcbDecrypt(c, rest);
    assert EcbDecrypt(c, text) == c.dec(first) + behind && text == first + rest;
    hide EcbDecrypt, Block;
    BlockBehind(c.dec(first), behind, i);
    BlockBehind(first, rest, i);
    if i > 0 {
      EcbBlock(c, rest, i - 1);
    }
  }

  /** Rewrites a buffer block by block. */
  method DecryptInPlace(c: Cipher, a: array<byte>)
    requires IsCipher(c)
    modifies a
    ensures a[..] == EcbDecrypt(c, old(a[..]))
  {
    hide EcbDecrypt;
    var at := 0;
    ghost var done, rest := [], a[..];
    while at + BLOCK <= a.Length
      invariant 0 <= at <= a.Length && |done| == at
      invariant a[..] == done + rest
      invariant done + EcbDecrypt(c, rest) == EcbDecrypt(c, old(a[..]))
      decreases a.Length - at
    {
      EcbOneBlock(c, done, rest);
      DecryptBlock(c, a, at, done, rest);
      at, done, rest := at + BLOCK, done + c.dec(rest[..BLOCK]), rest[BLOCK..];
    }
    EcbOneBlock(c, done, rest);
  }

  /** What decrypting the next block does; what is short of a block stays. */
  lemma EcbOneBlock(c: Cipher, done: seq<byte>, rest: seq<byte>)
    ensures |rest| < BLOCK ==> EcbDecrypt(c, rest) == rest
    ensures |rest| >= BLOCK ==>
              done + EcbDecrypt(c, rest) == done + c.dec(rest[..BLOCK]) + EcbDecrypt(c, rest[BLOCK..])
  {
    if |rest| >= BLOCK {
      var block := c.dec(rest[..BLOCK]);
      assert done + (block + EcbDecrypt(c, rest[BLOCK..])) == (done + block) + EcbDecrypt(c, rest[BLOCK..]);
    }
  }

  method DecryptBlock(c: Cipher, a: array<byte>, at: nat, ghost done: seq<byte>, ghost rest: seq<byte>)
    requires IsCipher(c) && at + BLOCK <= a.Length && |done| == at && a[..] == done + rest
    modifies a
    ensures a[..] == done + c.dec(rest[..BLOCK]) + rest[BLOCK..]
  {
    assert a[at..at + BLOCK] == rest[..BLOCK] && a[..at] == done && a[at + BLOCK..] == rest[BLOCK..];
    var block := c.dec(a[at..at + BLOCK]);
    CopyIn(a, at, block);
    assert a[..] == a[..at] + a[at..at + BLOCK] + a[at + BLOCK..];
  }

  method CopyIn(a: array<byte>, at: nat, block: seq<byte>)
    requires at + |block| <= a.Length
    modifies a
    ensures a[at..at + |block|] == block
    ensures a[..at] == old(a[..at]) && a[at + |block|..] == old(a[at + |block|..])
  {
    var i := 0;
    while i < |block|
      invariant 0 <= i <= |block|
      invariant forall k :: 0 <= k < i ==> a[at + k] == block[k]
      invariant forall k :: 0 <= k < at || at + i <= k < a.Length ==> a[k] == old(a[k])
    {
      a[at + i] := block[i];
      i := i + 1;
    }
  }

  function XorAll(text: seq<byte>, key: byte): (x: seq<byte>)
    ensures |x| == |text|
  {
    seq(|text|, i requires 0 <= i < |text| => XorByte(text[i], key))
  }

  lemma XorAllTwice(text: seq<byte>, key: byte)
    ensures XorAll(XorAll(text, key), key) == text
  {
    forall i | 0 <= i < |text| ensures XorAll(XorAll(text, key), key)[i] == text[i] {
      XorByteTwice(text[i], key);
    }
  }

  /** The three segments of a file, taken apart by the two lengths in its header. */
  function DecodePayload(data: seq<byte>, c: Cipher, key: byte): Option<seq<byte>> {
    if |data| < HEADER then None
    else
      var headSize, tailSize := FromLE(data[6..10]), FromLE(data[10..14]);
      var payload := data[HEADER..];
      var coded := PaddedLength(headSize);
      if coded + tailSize > |payload| then None
      else
        var tail := |payload| - tailSize;
        var head := EcbDecrypt(c, payload[..coded]);
        Some(head[..if headSize < |head| then headSize else |head|] + payload[coded..tail] + XorAll(payload[tail..], key))
  }

  method DecryptDatPayload(data: seq<byte>, c: Cipher, key: byte) returns (out: Option<seq<byte>>)
    requires IsCipher(c)
    ensures out == DecodePayload(data, c, key)
  {
    hide FromLE, EcbDecrypt, XorAll, IsCipher;
    if |data| < HEADER {
      return None;
    }
    var headSize, tailSize := FromLE(data[6..10]), FromLE(data[10..14]);
    var payload := data[HEADER..];
    var coded := PaddedLength(headSize);
    if coded + tailSize > |payload| {
      return None;
    }
    var tailStart := |payload| - tailSize;
    var buffer := new byte[coded](i requires 0 <= i < coded => payload[i]);
    assert buffer[..] == payload[..coded];
    DecryptInPlace(c, buffer);
    var head := buffer[..];
    var bytes := head[..if headSize < |head| then headSize else |head|];
    bytes := bytes + payload[coded..tailStart];
    var tail := DecryptDatLegacy(payload[tailStart..], key);
    out := Some(bytes + tail);
  }

  method DecryptDatLegacy(text: seq<byte>, key: byte) returns (out: seq<byte>)
    ensures out == XorAll(text, key)
    ensures |out| == |text| && forall i :: 0 <= i < |text| ==> out[i] == XorByte(text[i], key)
  {
    out := [];
    for i := 0 to |text|
      invariant out == XorAll(text[..i], key)
      invariant forall j :: 0 <= j < i ==> out[j] == XorByte(text[j], key)
    {
      assert text[..i + 1] == text[..i] + [text[i]];
      out := out + [XorByte(text[i], key)];
    }
    assert text[..|text|] == text;
  }

  /** A file as the other side writes it. */
  function EncodeFile(magic: seq<byte>, head: seq<byte>, middle: seq<byte>, tail: seq<byte>, last: byte, c: Cipher, key: byte): seq<byte>
    requires |magic| == 6 && |head| < 0x1_0000_0000 && |tail| < 0x1_0000_0000
  {
    magic + LE(|head|) + LE(|tail|) + [last] + EcbEncrypt(c, Pad(head)) + middle + XorAll(tail, key)
  }

  /** Decoding gives the three segments back, one after the other. */
  lemma DatRoundTrip(magic: seq<byte>, head: seq<byte>, middle: seq<byte>, tail: seq<byte>, last: byte, c: Cipher, key: byte)
    requires IsCipher(c) && |magic| == 6 && |head| < 0x1_0000_0000 && |tail| < 0x1_0000_0000
    ensures DecodePayload(EncodeFile(magic, head, middle, tail, last, c, key), c, key) == Some(head + middle + tail)
  {
    var coded, hidden := EcbEncrypt(c, Pad(head)), XorAll(tail, key);
    EcbRoundTrip(c, Pad(head));
    XorAllTwice(tail, key);
    LERoundTrip(|head|);
    LERoundTrip(|tail|);
    hide LE, FromLE, EcbEncrypt, EcbDecrypt, XorAll, IsCipher, Pad;
    Segments(magic, LE(|head|), LE(|tail|), last, coded, middle, hidden);
  }

  lemma Segments(magic: seq<byte>, a: seq<byte>, b: seq<byte>, last: byte, coded: seq<byte>, middle: seq<byte>, hidden: seq<byte>)
    requires |magic| == 6 && |a| == |b| == 4
    ensures
      var data := magic + a + b + [last] + coded + middle + hidden;
      && |data| == HEADER + |coded| + |middle| + |hidden|
      && data[6..10] == a && data[10..14] == b
      && data[HEADER..][..|coded|] == coded
      && data[HEADER..][|coded|..|coded| + |middle|] == middle
      && data[HEADER..][|coded| + |middle|..] == hidden
  {
    var data := magic + a + b + [last] + coded + middle + hidden;
    assert data[HEADER..] == coded + middle + hidden;
  }

  /** Decoding fails exactly on input shorter than the header, or shorter than the header says. */
  lemma DecodeFailsIff(data: seq<byte>, c: Cipher, key: byte)
    requires IsCipher(c)
    ensures DecodePayload(data, c, key).None?
       <==> |data| < HEADER || PaddedLength(FromLE(data[6..10])) + FromLE(data[10..14]) > |data| - HEADER
    ensures
      var decoded := DecodePayload(data, c, key);
      decoded.Some? ==> |decoded.value| + PaddedLength(FromLE(data[6..10])) == |data| - HEADER + FromLE(data[6..10])
  {
    if DecodePayload(data, c, key).Some? {
      EcbDecryptLength(c, data[HEADER..][..PaddedLength(FromLE(data[6..10]))]);
    }
  }
}
