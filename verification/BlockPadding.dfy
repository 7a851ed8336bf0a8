/** The block padding and block chaining of common/security.go around an abstract block cipher: DES
    block by block (ECB), AES chained with the key as initial vector (CBC). */
module BlockPadding {
  import opened Bits

  /** A block cipher: its block size and the two directions. */
  datatype Cipher = Cipher(size: nat, enc: seq<byte> -> seq<byte>, dec: seq<byte> -> seq<byte>)

  /** All that is asked of it: block in, block out, and decryption undoes encryption. */
  ghost predicate Invertible(c: Cipher) {
    && 0 < c.size < 256
    && (forall b :: |b| == c.size ==> |c.enc(b)| == c.size && c.dec(c.enc(b)) == b)
    && (forall b :: |b| == c.size ==> |c.dec(b)| == c.size)
  }

  // ----- padding -----

  function PadCount(n: nat, size: nat): (p: nat)
    requires size > 0
    ensures 1 <= p <= size
  {
    size - n % size
  }

  /** RFC 5652 section 6.3: as many bytes as are missing, each holding that number. */
  function Padded(m: seq<byte>, size: nat): seq<byte>
    requires 0 < size < 256
  {
    var p := PadCount(|m|, size);
    m + seq(p, i => p)
  }

  /** The message, and behind it nothing but bytes that hold their own number, as section 6.3 of RFC 5652
      has it. */
  lemma PaddedIs(m: seq<byte>, size: nat)
    requires 0 < size < 256
    ensures var p := Padded(m, size);
            && |p| > |m| && p[..|m|] == m
            && forall i :: |m| <= i < |p| ==> p[i] as int == |p| - |m|
  {
  }

  /** The padded length is the least multiple of the block size strictly above the message length. */
  lemma PaddedLength(m: seq<byte>, size: nat)
    requires 0 < size < 256
    ensures var n := |Padded(m, size)|;
            && n % size == 0 && n > |m|
            && (forall k :: k > |m| && k % size == 0 ==> k >= n)
  {
    var q, r := |m| / size, |m| % size;
    var n := |Padded(m, size)|;
    assert n == (q + 1) * size by {
      assert |m| == q * size + r;
    }
    ModUnique(n, size, q + 1, 0);
    forall k | k > |m| && k % size == 0
      ensures k >= n
    {
      var j := k / size;
      assert k == j * size;
      MulMono(j, q, size);
      MulMono(q + 1, j, size);
    }
  }

  /** Taking the last byte off as a count, as both Decode methods do. */
  function UnpaddedLength(plain: seq<byte>): int
    requires |plain| > 0
  {
    |plain| - plain[|plain| - 1] as int
  }

  lemma UnpadsExactly(m: seq<byte>, size: nat)
    requires 0 < size < 256
    ensures var p := Padded(m, size);
            |p| > 0 && UnpaddedLength(p) == |m| && p[..|m|] == m
  {
  }

  // ----- DES: every block on its own -----

  /** Each block through f, in order: what the loops of Encode and Decode write. */
  function EachBlock(size: nat, f: seq<byte> -> seq<byte>, data: seq<byte>): seq<byte>
    requires size > 0
    decreases |data|
  {
    if |data| < size then [] else f(data[..size]) + EachBlock(size, f, data[size..])
  }

  function EcbEncrypt(c: Cipher, data: seq<byte>): seq<byte>
    requires c.size > 0
  {
    EachBlock(c.size, c.enc, data)
  }

  function EcbDecrypt(c: Cipher, data: seq<byte>): seq<byte>
    requires c.size > 0
  {
    EachBlock(c.size, c.dec, data)
  }

  /** Every block of the result is f of the block at the same place. */
  lemma {:induction false} BlockByBlock(size: nat, f: seq<byte> -> seq<byte>, data: seq<byte>, at: nat)
    requires size > 0 && forall b :: |b| == size ==> |f(b)| == size
    requires Whole(at, size) && at + size <= |data|
    ensures at + size <= |EachBlock(size, f, data)|
    ensures EachBlock(size, f, data)[at..at + size] == f(data[at..at + size])
    decreases at
  {
    var first, rest := f(data[..size]), EachBlock(size, f, data[size..]);
    assert EachBlock(size, f, data) == first + rest;
    if at == 0 {
      assert (first + rest)[0..size] == first && data[0..size] == data[..size];
    } else {
      NextBlock(at, size);
      hide Whole, EachBlock;
      BlockByBlock(size, f, data[size..], at - size);
      SliceShifts(first, rest, at, size);
      assert data[size..][at - size..at] == data[at..at + size];
    }
  }

  lemma SliceShifts(first: seq<byte>, rest: seq<byte>, at: nat, n: nat)
    requires |first| <= at && at + n <= |first| + |rest|
    ensures (first + rest)[at..at + n] == rest[at - |first|..at - |first| + n]
  {
  }

  lemma EcbDecryptStep(c: Cipher, first: seq<byte>, tail: seq<byte>)
    requires |first| == c.size > 0
    ensures EcbDecrypt(c, first + tail) == c.dec(first) + EcbDecrypt(c, tail)
  {
    assert (first + tail)[..c.size] == first && (first + tail)[c.size..] == tail;
  }

  lemma {:induction false} EcbRoundTrip(c: Cipher, data: seq<byte>)
    requires Invertible(c) && Whole(|data|, c.size)
    ensures |EcbEncrypt(c, data)| == |data|
    ensures EcbDecrypt(c, EcbEncrypt(c, data)) == data
    decreases |data|
  {
    hide Whole;
    if |data| > 0 {
      NextBlock(|data|, c.size);
      var block, rest := data[..c.size], data[c.size..];
      var first := c.enc(block);
      assert EcbEncrypt(c, data) == first + EcbEncrypt(c, rest);
      assert |first| == c.size && c.dec(first) == block;
      hide EcbEncrypt, EcbDecrypt;
      EcbRoundTrip(c, rest);
      EcbDecryptStep(c, first, EcbEncrypt(c, rest));
      assert block + rest == data;
    }
  }

  lemma WholeBlock(n: nat, size: nat)
    requires size > 0 && n > 0 && n % size == 0
    ensures n >= size
  {
    if n < size {
      ModUnique(n, size, 0, n);
    }
  }

  lemma LessOneBlock(n: nat, size: nat)
    requires size > 0 && n >= size && n % size == 0
    ensures (n - size) % size == 0
  {
    var q := n / size;
    assert n == q * size;
    ModUnique(n - size, size, q - 1, 0);
  }

  /** DesCrypt.Encode. The output buffer must hold the padded message, or the cipher panics. */
  method DesEncode(c: Cipher, src: seq<byte>, dst: array<byte>) returns (n: nat)
    requires Invertible(c) && |Padded(src, c.size)| <= dst.Length
    modifies dst
    ensures n == |Padded(src, c.size)|
    ensures dst[..n] == EcbEncrypt(c, Padded(src, c.size))
    ensures dst[n..] == old(dst[n..])
  {
    var data := Padded(src, c.size);
    PaddedLength(src, c.size);
    n := BlockLoop(c.size, c.enc, data, dst);
    EcbRoundTrip(c, data);
  }

  /** DesCrypt.Decode: an input that is not whole blocks is rejected; on an empty one the source reads
      dst[-1] and panics. */
  method DesDecode(c: Cipher, src: seq<byte>, dst: array<byte>) returns (n: Length)
    requires Invertible(c) && |src| <= dst.Length
    modifies dst
    ensures n.Rejected? <==> |src| % c.size != 0
    ensures n.Panic? <==> src == []
    ensures !n.Bytes? ==> dst[..] == old(dst[..])
    ensures n.Bytes? ==> dst[..|src|] == EcbDecrypt(c, src) && dst[|src|..] == old(dst[|src|..])
    ensures n.Bytes? ==> |EcbDecrypt(c, src)| == |src| && n.count == UnpaddedLength(EcbDecrypt(c, src))
  {
    if |src| % c.size != 0 {
      return Rejected;
    }
    var offset := BlockLoop(c.size, c.dec, src, dst);
    if offset == 0 {
      return Panic;
    }
    return Bytes(offset - dst[offset - 1] as int);
  }

  datatype Length = Rejected | Panic | Bytes(count: int)

  /** A length in whole blocks. */
  predicate Whole(n: nat, size: nat)
    requires size > 0
  {
    n % size == 0
  }

  lemma NextBlock(n: nat, size: nat)
    requires size > 0 && n > 0 && Whole(n, size)
    ensures n >= size && Whole(n - size, size)
  {
    WholeBlock(n, size);
    LessOneBlock(n, size);
  }

  method BlockLoop(size: nat, f: seq<byte> -> seq<byte>, data: seq<byte>, dst: array<byte>) returns (offset: nat)
    requires size > 0 && Whole(|data|, size) && |data| <= dst.Length
    requires forall b :: |b| == size ==> |f(b)| == size
    modifies dst
    ensures offset == |data| == |EachBlock(size, f, data)|
    ensures dst[..offset] == EachBlock(size, f, data)
    ensures dst[offset..] == old(dst[offset..])
  {
    hide Whole, EachBlock;
    offset := 0;
    var src := data;
    while |src| > 0
      invariant offset + |src| == |data| && Whole(|src|, size)
      invariant dst[..offset] + EachBlock(size, f, src) == EachBlock(size, f, data)
      invariant forall k :: offset <= k < dst.Length ==> dst[k] == old(dst[k])
      decreases |src|
    {
      NextBlock(|src|, size);
      EachBlockStep(size, f, src);
      var out := f(src[..size]);
      ghost var before, rest := dst[..offset], EachBlock(size, f, src[size..]);
      WriteBlock(dst, offset, out);
      assert dst[..offset + size] == before + out;
      assert before + out + rest == before + (out + rest);
      src := src[size..];
      offset := offset + size;
    }
    EachBlockNone(size, f);
    assert src == [];
  }

  lemma EachBlockStep(size: nat, f: seq<byte> -> seq<byte>, src: seq<byte>)
    requires 0 < size <= |src|
    ensures EachBlock(size, f, src) == f(src[..size]) + EachBlock(size, f, src[size..])
  {
  }

  lemma EachBlockNone(size: nat, f: seq<byte> -> seq<byte>)
    requires size > 0
    ensures EachBlock(size, f, []) == []
  {
  }

  method WriteBlock(dst: array<byte>, at: nat, block: seq<byte>)
    requires at + |block| <= dst.Length
    modifies dst
    ensures dst[at..at + |block|] == block
    ensures forall k :: 0 <= k < dst.Length && !(at <= k < at + |block|) ==> dst[k] == old(dst[k])
  {
    forall i | 0 <= i < |block| {
      dst[at + i] := block[i];
    }
  }

  /** Decoding an encoded message gives back the message and its length. */
  lemma DesRoundTrip(c: Cipher, m: seq<byte>)
    requires Invertible(c)
    ensures var plain := EcbDecrypt(c, EcbEncrypt(c, Padded(m, c.size)));
            |plain| > 0 && UnpaddedLength(plain) == |m| && plain[..|m|] == m
  {
    PaddedLength(m, c.size);
    EcbRoundTrip(c, Padded(m, c.size));
    UnpadsExactly(m, c.size);
  }

  // ----- AES: each block chained to the one before -----

  function XorBytes(a: seq<byte>, b: seq<byte>): (r: seq<byte>)
    requires |a| == |b|
    ensures |r| == |a|
  {
    seq(|a|, i requires 0 <= i < |a| => XorByte(a[i], b[i]))
  }

  function XorByte(a: byte, b: byte): byte {
    XorBound(a, b, 8);
    Pow2Values();
    Xor(a, b)
  }

  lemma {:induction false} XorBound(a: nat, b: nat, k: nat)
    requires a < Pow2(k) && b < Pow2(k)
    ensures Xor(a, b) < Pow2(k)
    decreases k
  {
    if k > 0 && (a != 0 || b != 0) {
      XorBound(a / 2, b / 2, k - 1);
    }
  }

  lemma XorUnfold(a: nat, b: nat)
    ensures Xor(a, b) == 2 * Xor(a / 2, b / 2) + (if a % 2 != b % 2 then 1 else 0)
  {
  }

  lemma {:induction false} XorTwice(a: nat, b: nat)
    ensures Xor(Xor(a, b), b) == a
    decreases a + b
  {
    if a != 0 || b != 0 {
      var x, half := Xor(a, b), Xor(a / 2, b / 2);
      assert x / 2 == half && x % 2 == if a % 2 != b % 2 then 1 else 0;
      XorTwice(a / 2, b / 2);
      hide Xor;
      XorUnfold(x, b);
    }
  }

  lemma XorBytesTwice(a: seq<byte>, b: seq<byte>)
    requires |a| == |b|
    ensures XorBytes(XorBytes(a, b), b) == a
  {
    forall i | 0 <= i < |a|
      ensures XorBytes(XorBytes(a, b), b)[i] == a[i]
    {
      XorTwice(a[i], b[i]);
    }
  }

  function CbcEncrypt(c: Cipher, iv: seq<byte>, data: seq<byte>): seq<byte>
    requires c.size > 0 && |iv| == c.size && forall b :: |b| == c.size ==> |c.enc(b)| == c.size
    decreases |data|
  {
    if |data| < c.size then []
    else
      var block := c.enc(XorBytes(data[..c.size], iv));
      block + CbcEncrypt(c, block, data[c.size..])
  }

  /** Section 6.2 of NIST SP 800-38A: every block of the result is the encryption of the block at the same
      place, exclusive-ored with the result's block before it, or the initial vector. */
  lemma {:induction false} CbcBlock(c: Cipher, iv: seq<byte>, data: seq<byte>, at: nat)
    requires c.size > 0 && |iv| == c.size && forall b :: |b| == c.size ==> |c.enc(b)| == c.size
    requires Whole(at, c.size) && at + c.size <= |data|
    ensures var out := CbcEncrypt(c, iv, data);
            && at + c.size <= |out| && (at > 0 ==> c.size <= at)
            && (at == 0 ==> out[..c.size] == c.enc(XorBytes(data[..c.size], iv)))
            && (at > 0 ==> out[at..at + c.size] == c.enc(XorBytes(data[at..at + c.size], out[at - c.size..at])))
    decreases at
  {
    var n := c.size;
    var block := c.enc(XorBytes(data[..n], iv));
    var rest := CbcEncrypt(c, block, data[n..]);
    var out := CbcEncrypt(c, iv, data);
    assert out == block + rest;
    if at > 0 {
      NextBlock(at, n);
      hide Whole, CbcEncrypt, XorBytes;
      CbcBlock(c, block, data[n..], at - n);
      SliceShifts(block, rest, at, n);
      assert data[n..][at - n..at] == data[at..at + n];
      if at == n {
        assert out[at - n..at] == block;
        assert data[n..][..n] == data[at..at + n] && rest[..n] == rest[0..n];
      } else {
        NextBlock(at - n, n);
        SliceShifts(block, rest, at - n, n);
      }
    }
  }

  function CbcDecrypt(c: Cipher, iv: seq<byte>, data: seq<byte>): seq<byte>
    requires c.size > 0 && |iv| == c.size && forall b :: |b| == c.size ==> |c.dec(b)| == c.size
    decreases |data|
  {
    if |data| < c.size then []
    else XorBytes(c.dec(data[..c.size]), iv) + CbcDecrypt(c, data[..c.size], data[c.size..])
  }

  lemma CbcDecryptStep(c: Cipher, iv: seq<byte>, first: seq<byte>, tail: seq<byte>)
    requires Invertible(c) && |iv| == |first| == c.size
    ensures CbcDecrypt(c, iv, first + tail) == XorBytes(c.dec(first), iv) + CbcDecrypt(c, first, tail)
  {
    assert (first + tail)[..c.size] == first && (first + tail)[c.size..] == tail;
  }

  lemma {:induction false} CbcRoundTrip(c: Cipher, iv: seq<byte>, data: seq<byte>)
    requires Invertible(c) && |iv| == c.size && Whole(|data|, c.size)
    ensures |CbcEncrypt(c, iv, data)| == |data|
    ensures CbcDecrypt(c, iv, CbcEncrypt(c, iv, data)) == data
    decreases |data|
  {
    hide XorBytes, Whole;
    if |data| > 0 {
      NextBlock(|data|, c.size);
      var block, rest := data[..c.size], data[c.size..];
      var mixed := XorBytes(block, iv);
      var first := c.enc(mixed);
      assert CbcEncrypt(c, iv, data) == first + CbcEncrypt(c, first, rest);
      assert |first| == c.size && c.dec(first) == mixed;
      hide CbcEncrypt, CbcDecrypt;
      CbcRoundTrip(c, first, rest);
      CbcDecryptStep(c, iv, first, CbcEncrypt(c, first, rest));
      XorBytesTwice(block, iv);
      assert block + rest == data;
    }
  }

  datatype AesResult = Panicked | TooSmall | Written(bytes: seq<byte>)

  /** NewAesCrypt refuses an empty key; a key of up to 16 bytes is padded with zeros to 16, a longer one cut
      or padded to 32. */
  function AesKey(key: seq<byte>): (k: seq<byte>)
    ensures |k| == if |key| <= 16 then 16 else 32
    ensures forall i :: 0 <= i < |k| ==> k[i] == if i < |key| then key[i] else 0
  {
    var n := if |key| <= 16 then 16 else 32;
    if |key| <= n then key + seq(n - |key|, i => 0) else key[..n]
  }

  /** AesCrypt.Encode: the key is also the initial vector, so a long key makes the CBC mode panic. */
  function AesEncode(c: Cipher, key: seq<byte>, src: seq<byte>, room: nat): AesResult
    requires Invertible(c) && c.size == 16
  {
    var data := Padded(src, c.size);
    if room < |data| then TooSmall
    else if |AesKey(key)| != c.size then Panicked
    else Written(CbcEncrypt(c, AesKey(key), data))
  }

  /** AesCrypt.Decode of whole blocks into a buffer that holds them: the length it returns, and the
      bytes it leaves in the buffer. */
  function AesDecode(c: Cipher, key: seq<byte>, src: seq<byte>): (int, seq<byte>)
    requires Invertible(c) && c.size == 16 && |AesKey(key)| == 16 && |CbcDecrypt(c, AesKey(key), src)| > 0
  {
    var plain := CbcDecrypt(c, AesKey(key), src);
    (UnpaddedLength(plain), plain)
  }

  /** With room for it a message can be encoded exactly under keys of up to 16 bytes, and decoding then
      gives back the message and its length. */
  lemma AesRoundTrip(c: Cipher, key: seq<byte>, m: seq<byte>, room: nat)
    requires Invertible(c) && c.size == 16 && key != []
    ensures AesEncode(c, key, m, room).TooSmall? <==> room < |Padded(m, 16)|
    ensures AesEncode(c, key, m, room).Written? <==> room >= |Padded(m, 16)| && |key| <= 16
    ensures room >= |Padded(m, 16)| && |key| <= 16 ==>
              var out := AesEncode(c, key, m, room).bytes;
              && out == CbcEncrypt(c, AesKey(key), Padded(m, 16)) && |out| == |Padded(m, 16)|
              && CbcDecrypt(c, AesKey(key), out) == Padded(m, 16) && |Padded(m, 16)| > 0
              && AesDecode(c, key, out).0 == |m| && AesDecode(c, key, out).1[..|m|] == m
  {
    PaddedLength(m, 16);
    if |key| <= 16 {
      CbcRoundTrip(c, AesKey(key), Padded(m, 16));
      UnpadsExactly(m, 16);
    }
  }
}
