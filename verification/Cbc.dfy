/**
 Cipher block chaining (section 6.2 of NIST SP 800-38A) over an abstract block function,
 and the block mode object of the Go standard library that applies it in place.
 */
module Cbc {
  import opened Bytes

  type BlockFn = seq<byte> -> seq<byte>

  const BLOCK: nat := 16

  predicate Blocks(s: seq<byte>) { |s| % 16 == 0 }

  ghost predicate OnBlocks(f: BlockFn) { forall b: seq<byte> {:trigger f(b)} :: |b| == BLOCK ==> |f(b)| == BLOCK }

  ghost predicate Inverse(enc: BlockFn, dec: BlockFn) {
    forall b: seq<byte> {:trigger enc(b)} :: |b| == BLOCK ==> dec(enc(b)) == b
  }

  function Xor(a: seq<byte>, b: seq<byte>): (c: seq<byte>)
    requires |a| == |b|
    ensures |c| == |a|
  {
    seq(|a|, i requires 0 <= i < |a| => a[i] ^ b[i])
  }

  function Decrypt(dec: BlockFn, iv: seq<byte>, text: seq<byte>): (plain: seq<byte>)
    requires OnBlocks(dec) && |iv| == BLOCK && Blocks(text)
    ensures |plain| == |text|
    decreases |text|
  {
    if text == [] then []
    else Xor(dec(text[..BLOCK]), iv) + Decrypt(dec, text[..BLOCK], text[BLOCK..])
  }

  function Encrypt(enc: BlockFn, iv: seq<byte>, plain: seq<byte>): (text: seq<byte>)
    requires OnBlocks(enc) && |iv| == BLOCK && Blocks(plain)
    ensures |text| == |plain|
    decreases |plain|
  {
    if plain == [] then []
    else
      var block := enc(Xor(plain[..BLOCK], iv));
      block + Encrypt(enc, block, plain[BLOCK..])
  }

  /** The chaining value after a text: its last block. */
  function Chain(iv: seq<byte>, text: seq<byte>): (next: seq<byte>)
    requires |iv| == BLOCK && Blocks(text)
    ensures |next| == BLOCK
  {
    if text == [] then iv else text[|text| - BLOCK..]
  }

  lemma XorTwice(a: seq<byte>, b: seq<byte>)
    requires |a| == |b|
    ensures Xor(Xor(a, b), b) == a
  {
    forall i | 0 <= i < |a| ensures Xor(Xor(a, b), b)[i] == a[i] {
      assert (a[i] ^ b[i]) ^ b[i] == a[i];
    }
  }

  lemma DecryptFirst(dec: BlockFn, iv: seq<byte>, block: seq<byte>, rest: seq<byte>)
    requires OnBlocks(dec) && |iv| == BLOCK == |block| && Blocks(rest)
    ensures Decrypt(dec, iv, block + rest) == Xor(dec(block), iv) + Decrypt(dec, block, rest)
  {
    assert (block + rest)[..BLOCK] == block && (block + rest)[BLOCK..] == rest;
  }

  /** The i-th block of sixteen bytes. */
  function BlockAt(text: seq<byte>, k: nat): seq<byte>
    requires 16 * k + 16 <= |text|
  {
    text[16 * k..16 * k + 16]
  }

  function XorAt(a: seq<byte>, b: seq<byte>, j: nat): byte
    requires j < |a| == |b|
  {
    a[j] ^ b[j]
  }

  /** Byte i of CBC decryption: the decrypted block, combined with the block before it or with the IV. */
  ghost predicate CbcByte(dec: BlockFn, iv: seq<byte>, text: seq<byte>, i: nat, b: byte)
    requires OnBlocks(dec) && |iv| == BLOCK && i / 16 * 16 + 16 <= |text|
  {
    var k := i / 16;
    var before := if k == 0 then iv else BlockAt(text, k - 1);
    b == XorAt(dec(BlockAt(text, k)), before, i % 16)
  }

  /** A longer text has the same blocks. */
  lemma CbcByteExtends(dec: BlockFn, iv: seq<byte>, text: seq<byte>, more: seq<byte>, i: nat, b: byte)
    requires OnBlocks(dec) && |iv| == BLOCK && i / 16 * 16 + 16 <= |text| && text <= more
    requires CbcByte(dec, iv, text, i, b)
    ensures CbcByte(dec, iv, more, i, b)
  {
    hide XorAt;
    var k := i / 16;
    assert BlockAt(text, k) == BlockAt(more, k);
    if k > 0 { assert BlockAt(text, k - 1) == BlockAt(more, k - 1); }
  }

  lemma XorIs(a: seq<byte>, b: seq<byte>, j: nat)
    requires j < |a| == |b|
    ensures Xor(a, b)[j] == XorAt(a, b, j)
  {}

  lemma NextBlock(i: nat)
    requires i >= 16
    ensures (i - 16) / 16 == i / 16 - 1 && (i - 16) % 16 == i % 16
  {}

  /** A byte after the first block, seen from the second block on. */
  lemma CbcByteShifts(dec: BlockFn, iv: seq<byte>, text: seq<byte>, i: nat, b: byte)
    requires OnBlocks(dec) && |iv| == BLOCK && 16 <= i && i / 16 * 16 + 16 <= |text|
    requires (i - 16) / 16 * 16 + 16 <= |text[BLOCK..]| && CbcByte(dec, text[..BLOCK], text[BLOCK..], i - 16, b)
    ensures CbcByte(dec, iv, text, i, b)
  {
    hide XorAt;
    NextBlock(i);
    var k, rest := i / 16, text[BLOCK..];
    assert BlockAt(rest, k - 1) == BlockAt(text, k);
    if k > 1 {
      assert BlockAt(rest, k - 2) == BlockAt(text, k - 1);
    } else {
      assert BlockAt(text, 0) == text[..BLOCK];
    }
  }

  /** The recursion over blocks is CBC decryption byte by byte. */
  lemma {:induction false} DecryptAt(dec: BlockFn, iv: seq<byte>, text: seq<byte>, i: nat)
    requires OnBlocks(dec) && |iv| == BLOCK && Blocks(text) && i < |text|
    ensures i / 16 * 16 + 16 <= |text|
    ensures CbcByte(dec, iv, text, i, Decrypt(dec, iv, text)[i])
    decreases |text|
  {
    hide XorAt, Xor;
    var first, rest := text[..BLOCK], text[BLOCK..];
    if i < 16 {
      assert first == BlockAt(text, 0);
      XorIs(dec(first), iv, i);
    } else {
      DecryptAt(dec, first, rest, i - 16);
      assert Decrypt(dec, iv, text)[i] == Decrypt(dec, first, rest)[i - 16];
      hide CbcByte;
      CbcByteShifts(dec, iv, text, i, Decrypt(dec, iv, text)[i]);
    }
  }

  /** Decryption undoes encryption for every block function with an inverse. */
  lemma {:induction false} DecryptEncrypt(enc: BlockFn, dec: BlockFn, iv: seq<byte>, plain: seq<byte>)
    requires OnBlocks(enc) && OnBlocks(dec) && Inverse(enc, dec) && |iv| == BLOCK && Blocks(plain)
    ensures Decrypt(dec, iv, Encrypt(enc, iv, plain)) == plain
    decreases |plain|
  {
    if plain != [] {
      var first, tail := plain[..BLOCK], plain[BLOCK..];
      var block := enc(Xor(first, iv));
      var rest := Encrypt(enc, block, tail);
      DecryptEncrypt(enc, dec, block, tail);
      UndoBlock(enc, dec, iv, first);
      DecryptFirst(dec, iv, block, rest);
      assert Encrypt(enc, iv, plain) == block + rest;
      assert first + tail == plain;
    }
  }

  lemma UndoBlock(enc: BlockFn, dec: BlockFn, iv: seq<byte>, first: seq<byte>)
    requires OnBlocks(enc) && OnBlocks(dec) && Inverse(enc, dec) && |iv| == |first| == BLOCK
    ensures Xor(dec(enc(Xor(first, iv))), iv) == first
  {
    XorTwice(first, iv);
  }

  /** Decrypting in pieces is decrypting at once, with the chaining value carried over. */
  lemma {:induction false} DecryptAppend(dec: BlockFn, iv: seq<byte>, a: seq<byte>, b: seq<byte>)
    requires OnBlocks(dec) && |iv| == BLOCK && Blocks(a) && Blocks(b)
    ensures Decrypt(dec, iv, a + b) == Decrypt(dec, iv, a) + Decrypt(dec, Chain(iv, a), b)
    decreases |a|
  {
    if a == [] {
      assert a + b == b;
    } else {
      var first, rest := a[..BLOCK], a[BLOCK..];
      assert a == first + rest && a + b == first + (rest + b);
      assert Chain(first, rest) == Chain(iv, a);
      DecryptAppend(dec, first, rest, b);
      DecryptBoth(dec, iv, first, rest, b, Chain(iv, a));
    }
  }

  lemma DecryptBoth(dec: BlockFn, iv: seq<byte>, first: seq<byte>, rest: seq<byte>, b: seq<byte>, next: seq<byte>)
    requires OnBlocks(dec) && |iv| == |first| == |next| == BLOCK && Blocks(rest) && Blocks(b)
    requires Decrypt(dec, first, rest + b) == Decrypt(dec, first, rest) + Decrypt(dec, next, b)
    ensures Decrypt(dec, iv, first + (rest + b)) == Decrypt(dec, iv, first + rest) + Decrypt(dec, next, b)
  {
    BlocksAppend(rest, b);
    DecryptFirst(dec, iv, first, rest);
    DecryptFirst(dec, iv, first, rest + b);
    var x, p, q := Xor(dec(first), iv), Decrypt(dec, first, rest), Decrypt(dec, next, b);
    hide Decrypt, Xor, OnBlocks;
    Associates(x, p, q);
  }

  lemma Associates(x: seq<byte>, p: seq<byte>, q: seq<byte>)
    ensures x + (p + q) == (x + p) + q
  {}

  lemma BlocksAppend(a: seq<byte>, b: seq<byte>)
    requires Blocks(a) && Blocks(b)
    ensures Blocks(a + b)
  {
    assert |a + b| == |a| + |b|;
  }

  lemma ChainAppend(iv: seq<byte>, a: seq<byte>, b: seq<byte>)
    requires |iv| == BLOCK && Blocks(a) && Blocks(b)
    ensures Chain(iv, a + b) == Chain(Chain(iv, a), b)
  {
    if b == [] {
      assert a + b == a;
    } else {
      assert (a + b)[|a + b| - BLOCK..] == b[|b| - BLOCK..];
    }
  }

  class BlockMode {
    const dec: BlockFn
    var chain: seq<byte>

    ghost predicate Valid()
      reads this
    {
      OnBlocks(dec) && |chain| == BLOCK
    }

    constructor (dec: BlockFn, iv: seq<byte>)
      requires OnBlocks(dec) && |iv| == BLOCK
      ensures Valid() && this.dec == dec && chain == iv
    {
      this.dec, chain := dec, iv;
    }

    /** CryptBlocks(data[lo:hi], data[lo:hi]): Go's standard library, known here by what it computes. */
    method CryptBlocks(data: array<byte>, lo: nat, hi: nat)
      requires Valid() && lo <= hi <= data.Length && (hi - lo) % 16 == 0
      modifies this, data
      ensures Valid()
      ensures data[lo..hi] == Decrypt(dec, old(chain), old(data[lo..hi]))
      ensures chain == Chain(old(chain), old(data[lo..hi]))
      ensures forall i :: 0 <= i < lo || hi <= i < data.Length ==> data[i] == old(data[i])
    {
      var plain := Decrypt(dec, chain, data[lo..hi]);
      chain := Chain(chain, data[lo..hi]);
      forall i | lo <= i < hi { data[i] := plain[i - lo]; }
    }
  }
}
