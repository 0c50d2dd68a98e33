/** The streaming AES-CBC reader of internal/crypto/crypto.go over an abstract block cipher. */
module DecryptReader {
  import opened Bytes
  import opened Cbc

  datatype Error = None | Eof | UnexpectedEof | SourceFailed | InvalidData | InvalidKeySize | InvalidIvSize

  /**
   An io.Reader over `content` that may return fewer bytes than asked for and may fail at
   any point, but returns at least one byte or an error.
   */
  class Source {
    const content: seq<byte>
    var pos: nat
    ghost var failed: bool // a read has failed

    constructor (content: seq<byte>)
      ensures this.content == content && pos == 0 && !failed
    {
      this.content, pos, failed := content, 0, false;
    }

    method Read(data: array<byte>, lo: nat, hi: nat) returns (n: nat, err: Error)
      requires lo < hi <= data.Length && pos <= |content|
      modifies this, data
      ensures n <= hi - lo && pos == old(pos) + n <= |content|
      ensures forall i {:trigger data[i]} :: lo <= i < lo + n ==> data[i] == content[old(pos) + i - lo]
      ensures forall i :: 0 <= i < lo || hi <= i < data.Length ==> data[i] == old(data[i])
      ensures err == None || err == Eof || err == SourceFailed
      ensures err == None ==> n > 0
      ensures err == Eof ==> pos == |content|
      ensures err == SourceFailed ==> n == 0
      ensures failed == (old(failed) || err == SourceFailed)
    {
      if * {
        failed := true;
        return 0, SourceFailed;
      }
      if pos == |content| { return 0, Eof; }
      n :| 1 <= n <= hi - lo && pos + n <= |content|;
      forall i | lo <= i < lo + n { data[i] := content[pos + i - lo]; }
      pos := pos + n;
      err := None;
      if pos == |content| {
        if * { err := Eof; }
      }
    }
  }

  /** io.ReadAtLeast(src, data[lo:hi], min); io.ReadFull is the case min == hi - lo. */
  method ReadAtLeast(src: Source, data: array<byte>, lo: nat, hi: nat, min: nat) returns (n: nat, err: Error)
    requires lo < hi <= data.Length && 0 < min <= hi - lo && src.pos <= |src.content|
    modifies src, data
    ensures n <= hi - lo && src.pos == old(src.pos) + n <= |src.content|
    ensures data[lo..lo + n] == src.content[old(src.pos)..src.pos]
    ensures forall i :: 0 <= i < lo || hi <= i < data.Length ==> data[i] == old(data[i])
    ensures err == None <==> n >= min
    ensures err == Eof || err == UnexpectedEof ==> src.pos == |src.content|
    ensures err == Eof ==> n == 0
    ensures err == UnexpectedEof ==> n > 0
    ensures err in {None, Eof, UnexpectedEof, SourceFailed}
    ensures src.failed == (old(src.failed) || err == SourceFailed)
  {
    n, err := 0, None;
    while n < min && err == None
      invariant n <= hi - lo && src.pos == old(src.pos) + n <= |src.content|
      invariant forall i {:trigger data[i]} :: lo <= i < lo + n ==> data[i] == src.content[old(src.pos) + i - lo]
      invariant forall i :: 0 <= i < lo || hi <= i < data.Length ==> data[i] == old(data[i])
      invariant err == None || err == Eof || err == SourceFailed
      invariant err == Eof ==> src.pos == |src.content|
      invariant src.failed == (old(src.failed) || err == SourceFailed)
      invariant err == SourceFailed ==> n < min
      decreases min - n, err == None
    {
      var k;
      k, err := src.Read(data, lo + n, hi);
      n := n + k;
    }
    if n >= min {
      err := None;
    } else if n > 0 && err == Eof {
      err := UnexpectedEof;
    }
  }

  /** The state of the stream up to the first error: `text` has been decrypted into `delivered` and `out`. */
  ghost predicate Stream(dec: BlockFn, iv: seq<byte>, text: seq<byte>, out: seq<byte>, delivered: seq<byte>, chain: seq<byte>)
  {
    && OnBlocks(dec) && |iv| == BLOCK && Blocks(text)
    && delivered + out == Decrypt(dec, iv, text) && chain == Chain(iv, text)
  }

  /** One read: decrypting `more` and delivering k bytes of the result. */
  lemma Reads(dec: BlockFn, iv: seq<byte>, text: seq<byte>, delivered: seq<byte>, chain: seq<byte>, more: seq<byte>, k: nat)
    requires Stream(dec, iv, text, [], delivered, chain) && Blocks(more) && k <= |more|
    ensures var out := Decrypt(dec, chain, more);
      Stream(dec, iv, text + more, out[k..], delivered + out[..k], Chain(chain, more))
  {
    hide Decrypt, Chain;
    var out := Decrypt(dec, chain, more);
    BlocksAppend(text, more);
    DecryptAppend(dec, iv, text, more);
    ChainAppend(iv, text, more);
    SplitAt(delivered, out, k);
  }

  lemma SplitAt(front: seq<byte>, back: seq<byte>, k: nat)
    requires k <= |back|
    ensures front + [] == front
    ensures (front + back[..k]) + back[k..] == front + back
  {
  }

  lemma Regroup(a: seq<byte>, b: seq<byte>, c: seq<byte>)
    ensures a + b + c == a + (b + c)
  {}

  /** Delivering k bytes of what was decrypted before. */
  lemma Delivers(dec: BlockFn, iv: seq<byte>, text: seq<byte>, out: seq<byte>, delivered: seq<byte>, chain: seq<byte>, k: nat)
    requires Stream(dec, iv, text, out, delivered, chain) && k <= |out|
    ensures Stream(dec, iv, text, out[k..], delivered + out[..k], chain)
  {
    SplitAt(delivered, out, k);
  }

  /** A source without its last, incomplete block. */
  function WholeBlocks(s: seq<byte>): (t: seq<byte>)
    ensures Blocks(t)
  {
    s[..|s| - |s| % 16]
  }

  /** What a source decrypts to: its last, incomplete block is dropped. */
  ghost function Plain(dec: BlockFn, iv: seq<byte>, content: seq<byte>): seq<byte>
    requires OnBlocks(dec) && |iv| == BLOCK
  {
    Decrypt(dec, iv, WholeBlocks(content))
  }

  /** Byte i of the decrypted source is CBC decryption of the source's blocks. */
  ghost predicate PlainByte(dec: BlockFn, iv: seq<byte>, content: seq<byte>, i: nat, b: byte)
    requires OnBlocks(dec) && |iv| == BLOCK
  {
    i / 16 * 16 + 16 <= |content| && CbcByte(dec, iv, content, i, b)
  }

  lemma PlainAt(dec: BlockFn, iv: seq<byte>, content: seq<byte>, i: nat)
    requires OnBlocks(dec) && |iv| == BLOCK && i < |Plain(dec, iv, content)|
    ensures PlainByte(dec, iv, content, i, Plain(dec, iv, content)[i])
  {
    var whole := WholeBlocks(content);
    DecryptAt(dec, iv, whole, i);
    hide CbcByte;
    CbcByteExtends(dec, iv, whole, content, i, Decrypt(dec, iv, whole)[i]);
  }

  lemma PlainBytes(dec: BlockFn, iv: seq<byte>, content: seq<byte>, s: seq<byte>)
    requires OnBlocks(dec) && |iv| == BLOCK && s <= Plain(dec, iv, content)
    ensures forall i :: 0 <= i < |s| ==> PlainByte(dec, iv, content, i, s[i])
    ensures |Plain(dec, iv, content)| == |content| - |content| % 16
  {
    forall i | 0 <= i < |s| ensures PlainByte(dec, iv, content, i, s[i]) { PlainAt(dec, iv, content, i); }
  }

  lemma Ends(content: seq<byte>, text: seq<byte>, rest: seq<byte>)
    requires content == text + rest && Blocks(text) && |rest| < BLOCK
    ensures WholeBlocks(content) == text
    ensures Blocks(content) ==> rest == []
  {
  }

  lemma TextOfSource(content: seq<byte>, text: seq<byte>)
    requires text <= content && Blocks(text)
    ensures text <= WholeBlocks(content)
    ensures Blocks(WholeBlocks(content)[|text|..])
  {
  }

  /** Go's copy of s into the front of p, which has room for it. */
  method CopyTo(p: array<byte>, s: seq<byte>)
    requires |s| <= p.Length
    modifies p
    ensures p[..|s|] == s
    ensures forall i :: |s| <= i < p.Length ==> p[i] == old(p[i])
  {
    forall i | 0 <= i < |s| { p[i] := s[i]; }
  }

  class Reader {
    const src: Source
    const mode: BlockMode
    const iv: seq<byte>
    var buf: seq<byte>      // bytes of an incomplete block
    var outbuf: seq<byte>   // decrypted, not yet delivered
    var block: array<byte>  // scratch for one block
    ghost var text: seq<byte>      // what has been decrypted
    ghost var delivered: seq<byte>

    /** Up to the first error: everything consumed has been decrypted, but for less than a block. */
    ghost predicate Valid()
      reads this, src, mode
    {
      && block.Length == BLOCK && src.pos <= |src.content|
      && src.content[..src.pos] == text + buf && |buf| < BLOCK
      && Stream(mode.dec, iv, text, outbuf, delivered, mode.chain)
    }

    /** NewDecryptReader, on a key and IV of the right size. */
    constructor (src: Source, dec: BlockFn, iv: seq<byte>)
      requires OnBlocks(dec) && |iv| == BLOCK && src.pos == 0
      ensures Valid() && fresh(mode) && fresh(block) && this.src == src && mode.dec == dec && this.iv == iv
      ensures delivered == []
    {
      this.src, this.iv := src, iv;
      mode := new BlockMode(dec, iv);
      buf, outbuf, text, delivered := [], [], [], [];
      block := new byte[BLOCK];
    }

    lemma SoFar()
      requires Valid()
      ensures OnBlocks(mode.dec) && |iv| == BLOCK && delivered <= Plain(mode.dec, iv, src.content)
    {
      assert text <= src.content;
      DeliveredSoFar(mode.dec, iv, src.content, text, outbuf, delivered, mode.chain);
    }

    /** What an error means: unless the source failed, everything in whole blocks has been delivered. */
    ghost predicate Stopped(err: Error)
      reads this, src
    {
      && OnBlocks(mode.dec) && |iv| == BLOCK
      && (err != SourceFailed ==> delivered == Plain(mode.dec, iv, src.content))
      && (err != SourceFailed && Blocks(src.content) ==> err == Eof)
    }

    method Read(p: array<byte>) returns (n: nat, err: Error)
      requires Valid() && p != block
      modifies this, src, mode, block, p
      ensures n <= p.Length && delivered == old(delivered) + p[..n]
      ensures err == None ==> Valid() && (block == old(block) || fresh(block)) && (p.Length > 0 ==> n > 0)
      ensures err != None ==> n == 0 && Stopped(err)
      ensures src.failed == (old(src.failed) || err == SourceFailed)
      ensures OnBlocks(mode.dec) && |iv| == BLOCK
      ensures err == None ==>
        forall i :: 0 <= i < |delivered| ==> PlainByte(mode.dec, iv, src.content, i, delivered[i])
    {
      if |outbuf| > 0 {
        n := if p.Length < |outbuf| then p.Length else |outbuf|;
        CopyTo(p, outbuf[..n]);
        Delivers(mode.dec, iv, text, outbuf, delivered, mode.chain, n);
        delivered := delivered + p[..n];
        outbuf := outbuf[n..];
        err := None;
      } else if p.Length < BLOCK {
        n, err := ReadSmall(p);
      } else {
        n, err := ReadLarge(p);
      }
      if err == None {
        SoFar();
        PlainBytes(mode.dec, iv, src.content, delivered);
      }
    }

    /**
     Puts `front` before what ReadAtLeast reads into data[|front|..hi]: at least one block,
     or an error. `more` is what was consumed.
     */
    method Fill(front: seq<byte>, data: array<byte>, hi: nat) returns (n: nat, err: Error, ghost more: seq<byte>)
      requires |front| < BLOCK <= hi <= data.Length && src.pos <= |src.content|
      modifies src, data
      ensures old(src.pos) <= src.pos <= |src.content|
      ensures src.content[..src.pos] == src.content[..old(src.pos)] + more
      ensures err == None ==> BLOCK <= n <= hi && data[..n] == front + more
      ensures err != None ==> |front| + |more| < BLOCK
      ensures err == Eof ==> more == []
      ensures err == UnexpectedEof ==> more != []
      ensures err == Eof || err == UnexpectedEof ==> src.pos == |src.content|
      ensures err in {None, Eof, UnexpectedEof, SourceFailed}
      ensures src.failed == (old(src.failed) || err == SourceFailed)
    {
      var l := |front|;
      CopyTo(data, front);
      var k;
      k, err := ReadAtLeast(src, data, l, hi, BLOCK - l);
      more := src.content[old(src.pos)..src.pos];
      n := k + l;
      assert data[..l] == front;
      assert data[..n] == data[..l] + data[l..n];
    }

    /** What an error of Fill leaves behind. */
    lemma FillStopped(err: Error, front: seq<byte>, more: seq<byte>)
      requires Stream(mode.dec, iv, text, [], delivered, mode.chain)
      requires err in {Eof, UnexpectedEof, SourceFailed} && |front| + |more| < BLOCK
      requires err == Eof ==> more == []
      requires err == UnexpectedEof ==> more != []
      requires err != SourceFailed ==> src.content == text + front + more
      ensures Stopped(err)
    {
      if err != SourceFailed {
        Ends(src.content, text, front + more);
        assert delivered + [] == delivered;
      }
    }

    /** Decrypts data[..n], whole blocks just consumed, in place; its first k bytes are about to be delivered. */
    method DecryptWhole(data: array<byte>, n: nat, ghost k: nat)
      requires Stream(mode.dec, iv, text, [], delivered, mode.chain)
      requires k <= n <= data.Length && n % 16 == 0
      modifies this`text, this`delivered, mode, data
      ensures text == old(text) + old(data[..n]) && delivered == old(delivered) + data[..k]
      ensures Stream(mode.dec, iv, text, data[k..n], delivered, mode.chain)
    {
      hide Decrypt, Chain;
      ghost var whole := data[0..n];
      Reads(mode.dec, iv, text, delivered, mode.chain, whole, k);
      mode.CryptBlocks(data, 0, n);
      ghost var out := data[0..n];
      assert data[..n] == out && data[..k] == out[..k] && data[k..n] == out[k..];
      text, delivered := text + whole, delivered + data[..k];
    }

    /** One whole block into the scratch buffer; what does not fit p waits in outbuf. */
    method ReadSmall(p: array<byte>) returns (n: nat, err: Error)
      requires Valid() && p != block && outbuf == [] && p.Length < BLOCK
      modifies this, src, mode, block, p
      ensures n <= p.Length && delivered == old(delivered) + p[..n]
      ensures err == None ==> Valid() && fresh(block) && n == p.Length
      ensures err != None ==> n == 0 && Stopped(err)
      ensures src.failed == (old(src.failed) || err == SourceFailed)
    {
      ghost var more;
      n, err, more := Fill(buf, block, BLOCK);
      if err != None {
        assert err != SourceFailed ==> src.content[..src.pos] == src.content;
        FillStopped(err, buf, more);
        return 0, err;
      }
      hide Stream;
      assert block[..BLOCK] == buf + more;
      Regroup(text, buf, more);
      n := p.Length;
      DecryptWhole(block, BLOCK, n);
      CopyTo(p, block[..n]);
      buf, outbuf := [], block[n..BLOCK];
      block := new byte[BLOCK];
    }

    /** Splits the n bytes read into whole blocks and an incomplete one. */
    static method CutRemainder(p: array<byte>, n: nat) returns (whole: nat, rest: seq<byte>)
      requires n <= p.Length
      ensures whole == n - n % 16 && |rest| == n % 16 && p[..n] == p[..whole] + rest
    {
      var remainder := n % 16;
      whole, rest := n, [];
      if remainder > 0 {
        rest := p[n - remainder..n];
        whole := n - remainder;
      }
    }

    /** At least one block straight into p, decrypted in place; an incomplete last block waits in buf. */
    method ReadLarge(p: array<byte>) returns (n: nat, err: Error)
      requires Valid() && p != block && outbuf == [] && p.Length >= BLOCK
      modifies this, src, mode, p
      ensures n <= p.Length && delivered == old(delivered) + p[..n] && block == old(block)
      ensures err == None ==> Valid() && n > 0
      ensures err != None ==> n == 0 && Stopped(err)
      ensures src.failed == (old(src.failed) || err == SourceFailed)
    {
      hide Stream, Stopped, Plain, Decrypt;
      var toRead := p.Length - p.Length % 16;
      var front := buf;
      buf := [];
      ghost var more;
      n, err, more := Fill(front, p, toRead);
      if err != None {
        assert err != SourceFailed ==> src.content[..src.pos] == src.content;
        FillStopped(err, front, more);
        return 0, err;
      }
      Regroup(text, front, more);
      n, buf := CutRemainder(p, n);
      Regroup(text, p[..n], buf);
      DecryptWhole(p, n, n);
      assert p[n..n] == [];
    }
  }

  /** Reading with any sequence of buffer sizes, until an error or the end of the sequence. */
  method ReadAll(d: Reader, sizes: seq<nat>) returns (out: seq<byte>, err: Error)
    requires d.Valid() && d.delivered == []
    modifies d, d.src, d.mode, d.block
    ensures OnBlocks(d.mode.dec) && |d.iv| == BLOCK
    ensures out <= Plain(d.mode.dec, d.iv, d.src.content)
    ensures forall i :: 0 <= i < |out| ==> PlainByte(d.mode.dec, d.iv, d.src.content, i, out[i])
    ensures err == Eof || err == UnexpectedEof ==> |out| == |d.src.content| - |d.src.content| % 16
    ensures err == Eof || err == UnexpectedEof ==> out == Plain(d.mode.dec, d.iv, d.src.content)
    ensures Blocks(d.src.content) ==> err != UnexpectedEof
    ensures d.src.failed == (old(d.src.failed) || err == SourceFailed)
  {
    hide Stream, Plain, PlainByte;
    out, err := [], None;
    d.SoFar();
    for i := 0 to |sizes|
      invariant d.Valid() && err == None && out == d.delivered && d.src.failed == old(d.src.failed)
      invariant d.block == old(d.block) || fresh(d.block)
      invariant OnBlocks(d.mode.dec) && |d.iv| == BLOCK && out <= Plain(d.mode.dec, d.iv, d.src.content)
    {
      PlainBytes(d.mode.dec, d.iv, d.src.content, out);
      var p := new byte[sizes[i]];
      var n;
      n, err := d.Read(p);
      if err != None {
        return;
      }
      out := out + p[..n];
      d.SoFar();
    }
    PlainBytes(d.mode.dec, d.iv, d.src.content, out);
  }

  lemma DeliveredSoFar(dec: BlockFn, iv: seq<byte>, content: seq<byte>, text: seq<byte>, out: seq<byte>,
                       delivered: seq<byte>, chain: seq<byte>)
    requires text <= content && Stream(dec, iv, text, out, delivered, chain)
    ensures delivered <= Plain(dec, iv, content)
  {
    TextOfSource(content, text);
    var whole := WholeBlocks(content);
    var rest := whole[|text|..];
    assert whole == text + rest;
    DecryptAppend(dec, iv, text, rest);
    assert delivered <= delivered + out;
  }

  /** DecryptBlock: in place, on whole blocks, with an AES-256 key. */
  method DecryptBlock(data: array<byte>, keySize: nat, iv: seq<byte>, dec: BlockFn) returns (err: Error)
    requires OnBlocks(dec)
    modifies data
    ensures err == if !Blocks(data[..]) then InvalidData
                   else if keySize != 32 then InvalidKeySize
                   else if |iv| != BLOCK then InvalidIvSize else None
    ensures data[..] == if err == None then Decrypt(dec, iv, old(data[..])) else old(data[..])
    ensures err == None ==> forall i :: 0 <= i < data.Length ==> PlainByte(dec, iv, old(data[..]), i, data[i])
  {
    if data.Length % 16 != 0 { return InvalidData; }
    if keySize != 32 { return InvalidKeySize; }
    if |iv| != BLOCK { return InvalidIvSize; }
    var mode := new BlockMode(dec, iv);
    assert data[0..data.Length] == data[..];
    ghost var text := data[..];
    mode.CryptBlocks(data, 0, data.Length);
    assert data[0..data.Length] == data[..];
    assert WholeBlocks(text) == text;
    PlainBytes(dec, iv, text, data[..]);
    return None;
  }
}
