/** The pure Go yEnc decoder of internal/nntp/yenc/decoder.go and the whole-article decoding it streams. */
module Yenc {
  import opened Bytes

  const LF: byte := 10
  const CR: byte := 13
  const DOT: byte := 46
  const ESC: byte := 61 // '='

  const YBEGIN: seq<byte> := [61, 121, 98, 101, 103, 105, 110, 32]  // "=ybegin "
  const YPART: seq<byte> := [61, 121, 112, 97, 114, 116, 32]        // "=ypart "
  const YEND: seq<byte> := [61, 121, 101, 110, 100, 32]             // "=yend "

  datatype Error = None | Eof | SourceFailed

  // ------------------------------------------------------------- one line

  /** bytes.TrimRight(line, "\r\n"): every trailing CR and LF. */
  function TrimRight(line: seq<byte>): seq<byte> {
    if line != [] && (line[|line| - 1] == CR || line[|line| - 1] == LF) then TrimRight(line[..|line| - 1]) else line
  }

  /** What trimming leaves does not end in CR or LF, and it takes nothing else away. */
  lemma {:induction false} TrimRightMeaning(line: seq<byte>)
    ensures TrimRight(line) <= line
    ensures TrimRight(line) != [] ==> TrimRight(line)[|TrimRight(line)| - 1] !in [13, 10]
    ensures forall i :: |TrimRight(line)| <= i < |line| ==> line[i] == 13 || line[i] == 10
  {
    if line != [] && (line[|line| - 1] == CR || line[|line| - 1] == LF) {
      TrimRightMeaning(line[..|line| - 1]);
    }
  }

  /** Undoes dot-stuffing, only where a second dot follows. */
  function Unstuff(line: seq<byte>): seq<byte> {
    if |line| >= 2 && line[0] == DOT && line[1] == DOT then line[1..] else line
  }

  /** One dot is taken off, from a line that begins with two and from no other. */
  lemma UnstuffMeaning(line: seq<byte>)
    ensures Unstuff(line) == line || [46] + Unstuff(line) == line
    ensures Unstuff(line) == line <==> !([46, 46] <= line)
  {
    if |line| >= 2 { assert line == [line[0]] + line[1..]; }
  }

  /** A data line without its escapes; a lone escape at the end of the line is dropped. */
  function Unescape(line: seq<byte>): seq<byte> {
    if line == [] then []
    else if line[0] == ESC then
      if |line| == 1 then [] else [line[1] - 64 - 42] + Unescape(line[2..])
    else [line[0] - 42] + Unescape(line[1..])
  }

  /** The rest of a data line, after an escape or not. */
  function UnescapeRest(line: seq<byte>, escaped: bool): seq<byte> {
    if !escaped then Unescape(line)
    else if line == [] then [] else [line[0] - 64 - 42] + Unescape(line[1..])
  }

  lemma UnescapeByte(b: byte, rest: seq<byte>)
    ensures UnescapeRest([b] + rest, true) == [b - 64 - 42] + UnescapeRest(rest, false)
    ensures UnescapeRest([b] + rest, false) ==
      if b == ESC then UnescapeRest(rest, true) else [b - 42] + UnescapeRest(rest, false)
  {
    var line := [b] + rest;
    assert line[1..] == rest && (rest != [] ==> line[2..] == rest[1..]);
  }

  lemma Regroup(front: seq<byte>, b: byte, back: seq<byte>)
    ensures front + ([b] + back) == (front + [b]) + back
  {
  }

  /** The decoding loop of processLine. */
  method UnescapeLine(line: seq<byte>) returns (data: seq<byte>)
    ensures data == Unescape(line)
  {
    hide Unescape;
    data := [];
    var escaped := false;
    assert line[0..] == line && UnescapeRest(line, false) == Unescape(line);
    for i := 0 to |line|
      invariant data + UnescapeRest(line[i..], escaped) == Unescape(line)
    {
      hide UnescapeRest;
      var b := line[i];
      ghost var rest := line[i + 1..];
      assert line[i..] == [b] + rest;
      UnescapeByte(b, rest);
      if escaped {
        Regroup(data, b - 64 - 42, UnescapeRest(rest, false));
        data := data + [b - 64 - 42];
        escaped := false;
      } else if b == ESC {
        escaped := true;
      } else {
        Regroup(data, b - 42, UnescapeRest(rest, false));
        data := data + [b - 42];
      }
    }
    NothingLeft(escaped);
    assert data + [] == data;
  }

  lemma NothingLeft(escaped: bool)
    ensures UnescapeRest([], escaped) == []
  {
  }

  datatype Effect = Skip | Begin | Stop | Payload(data: seq<byte>)

  /** What a line, as it comes off the wire, means to a decoder that has or has not seen =ybegin. */
  function Meaning(sawBegin: bool, raw: seq<byte>): Effect {
    var line := TrimRight(raw);
    if line == [] then Skip
    else if line == [DOT] then Stop
    else
      var text := Unstuff(line);
      if YBEGIN <= text then Begin
      else if YPART <= text then Skip
      else if YEND <= text then Stop
      else if sawBegin then Payload(Unescape(text))
      else Skip
  }

  // ---------------------------------------------------------- whole article

  /** The length of the first line of s with its line feed, or of all of s when it has none. */
  function LineEnd(s: seq<byte>): (n: nat)
    ensures n <= |s| && (s != [] ==> n > 0)
    ensures n < |s| || LF in s ==> n > 0 && s[n - 1] == LF
  {
    if s == [] then 0 else if s[0] == LF then 1 else 1 + LineEnd(s[1..])
  }

  /**
   The payload of an article and how it ends: at =yend, at the lone dot or at the end of
   the source; a source that fails yields nothing for its last, unfinished line.
   */
  function DecodeAll(sawBegin: bool, s: seq<byte>, fails: bool): (seq<byte>, Error)
    decreases |s|
  {
    if fails && LF !in s then ([], SourceFailed)
    else if s == [] then ([], Eof)
    else
      var n := LineEnd(s);
      match Meaning(sawBegin, s[..n])
      case Stop => ([], Eof)
      case Begin => DecodeAll(true, s[n..], fails)
      case Skip => DecodeAll(sawBegin, s[n..], fails)
      case Payload(data) =>
        var (rest, end) := DecodeAll(sawBegin, s[n..], fails);
        (data + rest, end)
  }

  /** One line of DecodeAll: what it yields and what is left. */
  lemma DecodeLine(saw: bool, s: seq<byte>, fails: bool)
    requires s != [] && (LF in s || !fails)
    ensures var line := s[..LineEnd(s)];
      var effect := Meaning(saw, line);
      var (rest, end) := DecodeAll(saw || effect.Begin?, s[|line|..], fails);
      DecodeAll(saw, s, fails) ==
        if effect.Stop? then ([], Eof) else if effect.Payload? then (effect.data + rest, end) else (rest, end)
  {
  }

  ghost predicate BeginAt(s: seq<byte>, i: nat) { i <= |s| && YBEGIN <= s[i..] }

  /** The text "=ybegin " occurs nowhere in s. */
  ghost predicate NoBegin(s: seq<byte>) { forall i: nat :: !BeginAt(s, i) }

  lemma NoBeginAfter(s: seq<byte>, n: nat)
    requires NoBegin(s) && n <= |s|
    ensures NoBegin(s[n..])
  {
    forall i: nat ensures !BeginAt(s[n..], i) {
      if i <= |s[n..]| { assert s[n..][i..] == s[n + i..]; }
      assert !BeginAt(s, n + i);
    }
  }

  lemma NoBeginInLine(s: seq<byte>, n: nat)
    requires NoBegin(s) && n <= |s|
    ensures !Meaning(false, s[..n]).Begin? && !Meaning(false, s[..n]).Payload?
  {
    var line := TrimRight(s[..n]);
    var text := Unstuff(line);
    var from := |line| - |text|;
    TrimRightMeaning(s[..n]);
    UnstuffMeaning(line);
    hide TrimRight, Unstuff, Unescape;
    assert text == s[from..][..|text|];
    assert !BeginAt(s, from);
  }

  /** Nothing is decoded before a =ybegin line. */
  lemma {:induction false} NothingBeforeBegin(s: seq<byte>, fails: bool)
    requires NoBegin(s)
    ensures DecodeAll(false, s, fails).0 == []
    decreases |s|
  {
    hide Meaning, NoBegin;
    if !(fails && LF !in s) && s != [] {
      var n := LineEnd(s);
      NoBeginInLine(s, n);
      NoBeginAfter(s, n);
      NothingBeforeBegin(s[n..], fails);
    }
  }

  /** The control words, in characters. */
  lemma ControlWords()
    ensures Spells(YBEGIN, "=ybegin ") && Spells(YPART, "=ypart ") && Spells(YEND, "=yend ")
  {}

  ghost predicate Spells(word: seq<byte>, text: string) {
    |word| == |text| && forall i :: 0 <= i < |word| ==> word[i] as int == text[i] as int
  }

  // --------------------------------------------------------------- streaming

  /** The first line feed, byte by byte. */
  method FindLineEnd(s: seq<byte>) returns (n: nat, found: bool)
    ensures n == LineEnd(s) && (found <==> LF in s[..n])
  {
    n := 0;
    while n < |s| && s[n] != LF
      invariant 0 <= n <= |s| && LF !in s[..n]
      invariant LineEnd(s) == n + LineEnd(s[n..])
      decreases |s| - n
    {
      assert s[n..][1..] == s[n + 1..];
      n := n + 1;
    }
    found := n < |s|;
    if found { n := n + 1; }
  }

  /** bufio.Reader over a source that ends, or fails, after its content. */
  class LineReader {
    const content: seq<byte>
    const fails: bool
    var pos: nat

    constructor (content: seq<byte>, fails: bool)
      ensures this.content == content && this.fails == fails && pos == 0
    {
      this.content, this.fails, pos := content, fails, 0;
    }

    method ReadBytes() returns (line: seq<byte>, err: Error)
      requires pos <= |content|
      modifies this
      ensures pos == old(pos) + |line| <= |content|
      ensures line == content[old(pos)..][..LineEnd(content[old(pos)..])]
      ensures err == if LF in line then None else if fails then SourceFailed else Eof
    {
      var n, found := FindLineEnd(content[pos..]);
      line := content[pos..][..n];
      err := if found then None else if fails then SourceFailed else Eof;
      pos := pos + n;
    }
  }

  lemma NothingFirst(s: seq<byte>)
    ensures [] + s == s
  {
  }

  lemma PrefixMore(s: seq<byte>, n: nat, k: nat)
    requires n + k <= |s|
    ensures s[..n] + s[n..][..k] == s[..n + k]
    ensures s[n..][k..] == s[n + k..]
  {
  }

  class Decoder {
    const src: LineReader
    var out: seq<byte>
    var outPos: nat
    var sawBegin: bool
    var done: bool

    ghost predicate Valid()
      reads this, src
    {
      src.pos <= |src.content| && outPos <= |out|
    }

    /** Everything this decoder will still deliver, and how its stream will end. */
    ghost function Rest(): (seq<byte>, Error)
      requires Valid()
      reads this, src
    {
      if done then (out[outPos..], Eof)
      else
        var (rest, end) := DecodeAll(sawBegin, src.content[src.pos..], src.fails);
        (out[outPos..] + rest, end)
    }

    constructor (src: LineReader)
      requires src.pos == 0
      ensures Valid() && this.src == src && Rest() == DecodeAll(false, src.content, src.fails)
    {
      this.src := src;
      out, outPos, sawBegin, done := [], 0, false, false;
      new;
      assert src.content[0..] == src.content;
      NothingFirst(DecodeAll(false, src.content, src.fails).0);
    }

    method ProcessLine(raw: seq<byte>) returns (stop: bool)
      requires out == []
      modifies this`out, this`sawBegin
      ensures stop == Meaning(old(sawBegin), raw).Stop?
      ensures sawBegin == (old(sawBegin) || Meaning(old(sawBegin), raw).Begin?)
      ensures out == match Meaning(old(sawBegin), raw) case Payload(data) => data case _ => []
    {
      var line := TrimRight(raw);
      if |line| == 0 {
        return false;
      }
      if line[0] == DOT {
        if |line| == 1 {
          return true;
        }
        if line[1] == DOT {
          line := line[1..];
        }
      }
      if YBEGIN <= line {
        sawBegin := true;
        return false;
      }
      if YPART <= line {
        return false;
      }
      if YEND <= line {
        return true;
      }
      if !sawBegin {
        return false;
      }
      out := UnescapeLine(line);
      return false;
    }

    /** What is left in the source, for a decoder with nothing decoded and not done. */
    ghost function Ahead(): (seq<byte>, Error)
      requires Valid()
      reads this, src
    {
      DecodeAll(sawBegin, src.content[src.pos..], src.fails)
    }

    lemma RestIsAhead()
      requires Valid() && !done
      ensures Rest() == (out[outPos..] + Ahead().0, Ahead().1)
      ensures outPos == |out| ==> Rest() == Ahead()
    {
      if outPos == |out| {
        assert out[outPos..] == [];
        NothingFirst(Ahead().0);
      }
    }

    lemma NothingToCome()
      requires Valid() && done && outPos == |out|
      ensures Rest() == ([], Eof)
    {
      assert out[outPos..] == [];
    }

    /** One turn of the loop of Fill; an error is the source's, seen with the last line or before it. */
    method FillOnce() returns (stop: bool, err: Error)
      requires Valid() && !done && out == [] && outPos == 0
      modifies this`out, this`sawBegin, src
      ensures Valid() && src.pos >= old(src.pos) && (err == None ==> src.pos > old(src.pos))
      ensures err == SourceFailed ==> out == [] && old(Ahead()) == ([], err) && Ahead() == ([], err)
      ensures err != SourceFailed && stop ==> out == [] && old(Ahead()) == ([], Eof)
      ensures err != SourceFailed && !stop ==> old(Ahead()) == (out + Ahead().0, Ahead().1)
      ensures err == Eof && !stop ==> Ahead() == ([], Eof)
    {
      hide Meaning;
      ghost var s, saw := src.content[src.pos..], sawBegin;
      stop := false;
      var line;
      line, err := src.ReadBytes();
      assert src.content[src.pos..] == s[|line|..];
      if err == SourceFailed {
        assert LF !in s && s[|line|..] == [];
      } else if |line| > 0 {
        DecodeLine(saw, s, src.fails);
        stop := ProcessLine(line);
        NothingFirst(Ahead().0);
        assert err == Eof ==> s[|line|..] == [];
      } else {
        NothingFirst(Ahead().0);
      }
    }

    /** Reads lines until one yields payload; an error means that nothing is left. */
    method Fill() returns (err: Error)
      requires Valid() && !done && outPos == |out|
      modifies this`out, this`outPos, this`sawBegin, src
      ensures Valid() && outPos == 0
      ensures err == None ==> out != [] && Rest() == old(Rest())
      ensures err != None ==> out == [] && old(Rest()) == ([], err)
      ensures err == SourceFailed ==> Rest() == ([], err)
    {
      RestIsAhead();
      hide Ahead;
      out, outPos := [], 0;
      while true
        invariant Valid() && !done && out == [] && outPos == 0
        invariant old(Rest()) == Ahead()
        decreases |src.content| - src.pos
      {
        var stop;
        stop, err := FillOnce();
        RestIsAhead();
        if err == SourceFailed {
          return;
        }
        if |out| > 0 {
          assert out[0..] == out;
          return None;
        }
        NothingFirst(Ahead().0);
        if stop || err == Eof {
          return Eof;
        }
      }
    }

    /** Copies decoded bytes to p[n..], as many as fit. */
    method CopyOut(p: array<byte>, n: nat) returns (copied: nat)
      requires Valid() && outPos < |out| && n < p.Length
      modifies this`out, this`outPos, p
      ensures Valid() && 0 < copied <= p.Length - n && copied <= |old(Rest()).0|
      ensures p[..n] == old(p[..n]) && p[n..n + copied] == old(Rest()).0[..copied]
      ensures Rest() == (old(Rest()).0[copied..], old(Rest()).1)
      ensures old(|out|) == old(outPos) + copied || n + copied == p.Length
    {
      copied := if p.Length - n < |out| - outPos then p.Length - n else |out| - outPos;
      assert out[outPos..outPos + copied] == Rest().0[..copied];
      forall i | 0 <= i < copied { p[n + i] := out[outPos + i]; }
      assert p[n..n + copied] == out[outPos..outPos + copied];
      outPos := outPos + copied;
      assert Rest().0 == old(Rest()).0[copied..];
      if outPos == |out| {
        out, outPos := [], 0;
      }
    }

    /**
     The whole contract of Read: as much of the rest as fits, in order, filling p unless the
     stream ends; nothing but the rest decides the bytes and the error.
     */
    method Read(p: array<byte>) returns (n: nat, err: Error)
      requires Valid()
      modifies this, src, p
      ensures Valid()
      ensures n == if p.Length < |old(Rest()).0| then p.Length else |old(Rest()).0|
      ensures p[..n] == old(Rest()).0[..n]
      ensures Rest() == (old(Rest()).0[n..], old(Rest()).1)
      ensures err ==
        if n == p.Length || (n > 0 && old(Rest()).1 == Eof) then None else old(Rest()).1
    {
      if p.Length == 0 {
        return 0, None;
      }
      hide Rest;
      n := 0;
      while n < p.Length
        invariant n <= p.Length && Valid()
        invariant n <= |old(Rest()).0|
        invariant p[..n] == old(Rest()).0[..n]
        invariant Rest() == (old(Rest()).0[n..], old(Rest()).1)
        decreases p.Length - n, |out| == outPos
      {
        if outPos < |out| {
          ghost var all := old(Rest()).0;
          var copied := CopyOut(p, n);
          PrefixMore(all, n, copied);
          assert p[..n + copied] == p[..n] + p[n..n + copied];
          n := n + copied;
          continue;
        }
        if done {
          NothingToCome();
          if n > 0 { return n, None; }
          return 0, Eof;
        }
        err := Fill();
        if err != None {
          if err == Eof {
            done := true;
            NothingToCome();
            if n > 0 { return n, None; }
            return 0, Eof;
          }
          return n, err;
        }
      }
      return n, None;
    }
  }

  function Sum(sizes: seq<nat>): nat { if sizes == [] then 0 else Sum(sizes[..|sizes| - 1]) + sizes[|sizes| - 1] }

  function Min(a: nat, b: nat): nat { if a <= b then a else b }

  lemma SumNext(sizes: seq<nat>, i: nat)
    requires i < |sizes|
    ensures Sum(sizes[..i + 1]) == Sum(sizes[..i]) + sizes[i]
  {
    assert sizes[..i + 1][..i] == sizes[..i];
  }

  /** A further read takes the next bytes of what was left. */
  lemma TakeMore(all: seq<byte>, sum: nat, size: nat)
    ensures var taken, n := Min(sum, |all|), Min(size, |all[Min(sum, |all|)..]|);
      && taken + n == Min(sum + size, |all|)
      && all[..taken] + all[taken..][..n] == all[..taken + n]
      && all[taken..][n..] == all[taken + n..]
  {}

  /** One more read, after reads of `sum` bytes in all. */
  method ReadMore(d: Decoder, size: nat, ghost all: seq<byte>, ghost sum: nat) returns (piece: seq<byte>)
    requires d.Valid() && d.Rest().0 == all[Min(sum, |all|)..]
    modifies d, d.src
    ensures d.Valid() && d.Rest().0 == all[Min(sum + size, |all|)..]
    ensures all[..Min(sum, |all|)] + piece == all[..Min(sum + size, |all|)]
  {
    hide Decoder.Rest;
    TakeMore(all, sum, size);
    var p := new byte[size];
    var n, err := d.Read(p);
    piece := p[..n];
  }

  /** Reading with any buffer sizes, past errors too: only the total size counts. */
  method ReadAll(d: Decoder, sizes: seq<nat>) returns (data: seq<byte>)
    requires d.Valid()
    modifies d, d.src
    ensures data == old(d.Rest()).0[..Min(Sum(sizes), |old(d.Rest()).0|)]
  {
    assert Sum(sizes[..0]) == 0;
    hide Sum, Decoder.Rest;
    ghost var all := d.Rest().0;
    data := [];
    assert all[0..] == all;
    for i := 0 to |sizes|
      invariant d.Valid()
      invariant data == all[..Min(Sum(sizes[..i]), |all|)]
      invariant d.Rest().0 == all[Min(Sum(sizes[..i]), |all|)..]
    {
      SumNext(sizes, i);
      var piece := ReadMore(d, sizes[i], all, Sum(sizes[..i]));
      data := data + piece;
    }
    assert sizes[..|sizes|] == sizes;
  }
}
