/**
 Posting a yEnc article and decoding what was posted: the body writer of Post in
 internal/nntp/conns.go against the decoder of internal/nntp/yenc/decoder.go.
 */
module Posting {
  import opened Bytes
  import opened Wrappers
  import opened Yenc

  const CRLF: seq<byte> := [CR, LF]

  // ------------------------------------------------------------------ Post

  /** bytes.ReplaceAll(s, "\r\n", "\n"). */
  function Normalize(s: seq<byte>): seq<byte> {
    if |s| >= 2 && s[0] == CR && s[1] == LF then [LF] + Normalize(s[2..])
    else if s == [] then []
    else [s[0]] + Normalize(s[1..])
  }

  /** bytes.Split(s, "\n"). */
  function Split(s: seq<byte>): (lines: seq<seq<byte>>)
    ensures |lines| > 0
  {
    if s == [] then [[]]
    else if s[0] == LF then [[]] + Split(s[1..])
    else
      var rest := Split(s[1..]);
      [[s[0]] + rest[0]] + rest[1..]
  }

  /** Dot-stuffing as in section 3.1.1 of RFC 3977. */
  function Stuff(line: seq<byte>): seq<byte> {
    if line != [] && line[0] == DOT then [DOT] + line else line
  }

  function Wire(lines: seq<seq<byte>>): seq<byte> {
    if lines == [] then [] else Stuff(lines[0]) + CRLF + Wire(lines[1..])
  }

  /** The body part of Post with the terminator line. */
  method WriteBody(body: seq<byte>) returns (buf: seq<byte>)
    ensures buf == (if body == [] then [] else Wire(Split(Normalize(body)))) + [DOT] + CRLF
  {
    buf := [];
    if |body| > 0 {
      var lines := Split(Normalize(body));
      for i := 0 to |lines|
        invariant buf == Wire(lines[..i])
      {
        var line := lines[i];
        if |line| > 0 && line[0] == DOT {
          buf := buf + [DOT];
        }
        buf := buf + line;
        buf := buf + CRLF;
        WireNext(lines[..i], line, buf);
        assert lines[..i + 1] == lines[..i] + [line];
      }
      assert lines[..|lines|] == lines;
    }
    buf := buf + [DOT] + CRLF;
  }

  lemma {:induction false} WireAppend(a: seq<seq<byte>>, b: seq<seq<byte>>)
    ensures Wire(a + b) == Wire(a) + Wire(b)
  {
    if a == [] {
      assert a + b == b;
    } else {
      assert (a + b)[1..] == a[1..] + b;
      WireAppend(a[1..], b);
    }
  }

  lemma WireNext(lines: seq<seq<byte>>, line: seq<byte>, buf: seq<byte>)
    requires buf == (if line != [] && line[0] == DOT then Wire(lines) + [DOT] else Wire(lines)) + line + CRLF
    ensures buf == Wire(lines + [line])
  {
    hide Wire;
    WireAppend(lines, [line]);
    WireOne(line);
    if line != [] && line[0] == DOT {
      Regroup4(Wire(lines), [DOT], line, CRLF);
    } else {
      Regroup4(Wire(lines), [], line, CRLF);
      assert Wire(lines) + [] == Wire(lines) && [] + line == line;
    }
  }

  lemma WireOne(line: seq<byte>)
    ensures Wire([line]) == Stuff(line) + CRLF
  {
    assert Wire([line][1..]) == [];
  }

  lemma Regroup4(a: seq<byte>, b: seq<byte>, c: seq<byte>, d: seq<byte>)
    ensures a + b + c + d == a + ((b + c) + d)
  {}

  // --------------------------------------------------------------- encoding

  /** One source byte and whether the encoder escapes it. */
  datatype Symbol = Symbol(value: byte, escape: bool)

  /** NUL, LF, CR and = must be escaped. */
  predicate Critical(e: byte) { e == 0 || e == LF || e == CR || e == ESC }

  /** Encoders may also escape TAB, SPACE and the dot, anywhere or only where they like. */
  predicate Legal(s: Symbol) {
    var e := s.value + 42;
    (Critical(e) ==> s.escape) && (s.escape ==> Critical(e) || e == 9 || e == 32 || e == DOT)
  }

  function Encode(line: seq<Symbol>): seq<byte> {
    if line == [] then []
    else (if line[0].escape then [ESC, line[0].value + 42 + 64] else [line[0].value + 42]) + Encode(line[1..])
  }

  function Values(line: seq<Symbol>): seq<byte> { if line == [] then [] else [line[0].value] + Values(line[1..]) }

  /** The source bytes of an article given as lines of any length. */
  function Data(lines: seq<seq<Symbol>>): seq<byte> { if lines == [] then [] else Values(lines[0]) + Data(lines[1..]) }

  /** The =ypart line of a file that is one part of several. */
  function PartLine(part: Option<seq<byte>>): seq<seq<byte>> {
    if part.Some? then [YPART + part.value] else []
  }

  function Codes(lines: seq<seq<Symbol>>): seq<seq<byte>> {
    seq(|lines|, i requires 0 <= i < |lines| => Encode(lines[i]))
  }

  /** The lines of the encoded file; `head`, `part` and `tail` are the rest of the control lines. */
  function BodyLines(head: seq<byte>, part: Option<seq<byte>>, lines: seq<seq<Symbol>>, tail: seq<byte>): seq<seq<byte>> {
    [YBEGIN + head] + (PartLine(part) + (Codes(lines) + [YEND + tail]))
  }

  function Join(lines: seq<seq<byte>>): seq<byte> { if lines == [] then [] else lines[0] + CRLF + Join(lines[1..]) }

  ghost predicate OneLine(s: seq<byte>) { CR !in s && LF !in s }

  ghost predicate AllLegal(lines: seq<seq<Symbol>>) {
    forall i, k :: 0 <= i < |lines| && 0 <= k < |lines[i]| ==> Legal(lines[i][k])
  }

  // ----------------------------------------------------- Post keeps the lines

  /** No CR stands right before a LF. */
  ghost predicate NoPair(s: seq<byte>) { forall i :: 0 <= i < |s| - 1 && s[i] == 13 ==> s[i + 1] != 10 }

  /** Only CR LF pairs are normalized: a lone CR or LF stays. */
  lemma {:induction false} NormalizeNothing(s: seq<byte>)
    requires NoPair(s)
    ensures Normalize(s) == s
  {
    if s != [] {
      forall i | 0 <= i < |s| - 2 && s[1..][i] == 13 ensures s[1..][i + 1] != 10 { assert s[i + 1] == 13; }
      NormalizeNothing(s[1..]);
    }
  }

  /** Up to the first pair everything stays, and the pair becomes one LF. */
  lemma {:induction false} NormalizeLine(line: seq<byte>, rest: seq<byte>)
    requires NoPair(line)
    ensures Normalize(line + CRLF + rest) == line + [LF] + Normalize(rest)
    decreases |line|
  {
    var s := line + CRLF + rest;
    if line == [] {
      assert s == CRLF + rest && s[2..] == rest;
      assert line + [LF] == [LF];
    } else {
      assert s[0] == line[0] && s[1..] == line[1..] + CRLF + rest;
      forall i | 0 <= i < |line| - 2 && line[1..][i] == 13 ensures line[1..][i + 1] != 10 { assert line[i + 1] == 13; }
      assert s[1] == if |line| > 1 then line[1] else CR;
      NormalizeLine(line[1..], rest);
      assert [line[0]] + (line[1..] + [LF] + Normalize(rest)) == line + [LF] + Normalize(rest);
    }
  }

  /** Text without a LF is one line. */
  lemma {:induction false} SplitNothing(line: seq<byte>)
    requires 10 !in line
    ensures Split(line) == [line]
  {
    if line != [] {
      SplitNothing(line[1..]);
      assert [line[0]] + line[1..] == line;
    }
  }

  lemma {:induction false} SplitLine(line: seq<byte>, rest: seq<byte>)
    requires 10 !in line
    ensures Split(line + [LF] + rest) == [line] + Split(rest)
    decreases |line|
  {
    var s := line + [LF] + rest;
    if line == [] {
      assert s == [LF] + rest && s[1..] == rest;
    } else {
      assert s[0] == line[0] && s[1..] == line[1..] + [LF] + rest;
      SplitLine(line[1..], rest);
      assert [line[0]] + line[1..] == line;
    }
  }

  /** Lines joined with CRLF reach the wire as the same lines, with an empty one at the end. */
  lemma {:induction false} SplitJoined(lines: seq<seq<byte>>)
    requires forall i :: 0 <= i < |lines| ==> OneLine(lines[i])
    ensures Split(Normalize(Join(lines))) == lines + [[]]
  {
    if lines == [] {
    } else {
      NormalizeLine(lines[0], Join(lines[1..]));
      SplitLine(lines[0], Normalize(Join(lines[1..])));
      SplitJoined(lines[1..]);
    }
  }

  // ------------------------------------------------------- one line comes back

  /** No encoded byte is a line break, and the byte after an escape is never y. */
  lemma SymbolBytes(s: Symbol)
    requires Legal(s)
    ensures s.escape ==> s.value + 42 + 64 != CR && s.value + 42 + 64 != LF && s.value + 42 + 64 != 121
    ensures !s.escape ==> s.value + 42 != CR && s.value + 42 != LF && s.value + 42 != ESC
    ensures s.value + 42 + 64 - 64 - 42 == s.value && s.value + 42 - 42 == s.value
  {
    var e := s.value + 42;
    assert e == 0 || e == 10 || e == 13 || e == 61 || e == 9 || e == 32 || e == 46 || !s.escape;
  }

  lemma {:induction false} EncodedIsOneLine(line: seq<Symbol>)
    requires forall k :: 0 <= k < |line| ==> Legal(line[k])
    ensures OneLine(Encode(line))
  {
    if line != [] {
      SymbolBytes(line[0]);
      EncodedIsOneLine(line[1..]);
    }
  }

  lemma EncodedIsNoControl(line: seq<Symbol>)
    requires forall k :: 0 <= k < |line| ==> Legal(line[k])
    ensures |Encode(line)| >= 2 && Encode(line)[0] == ESC ==> Encode(line)[1] != 121
  {
    if line != [] { SymbolBytes(line[0]); }
  }

  /** The escapes of a line come off again. */
  lemma {:induction false} UnescapeEncoded(line: seq<Symbol>)
    requires forall k :: 0 <= k < |line| ==> Legal(line[k])
    ensures Unescape(Encode(line)) == Values(line)
  {
    if line != [] {
      UnescapeEncoded(line[1..]);
      UnescapeSymbol(line[0], Encode(line[1..]));
    }
  }

  lemma UnescapePlain(b: byte, rest: seq<byte>)
    requires b != ESC
    ensures Unescape([b] + rest) == [b - 42] + Unescape(rest)
  {
    assert ([b] + rest)[1..] == rest;
  }

  lemma UnescapeEscaped(b: byte, rest: seq<byte>)
    ensures Unescape([ESC, b] + rest) == [b - 64 - 42] + Unescape(rest)
  {
    assert ([ESC, b] + rest)[2..] == rest;
  }

  lemma UnescapeSymbol(s: Symbol, rest: seq<byte>)
    requires Legal(s)
    ensures Unescape((if s.escape then [ESC, s.value + 42 + 64] else [s.value + 42]) + rest) == [s.value] + Unescape(rest)
  {
    hide Unescape;
    SymbolBytes(s);
    if s.escape {
      UnescapeEscaped(s.value + 42 + 64, rest);
    } else {
      UnescapePlain(s.value + 42, rest);
    }
  }

  lemma TrimOne(s: seq<byte>, c: byte)
    requires c == CR || c == LF
    ensures TrimRight(s + [c]) == TrimRight(s)
  {
    assert (s + [c])[..|s|] == s;
  }

  lemma TrimStuffed(line: seq<byte>)
    requires OneLine(line)
    ensures TrimRight(Stuff(line) + CRLF) == Stuff(line)
    ensures line != [] ==> Stuff(line) != [DOT]
    ensures Unstuff(Stuff(line)) == line
  {
    var s := Stuff(line);
    assert s + CRLF == (s + [CR]) + [LF];
    TrimOne(s + [CR], LF);
    TrimOne(s, CR);
    assert s != [] ==> s[|s| - 1] == line[|line| - 1] && line[|line| - 1] in line;
  }

  /** What the decoder makes of a posted line: exactly what the line was before stuffing. */
  lemma StuffedMeaning(sawBegin: bool, line: seq<byte>)
    requires OneLine(line)
    ensures Meaning(sawBegin, Stuff(line) + CRLF) ==
      if line == [] then Skip
      else if YBEGIN <= line then Begin
      else if YPART <= line then Skip
      else if YEND <= line then Stop
      else if sawBegin then Payload(Unescape(line))
      else Skip
  {
    TrimStuffed(line);
  }

  /** A data line is never taken for the terminator or for a control line. */
  lemma DataLineMeaning(line: seq<Symbol>)
    requires forall k :: 0 <= k < |line| ==> Legal(line[k])
    ensures Meaning(true, Stuff(Encode(line)) + CRLF) == if line == [] then Skip else Payload(Values(line))
  {
    var code := Encode(line);
    EncodedIsOneLine(line);
    EncodedIsNoControl(line);
    UnescapeEncoded(line);
    ControlPrefix(code);
    StuffedMeaning(true, code);
  }

  lemma ControlPrefix(code: seq<byte>)
    ensures YBEGIN <= code || YPART <= code || YEND <= code ==> |code| >= 2 && code[0] == ESC && code[1] == 121
  {
  }

  lemma ControlLineMeaning(text: seq<byte>)
    requires OneLine(text)
    ensures OneLine(YBEGIN + text) && Meaning(false, Stuff(YBEGIN + text) + CRLF) == Begin
    ensures OneLine(YPART + text) && Meaning(true, Stuff(YPART + text) + CRLF) == Skip
    ensures OneLine(YEND + text) && Meaning(true, Stuff(YEND + text) + CRLF) == Stop
  {
    StuffedMeaning(false, YBEGIN + text);
    StuffedMeaning(true, YPART + text);
    StuffedMeaning(true, YEND + text);
    assert (YEND + text)[2] == 101 && (YPART + text)[2] == 112 && YBEGIN[2] == 98 && YPART[2] == 112;
  }

  lemma {:induction false} LineEndAt(line: seq<byte>, rest: seq<byte>)
    requires LF !in line
    ensures LineEnd(line + [LF] + rest) == |line| + 1
  {
    var s := line + [LF] + rest;
    if line != [] {
      assert s[1..] == line[1..] + [LF] + rest;
      LineEndAt(line[1..], rest);
    }
  }

  /** A lone dot on a line of its own ends the article, whatever comes after it. */
  lemma TerminatorEnds(sawBegin: bool, line: seq<byte>, rest: seq<byte>, fails: bool)
    requires LF !in line && TrimRight(line + [LF]) == [46]
    ensures DecodeAll(sawBegin, line + [LF] + rest, fails) == ([], Eof)
  {
    var s := line + [LF] + rest;
    LineEndAt(line, rest);
    assert s[|line|] == LF && s[..|line| + 1] == line + [LF];
    hide DecodeAll;
    DecodeLine(sawBegin, s, fails);
  }

  /** The decoder takes one posted line off the wire. */
  lemma DecodeStuffed(sawBegin: bool, line: seq<byte>, rest: seq<byte>, fails: bool)
    requires OneLine(line)
    ensures var effect := Meaning(sawBegin, Stuff(line) + CRLF);
      var (data, end) := DecodeAll(sawBegin || effect.Begin?, rest, fails);
      DecodeAll(sawBegin, Stuff(line) + CRLF + rest, fails) ==
        if effect.Stop? then ([], Eof) else if effect.Payload? then (effect.data + data, end) else (data, end)
  {
    hide Meaning, DecodeAll;
    var raw := Stuff(line) + CRLF;
    var s := raw + rest;
    assert s == (Stuff(line) + [CR]) + [LF] + rest;
    LineEndAt(Stuff(line) + [CR], rest);
    assert s[|raw| - 1] == LF;
    assert s[..|raw|] == raw && s[|raw|..] == rest;
    DecodeLine(sawBegin, s, fails);
  }

  lemma {:induction false} DecodeDataLines(lines: seq<seq<Symbol>>, codes: seq<seq<byte>>, tail: seq<byte>, rest: seq<byte>, fails: bool)
    requires AllLegal(lines) && OneLine(tail)
    requires |codes| == |lines| && forall i :: 0 <= i < |lines| ==> codes[i] == Encode(lines[i])
    ensures DecodeAll(true, Wire(codes + [YEND + tail]) + rest, fails) == (Data(lines), Eof)
    decreases |lines|
  {
    hide DecodeAll, Meaning, Encode, Values;
    if lines == [] {
      var last := YEND + tail;
      assert codes + [last] == [last];
      assert Wire([last]) + rest == Stuff(last) + CRLF + rest;
      ControlLineMeaning(tail);
      DecodeStuffed(true, last, rest, fails);
    } else {
      var all := codes + [YEND + tail];
      assert all[0] == codes[0] && all[1..] == codes[1..] + [YEND + tail];
      EncodedIsOneLine(lines[0]);
      DataLineMeaning(lines[0]);
      NothingFirst(Data(lines[1..]));
      var after := Wire(all[1..]) + rest;
      assert Wire(all) + rest == Stuff(codes[0]) + CRLF + after;
      DecodeStuffed(true, codes[0], after, fails);
      DecodeDataLines(lines[1..], codes[1..], tail, rest, fails);
      EmptyLineValues(lines[0]);
    }
  }

  lemma EmptyLineValues(line: seq<Symbol>)
    ensures line == [] ==> Values(line) == []
  {
  }

  /** The decoder passes over a =ypart line. */
  lemma DecodePartLine(part: Option<seq<byte>>, others: seq<seq<byte>>, rest: seq<byte>, fails: bool)
    requires part.Some? ==> OneLine(part.value)
    ensures DecodeAll(true, Wire(PartLine(part) + others) + rest, fails) == DecodeAll(true, Wire(others) + rest, fails)
  {
    hide DecodeAll, Meaning;
    if part.Some? {
      var line := YPART + part.value;
      var all := [line] + others;
      assert all[0] == line && all[1..] == others;
      assert Wire(all) + rest == Stuff(line) + CRLF + (Wire(others) + rest);
      ControlLineMeaning(part.value);
      DecodeStuffed(true, line, Wire(others) + rest, fails);
    } else {
      assert PartLine(part) + others == others;
    }
  }

  lemma CodesAreLines(lines: seq<seq<Symbol>>)
    requires AllLegal(lines)
    ensures forall l :: l in Codes(lines) ==> OneLine(l)
  {
    forall i | 0 <= i < |lines| ensures OneLine(Codes(lines)[i]) {
      EncodedIsOneLine(lines[i]);
    }
  }

  lemma BodyIsLines(head: seq<byte>, part: Option<seq<byte>>, lines: seq<seq<Symbol>>, tail: seq<byte>)
    requires AllLegal(lines) && OneLine(head) && OneLine(tail) && (part.Some? ==> OneLine(part.value))
    ensures forall l :: l in BodyLines(head, part, lines, tail) ==> OneLine(l)
  {
    CodesAreLines(lines);
    ControlLineMeaning(head);
    ControlLineMeaning(tail);
    if part.Some? { ControlLineMeaning(part.value); }
    hide OneLine, Codes, Meaning;
    assert forall l :: l in PartLine(part) ==> OneLine(l);
    assert forall l :: l in Codes(lines) + [YEND + tail] ==> OneLine(l);
  }

  /**
   Round trip: for every sequence of bytes, every division into lines, every legal choice
   of escapes, with or without a part line, and any further bytes on the connection,
   posting and decoding gives the bytes back, and the decoder stops inside the article.
   */
  lemma PostedRoundTrip(head: seq<byte>, part: Option<seq<byte>>, lines: seq<seq<Symbol>>, tail: seq<byte>,
                        rest: seq<byte>, fails: bool)
    requires AllLegal(lines) && OneLine(head) && OneLine(tail) && (part.Some? ==> OneLine(part.value))
    ensures var body := Join(BodyLines(head, part, lines, tail));
      body != [] && DecodeAll(false, Wire(Split(Normalize(body))) + [DOT] + CRLF + rest, fails) == (Data(lines), Eof)
  {
    hide DecodeAll, Meaning, Encode, PartLine;
    var all := BodyLines(head, part, lines, tail);
    var first, data := YBEGIN + head, Codes(lines) + [YEND + tail];
    var others := PartLine(part) + data;
    BodyIsLines(head, part, lines, tail);
    SplitJoined(all);
    assert all == [first] + others;
    var posted := all + [[]];
    assert posted[1..] == others + [[]];
    WireAppend(others, [[]]);
    var after := Wire([[]]) + [DOT] + CRLF + rest;
    assert Wire(posted) + [DOT] + CRLF + rest == Stuff(first) + CRLF + (Wire(others) + after);
    ControlLineMeaning(head);
    DecodeStuffed(false, first, Wire(others) + after, fails);
    DecodePartLine(part, data, after, fails);
    DecodeDataLines(lines, Codes(lines), tail, after, fails);
  }

  // --------------------------------------- every byte sequence has such lines

  /** The choice of the encoder: TAB, SPACE and the dot are always escaped. */
  function Escaped(b: byte): Symbol { Symbol(b, Critical(b + 42) || b + 42 == 9 || b + 42 == 32 || b + 42 == DOT) }

  /** It escapes NUL, TAB, LF, CR, SPACE, the dot and the equals sign, and nothing else. */
  lemma EscapedIff(b: byte)
    ensures Escaped(b).value == b
    ensures Escaped(b).escape <==> (b + 42) as int in {0, 9, 10, 13, 32, 46, 61}
  {}

  function Columns(s: Symbol): nat { if s.escape then 2 else 1 }

  /** The lines an encoder cuts after `width` columns, given the line begun and its columns. */
  function Lines(bytes: seq<byte>, width: nat, line: seq<Symbol>, col: nat): seq<seq<Symbol>> {
    if bytes == [] then (if col > 0 then [line] else [])
    else
      var s := Escaped(bytes[0]);
      if col + Columns(s) >= width then [line + [s]] + Lines(bytes[1..], width, [], 0)
      else Lines(bytes[1..], width, line + [s], col + Columns(s))
  }

  lemma {:induction false} EncodeAppend(line: seq<Symbol>, s: Symbol)
    ensures |Encode(line + [s])| == |Encode(line)| + Columns(s)
    ensures Values(line + [s]) == Values(line) + [s.value]
  {
    if line == [] {
      assert line + [s] == [s];
    } else {
      assert (line + [s])[1..] == line[1..] + [s];
      EncodeAppend(line[1..], s);
    }
  }

  ghost predicate LegalLine(line: seq<Symbol>) { forall k :: 0 <= k < |line| ==> Legal(line[k]) }

  lemma LegalMore(line: seq<Symbol>, b: byte)
    requires LegalLine(line)
    ensures LegalLine(line + [Escaped(b)])
  {}

  lemma LegalFirst(line: seq<Symbol>, lines: seq<seq<Symbol>>)
    requires LegalLine(line) && AllLegal(lines)
    ensures AllLegal([line] + lines)
  {}

  lemma {:induction false} LinesAreLegal(bytes: seq<byte>, width: nat, line: seq<Symbol>, col: nat)
    requires LegalLine(line)
    ensures AllLegal(Lines(bytes, width, line, col))
    decreases |bytes|
  {
    if bytes != [] {
      hide LegalLine, AllLegal;
      var s := Escaped(bytes[0]);
      LegalMore(line, bytes[0]);
      if col + Columns(s) >= width {
        assert LegalLine([]) by { LegalNone(); }
        LinesAreLegal(bytes[1..], width, [], 0);
        LegalFirst(line + [s], Lines(bytes[1..], width, [], 0));
      } else {
        LinesAreLegal(bytes[1..], width, line + [s], col + Columns(s));
      }
    }
  }

  lemma LegalNone()
    ensures LegalLine([])
  {}

  lemma {:induction false} LinesHoldBytes(bytes: seq<byte>, width: nat, line: seq<Symbol>, col: nat)
    requires width > 0 && (col == 0 ==> line == [])
    ensures Data(Lines(bytes, width, line, col)) == Values(line) + bytes
    decreases |bytes|
  {
    if bytes == [] {
      OneLineData(line, []);
      assert Values(line) + [] == Values(line) && (line == [] ==> Values(line) == []);
    } else {
      var s := Escaped(bytes[0]);
      EncodeAppend(line, s);
      assert Values(line) + bytes == (Values(line) + [s.value]) + bytes[1..];
      if col + Columns(s) >= width {
        LinesHoldBytes(bytes[1..], width, [], 0);
        NothingFirst(bytes[1..]);
        OneLineData(line + [s], Lines(bytes[1..], width, [], 0));
      } else {
        LinesHoldBytes(bytes[1..], width, line + [s], col + Columns(s));
      }
    }
  }

  lemma OneLineData(line: seq<Symbol>, lines: seq<seq<Symbol>>)
    ensures Data([line] + lines) == Values(line) + Data(lines)
  {
    assert ([line] + lines)[1..] == lines;
  }

  /** No line is empty, and none is more than one column longer than asked for. */
  lemma {:induction false} LinesFit(bytes: seq<byte>, width: nat, line: seq<Symbol>, col: nat)
    requires col < width && col == |Encode(line)|
    ensures forall l :: l in Lines(bytes, width, line, col) ==> 0 < |Encode(l)| <= width + 1
    decreases |bytes|
  {
    if bytes != [] {
      var s := Escaped(bytes[0]);
      EncodeAppend(line, s);
      if col + Columns(s) >= width {
        LinesFit(bytes[1..], width, [], 0);
      } else {
        LinesFit(bytes[1..], width, line + [s], col + Columns(s));
      }
    }
  }

  /** Every byte sequence survives, at every line width. */
  lemma EncoderRoundTrip(bytes: seq<byte>, width: nat, head: seq<byte>, part: Option<seq<byte>>, tail: seq<byte>,
                         rest: seq<byte>, fails: bool)
    requires width > 0 && OneLine(head) && OneLine(tail) && (part.Some? ==> OneLine(part.value))
    ensures var body := Join(BodyLines(head, part, Lines(bytes, width, [], 0), tail));
      body != [] && DecodeAll(false, Wire(Split(Normalize(body))) + [DOT] + CRLF + rest, fails) == (bytes, Eof)
  {
    LinesAreLegal(bytes, width, [], 0);
    LinesHoldBytes(bytes, width, [], 0);
    hide DecodeAll, Join, BodyLines, Wire, Split, Normalize, Lines, AllLegal;
    NothingFirst(bytes);
    PostedRoundTrip(head, part, Lines(bytes, width, [], 0), tail, rest, fails);
  }
}
