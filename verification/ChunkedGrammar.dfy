/** Chunked bodies as section 7.1 of RFC 9112 defines them, and how the decoder departs from them. */
module ChunkedGrammar {
  import opened Outcomes
  import opened Numbers
  import opened ChunkedBodies

  // ---------- The grammar of the standard ----------

  predicate Blanks(s: seq<Byte>) {
    forall i | 0 <= i < |s| :: s[i] == 0x20 || s[i] == 0x09
  }

  predicate TokenByte(b: Byte) {
    || b == 0x21 || 0x23 <= b <= 0x27 || b == 0x2A || b == 0x2B || b == 0x2D || b == 0x2E || 0x30 <= b <= 0x39
    || 0x41 <= b <= 0x5A || 0x5E <= b <= 0x7A || b == 0x7C || b == 0x7E
  }

  predicate Token(s: seq<Byte>) {
    s != [] && forall i | 0 <= i < |s| :: TokenByte(s[i])
  }

  /** Tabs, blanks, visible characters and bytes beyond ASCII. */
  predicate FieldByte(b: Byte) {
    b == 0x09 || 0x20 <= b <= 0x7E || 0x80 <= b
  }

  predicate QuotedRest(s: seq<Byte>) {
    if s == [] then false
    else if s[0] == 0x22 then |s| == 1
    else if s[0] == 0x5C then |s| >= 2 && FieldByte(s[1]) && QuotedRest(s[2..])
    else FieldByte(s[0]) && QuotedRest(s[1..])
  }

  predicate QuotedString(s: seq<Byte>) {
    s != [] && s[0] == 0x22 && QuotedRest(s[1..])
  }

  datatype Value = Value(before: seq<Byte>, after: seq<Byte>, text: seq<Byte>) {
    predicate Valid() {
      Blanks(before) && Blanks(after) && (Token(text) || QuotedString(text))
    }

    function Written(): seq<Byte> {
      before + [0x3D] + after + text
    }
  }

  datatype Extension = Extension(before: seq<Byte>, after: seq<Byte>, name: seq<Byte>, value: Option<Value>) {
    predicate Valid() {
      Blanks(before) && Blanks(after) && Token(name) && (value.Some? ==> value.value.Valid())
    }

    function Written(): seq<Byte> {
      before + [0x3B] + after + name + if value.Some? then value.value.Written() else []
    }
  }

  function WrittenAll(extensions: seq<Extension>): seq<Byte> {
    if extensions == [] then [] else extensions[0].Written() + WrittenAll(extensions[1..])
  }

  /** A chunk size with its extensions. */
  datatype SizeLine = SizeLine(digits: seq<Byte>, extensions: seq<Extension>) {
    predicate Valid() {
      digits != [] && AllHex(digits) && forall i | 0 <= i < |extensions| :: extensions[i].Valid()
    }

    function Written(): seq<Byte> {
      digits + WrittenAll(extensions)
    }
  }

  datatype Part = Part(line: SizeLine, data: seq<Byte>) {
    predicate Valid() {
      line.Valid() && data != [] && HexValue(line.digits) == |data|
    }

    function Written(): seq<Byte> {
      line.Written() + CRLF + data + CRLF
    }
  }

  predicate FieldLine(s: seq<Byte>) {
    exists k | 0 <= k < |s| :: Token(s[..k]) && s[k] == 0x3A && forall i | k < i < |s| :: FieldByte(s[i])
  }

  function WrittenFields(fields: seq<seq<Byte>>): seq<Byte> {
    if fields == [] then [] else fields[0] + CRLF + WrittenFields(fields[1..])
  }

  datatype Body = Body(parts: seq<Part>, last: SizeLine, trailers: seq<seq<Byte>>) {
    predicate Valid() {
      && (forall i | 0 <= i < |parts| :: parts[i].Valid())
      && last.Valid() && (forall i | 0 <= i < |last.digits| :: last.digits[i] == 0x30)
      && (forall i | 0 <= i < |trailers| :: FieldLine(trailers[i]))
    }

    function Written(): seq<Byte>
      decreases |parts|
    {
      if parts == [] then last.Written() + CRLF + (WrittenFields(trailers) + CRLF)
      else parts[0].Written() + this.(parts := parts[1..]).Written()
    }

    function Data(): seq<Byte>
      decreases |parts|
    {
      if parts == [] then [] else parts[0].data + this.(parts := parts[1..]).Data()
    }

    /** What the decoder asks beyond the grammar: short size lines of UTF-8, and no trailer fields. */
    predicate Plain() {
      && (forall i | 0 <= i < |parts| :: PlainLine(parts[i].line))
      && PlainLine(last) && trailers == []
    }
  }

  predicate PlainLine(line: SizeLine) {
    |line.Written()| <= 32 && Utf8(line.Written()).Some?
  }

  // ---------- Size lines of the standard ----------

  predicate OnLine(s: seq<Byte>) {
    forall i | 0 <= i < |s| :: FieldByte(s[i])
  }

  lemma {:induction false} QuotedOnLine(s: seq<Byte>)
    requires QuotedRest(s)
    ensures OnLine(s)
    decreases |s|
  {
    if s[0] == 0x22 {
    } else if s[0] == 0x5C {
      QuotedOnLine(s[2..]);
      assert s == [s[0], s[1]] + s[2..];
    } else {
      QuotedOnLine(s[1..]);
      assert s == [s[0]] + s[1..];
    }
  }

  lemma ValueOnLine(v: Value)
    requires v.Valid()
    ensures OnLine(v.Written())
  {
    if QuotedString(v.text) {
      QuotedOnLine(v.text[1..]);
      assert v.text == [v.text[0]] + v.text[1..];
    }
    assert OnLine(v.text) && OnLine(v.before) && OnLine(v.after);
  }

  lemma ExtensionOnLine(e: Extension)
    requires e.Valid()
    ensures OnLine(e.Written())
  {
    hide QuotedRest;
    if e.value.Some? { ValueOnLine(e.value.value); }
    assert OnLine(e.name) && OnLine(e.before) && OnLine(e.after);
  }

  lemma {:induction false} ExtensionsOnLine(extensions: seq<Extension>)
    requires forall i | 0 <= i < |extensions| :: extensions[i].Valid()
    ensures OnLine(WrittenAll(extensions))
  {
    hide FieldByte;
    if extensions != [] {
      ExtensionOnLine(extensions[0]);
      ExtensionsOnLine(extensions[1..]);
    }
  }

  /** A size line is not empty and holds neither carriage return nor line feed. */
  lemma LineOnLine(line: SizeLine)
    requires line.Valid()
    ensures line.Written() != [] && OnLine(line.Written())
  {
    ExtensionsOnLine(line.extensions);
    forall i | 0 <= i < |line.digits| ensures FieldByte(line.digits[i]) { assert HexDigit(line.digits[i]); }
  }

  predicate Ascii(s: seq<Byte>) {
    forall i | 0 <= i < |s| :: s[i] < 0x80
  }

  lemma {:induction false} Utf8AfterAscii(a: seq<Byte>, b: seq<Byte>)
    requires Ascii(a)
    ensures Utf8(a + b) == if Utf8(b).None? then None else Some(a + Utf8(b).value)
  {
    if a == [] {
      assert a + b == b;
      if Utf8(b).Some? { assert a + Utf8(b).value == Utf8(b).value; }
    } else {
      assert (a + b)[1..] == a[1..] + b;
      Utf8AfterAscii(a[1..], b);
      if Utf8(b).Some? { assert [a[0]] + (a[1..] + Utf8(b).value) == a + Utf8(b).value; }
    }
  }

  /** What follows the digits is nothing, or blanks, a semicolon and the rest. */
  lemma AfterDigits(extensions: seq<Extension>) returns (blanks: seq<Byte>, more: seq<Byte>)
    requires forall i | 0 <= i < |extensions| :: extensions[i].Valid()
    ensures Blanks(blanks)
    ensures if extensions == [] then blanks == [] && more == [] && WrittenAll(extensions) == []
            else WrittenAll(extensions) == blanks + ([0x3B] + more)
  {
    hide QuotedRest, Token, Value.Valid, Value.Written;
    if extensions == [] {
      blanks, more := [], [];
    } else {
      var e := extensions[0];
      assert e.Valid();
      blanks := e.before;
      var rest := e.after + e.name + if e.value.Some? then e.value.value.Written() else [];
      assert e.Written() == blanks + [0x3B] + rest;
      var others := WrittenAll(extensions[1..]);
      more := rest + others;
      assert blanks + [0x3B] + rest + others == blanks + ([0x3B] + more);
    }
  }

  lemma Text(line: SizeLine) returns (t: SizeText)
    requires line.Valid() && Utf8(line.Written()).Some?
    ensures Utf8(line.Written()) == Some(t.Written())
    ensures t.Shaped() && t.before == [] && !t.plus && t.digits == line.digits
  {
    hide Utf8, QuotedRest;
    var blanks, more := AfterDigits(line.extensions);
    assert Ascii(line.digits) by {
      forall i | 0 <= i < |line.digits| ensures line.digits[i] < 0x80 { assert HexDigit(line.digits[i]); }
    }
    Utf8AfterAscii(line.digits, WrittenAll(line.extensions));
    if line.extensions == [] {
      t := SizeText([], false, line.digits, [], []);
      Utf8OfNothing();
      assert t.Written() == line.digits + [];
    } else {
      Utf8AfterAscii(blanks, [0x3B] + more);
      Utf8AfterAscii([0x3B], more);
      t := SizeText([], false, line.digits, blanks, [0x3B] + Utf8(more).value);
      assert t.Written() == line.digits + (blanks + ([0x3B] + Utf8(more).value));
    }
  }

  lemma Utf8OfNothing()
    ensures Utf8([]) == Some([])
  {
  }

  /** The decoder reads the size of a line of the standard, provided that the line is UTF-8 and the size fits. */
  lemma StandardLineParsed(line: SizeLine)
    requires line.Valid()
    ensures ParseSize(line.Written()) ==
            if Utf8(line.Written()).Some? && HexValue(line.digits) <= USIZE_MAX then Some(HexValue(line.digits)) else None
  {
    hide Utf8, HexValue, QuotedRest;
    if Utf8(line.Written()).Some? {
      var t := Text(line);
      SizedIsParsed(line.Written(), t);
    }
  }

  // ---------- Bodies of the standard ----------

  lemma OneLine(line: seq<Byte>, rest: seq<Byte>)
    requires OnLine(line)
    ensures FindCrlf(line + CRLF + rest) == Some(|line|)
  {
    hide FindCrlf;
    forall i | 0 <= i < |line| - 1 ensures !(line[i] == CR && line[i + 1] == LF) { assert FieldByte(line[i]); }
    FindsLine(line, rest);
  }

  /** One turn of the decoder's loop on any first line. */
  lemma DecodeLine(line: seq<Byte>, rest: seq<Byte>)
    requires OnLine(line) && line != []
    ensures var size := ParseSize(line);
            FirstTurn(line + CRLF + rest) ==
            if |line| > 32 || size.None? then Refused
            else if size.value == 0 then (if rest == CRLF then Finished else Refused)
            else if size.value + 2 > |rest| || rest[size.value..size.value + 2] != CRLF then Refused
            else Decoded(rest[..size.value], rest[size.value + 2..])
  {
    hide ParseSize, FindCrlf;
    OneLine(line, rest);
    var encoded := line + CRLF + rest;
    assert encoded[..|line|] == line && encoded[|line| + 2..] == rest;
  }

  lemma DecodePart(part: Part, rest: seq<Byte>, decoded: seq<Byte>, maximum: nat)
    requires part.Valid() && maximum <= USIZE_MAX
    ensures DecodeChunks(part.Written() + rest, decoded, maximum) ==
            if !PlainLine(part.line) || |decoded| + |part.data| > maximum then None
            else DecodeChunks(rest, decoded + part.data, maximum)
  {
    hide ParseSize, FindCrlf, FirstTurn, Utf8, QuotedRest, HexValue;
    var line, tail := part.line.Written(), part.data + CRLF + rest;
    assert part.Written() + rest == line + CRLF + tail;
    LineOnLine(part.line);
    StandardLineParsed(part.line);
    DecodeLine(line, tail);
    var n := |part.data|;
    assert tail[n..n + 2] == CRLF && tail[..n] == part.data && tail[n + 2..] == rest;
  }

  lemma {:induction false} ZeroesAreZero(digits: seq<Byte>)
    requires AllHex(digits) && digits != []
    ensures HexValue(digits) == 0 <==> forall i | 0 <= i < |digits| :: digits[i] == 0x30
  {
    var n := |digits| - 1;
    assert HexDigit(digits[n]);
    if n > 0 { ZeroesAreZero(digits[..n]); } else { assert digits[..0] == []; }
    assert forall i | 0 <= i < n :: digits[..n][i] == digits[i];
  }

  lemma NoTrailers(trailers: seq<seq<Byte>>)
    requires forall i | 0 <= i < |trailers| :: FieldLine(trailers[i])
    ensures WrittenFields(trailers) + CRLF == CRLF <==> trailers == []
  {
    if trailers == [] {
      assert WrittenFields(trailers) + CRLF == CRLF;
    } else {
      var field := trailers[0];
      assert FieldLine(field);
      assert |WrittenFields(trailers) + CRLF| >= |field| + 4;
    }
  }

  lemma DecodeEnd(body: Body, decoded: seq<Byte>, maximum: nat)
    requires body.Valid() && body.parts == []
    ensures DecodeChunks(body.Written(), decoded, maximum) == if body.Plain() then Some(decoded) else None
  {
    hide ParseSize, FindCrlf, FirstTurn, Utf8, QuotedRest, HexValue, WrittenFields, FieldLine;
    LineOnLine(body.last);
    StandardLineParsed(body.last);
    ZeroesAreZero(body.last.digits);
    NoTrailers(body.trailers);
    DecodeLine(body.last.Written(), WrittenFields(body.trailers) + CRLF);
  }

  /** Of the bodies of the standard, exactly those are accepted that are within the limit, have only size lines of at most
      32 bytes of UTF-8, and no trailer fields; and they decode to their data. */
  lemma {:induction false} StandardBodyDecodes(body: Body, decoded: seq<Byte>, maximum: nat)
    requires body.Valid() && |decoded| <= maximum <= USIZE_MAX
    ensures DecodeChunks(body.Written(), decoded, maximum) ==
            if body.Plain() && |decoded| + |body.Data()| <= maximum then Some(decoded + body.Data()) else None
    decreases |body.parts|
  {
    hide DecodeChunks, PlainLine, FieldLine;
    if body.parts == [] {
      DecodeEnd(body, decoded, maximum);
      assert decoded + [] == decoded;
    } else {
      var part, rest := body.parts[0], body.(parts := body.parts[1..]);
      assert part.Valid() && rest.Valid();
      assert body.Plain() <==> PlainLine(part.line) && rest.Plain();
      DecodePart(part, rest.Written(), decoded, maximum);
      if |decoded| + |part.data| <= maximum {
        StandardBodyDecodes(rest, decoded + part.data, maximum);
        assert decoded + part.data + rest.Data() == decoded + (part.data + rest.Data());
      }
    }
  }

  // ---------- Where the decoder accepts more ----------

  ghost predicate StandardLine(s: seq<Byte>) {
    exists line: SizeLine :: line.Valid() && line.Written() == s
  }

  ghost predicate Standard(encoded: seq<Byte>) {
    exists body: Body :: body.Valid() && body.Written() == encoded
  }

  ghost predicate StandardLines(chunks: seq<Chunk>, last: seq<Byte>) {
    (forall i | 0 <= i < |chunks| :: StandardLine(chunks[i].line)) && StandardLine(last)
  }

  lemma SizeOfLine(line: SizeLine, s: seq<Byte>, n: nat)
    requires line.Valid() && line.Written() == s && Sized(s, n)
    ensures HexValue(line.digits) == n
  {
    hide Sized, ParseSize, HexValue, Utf8, QuotedRest;
    ParseSizeExactly(s, n);
    StandardLineParsed(line);
  }

  lemma {:induction false} AssembleBody(chunks: seq<Chunk>, last: seq<Byte>) returns (body: Body)
    requires (forall c | c in chunks :: ChunkOk(c)) && LastOk(last) && StandardLines(chunks, last)
    ensures body.Valid() && body.Written() == Frame(chunks, last)
    decreases |chunks|
  {
    hide Sized, QuotedRest, WrittenAll, LineOk, SizeLine.Valid, SizeLine.Written;
    if chunks == [] {
      var line: SizeLine :| line.Valid() && line.Written() == last;
      SizeOfLine(line, last, 0);
      LineFacts(line);
      ZeroesAreZero(line.digits);
      body := Body([], line, []);
      NoTrailers([]);
    } else {
      var c := chunks[0];
      assert c in chunks;
      var line: SizeLine :| line.Valid() && line.Written() == c.line;
      SizeOfLine(line, c.line, |c.data|);
      LineFacts(line);
      var rest := AssembleBody(chunks[1..], last);
      body := rest.(parts := [Part(line, c.data)] + rest.parts);
      assert body.parts[1..] == rest.parts && body.(parts := body.parts[1..]) == rest;
    }
  }

  lemma LineFacts(line: SizeLine)
    requires line.Valid()
    ensures line.digits != [] && AllHex(line.digits)
  {
  }

  /** The first line of a body of the standard, and what follows it. */
  function FirstLine(body: Body): SizeLine {
    if body.parts == [] then body.last else body.parts[0].line
  }

  function AfterFirstLine(body: Body): seq<Byte> {
    if body.parts == [] then WrittenFields(body.trailers) + CRLF
    else body.parts[0].data + CRLF + body.(parts := body.parts[1..]).Written()
  }

  lemma FirstLineFound(body: Body)
    requires body.Valid()
    ensures FirstLine(body).Valid()
    ensures body.Written() == FirstLine(body).Written() + CRLF + AfterFirstLine(body)
    ensures FindCrlf(body.Written()) == Some(|FirstLine(body).Written()|)
  {
    hide FindCrlf, QuotedRest, WrittenAll, WrittenFields, FieldLine;
    if body.parts != [] { assert body.parts[0].Valid(); }
    var line := FirstLine(body);
    LineOnLine(line);
    OneLine(line.Written(), AfterFirstLine(body));
    if body.parts != [] {
      var part, rest := body.parts[0], body.(parts := body.parts[1..]).Written();
      assert part.Written() + rest == part.line.Written() + CRLF + (part.data + CRLF + rest);
    }
  }

  lemma SplitBoth(a: seq<Byte>, x: seq<Byte>, b: seq<Byte>, y: seq<Byte>)
    requires a + CRLF + x == b + CRLF + y && |a| == |b|
    ensures a == b && x == y
  {
    var s := a + CRLF + x;
    assert a == s[..|a|] && b == s[..|a|] && x == s[|a| + 2..] && y == s[|a| + 2..];
  }

  lemma {:induction false} LinesAreStandard(body: Body, chunks: seq<Chunk>, last: seq<Byte>)
    requires body.Valid() && body.Written() == Frame(chunks, last)
    requires (forall c | c in chunks :: ChunkOk(c)) && LastOk(last)
    ensures StandardLines(chunks, last)
    decreases |chunks|
  {
    hide Sized, FindCrlf, HexValue, WrittenFields, FieldLine, SizeLine.Valid, SizeLine.Written;
    FirstLineFound(body);
    var line := FirstLine(body);
    if chunks == [] {
      FindsLine(last, CRLF);
      SplitBoth(last, CRLF, line.Written(), AfterFirstLine(body));
    } else {
      var c, rest := chunks[0], Frame(chunks[1..], last);
      assert c in chunks;
      assert FrameOne(c) + rest == c.line + CRLF + (c.data + CRLF + rest);
      FindsLine(c.line, c.data + CRLF + rest);
      SplitBoth(c.line, c.data + CRLF + rest, line.Written(), AfterFirstLine(body));
      SizeOfLine(line, c.line, |c.data|);
      LineFacts(line);
      ZeroesAreZero(line.digits);
      var part, more := body.parts[0], body.(parts := body.parts[1..]);
      assert part.Valid() && more.Valid();
      SplitBoth(c.data, rest, part.data, more.Written());
      LinesAreStandard(more, chunks[1..], last);
      forall i | 0 <= i < |chunks| ensures StandardLine(chunks[i].line) {
        if i > 0 { assert chunks[i] == chunks[1..][i - 1]; }
      }
    }
  }

  /** An accepted body is one of the standard if and only if all its size lines are. */
  lemma AcceptedIsStandardIff(encoded: seq<Byte>, chunks: seq<Chunk>, last: seq<Byte>)
    requires Framed(encoded, chunks, last)
    ensures Standard(encoded) <==> StandardLines(chunks, last)
  {
    hide ChunkOk, LastOk, StandardLines, Body.Valid, Body.Written;
    if StandardLines(chunks, last) {
      var body := AssembleBody(chunks, last);
    }
    if body: Body :| body.Valid() && body.Written() == encoded {
      LinesAreStandard(body, chunks, last);
    }
  }

  /** The text of a line says what its parts are. */
  lemma PartsOf(t: SizeText)
    requires t.Shaped()
    ensures BeforeSemicolon(t.Written()) == t.before + (t.Number() + t.after)
    ensures TrimStart(t.before + (t.Number() + t.after)) == t.Number() + t.after
    ensures TrimEnd(t.Number() + t.after) == t.Number()
    ensures t.plus <==> t.Number()[0] == 0x2B
    ensures t.digits == if t.plus then t.Number()[1..] else t.Number()
  {
    hide BeforeSemicolon, TrimStart, TrimEnd, HexValue;
    var number := t.Number();
    assert HexDigit(t.digits[0]) && HexDigit(t.digits[|t.digits| - 1]);
    assert number[|number| - 1] == t.digits[|t.digits| - 1];
    assert t.Written() == t.before + (number + t.after) + t.tail;
    StopsAtSemicolon(t.before + (number + t.after), t.tail);
    TrimsStart(t.before, number + t.after);
    TrimsEnd(number, t.after);
  }

  lemma SameParts(t: SizeText, u: SizeText)
    requires t.Shaped() && u.Shaped() && t.Written() == u.Written()
    ensures t.before == u.before && t.plus == u.plus && t.digits == u.digits
  {
    hide BeforeSemicolon, TrimStart, TrimEnd, SizeText.Shaped;
    PartsOf(t);
    PartsOf(u);
    var x := t.Number() + t.after;
    assert t.before + x == u.before + x;
    assert |t.before| == |u.before| && t.before == (t.before + x)[..|t.before|] && u.before == (t.before + x)[..|t.before|];
  }

  /** What the decoder's lines have beyond the standard's: a line it accepts is one of the standard if and only if no
      blank precedes the digits, there is no sign, and what follows the digits are well-formed extensions. */
  lemma StandardLineIff(s: seq<Byte>, t: SizeText)
    requires t.Valid() && Utf8(s) == Some(t.Written())
    ensures StandardLine(s) <==>
            && t.before == [] && !t.plus
            && exists extensions: seq<Extension> ::
                 (forall i | 0 <= i < |extensions| :: extensions[i].Valid()) && s == t.digits + WrittenAll(extensions)
  {
    hide Utf8, HexValue, QuotedRest, WrittenAll, Extension.Valid;
    if line: SizeLine :| line.Valid() && line.Written() == s {
      var u := Text(line);
      SameParts(t, u);
      assert s == t.digits + WrittenAll(line.extensions);
    }
    if extensions: seq<Extension> :|
       (forall i | 0 <= i < |extensions| :: extensions[i].Valid()) && s == t.digits + WrittenAll(extensions) {
      var line := SizeLine(s[..|t.digits|], extensions);
      assert line.digits == t.digits;
      assert line.Valid() && line.Written() == s;
    }
  }

  function Signed(data: seq<Byte>): seq<Byte> {
    [0x2B] + Hex(|data|)
  }

  lemma SignedIsSized(data: seq<Byte>)
    requires 0 < |data| <= USIZE_MAX
    ensures LineOk(Signed(data)) && Sized(Signed(data), |data|) && !StandardLine(Signed(data))
  {
    hide Utf8, HexValue, QuotedRest;
    var s := Signed(data);
    HexRoundTrip(|data|);
    HexShort(|data|);
    HexFacts(|data|);
    forall i | 0 <= i < |s| ensures s[i] < 0x80 && s[i] != CR { if i > 0 { assert HexDigit(Hex(|data|)[i - 1]); } }
    AsciiIsUtf8(s);
    var t := SizeText([], true, Hex(|data|), [], []);
    assert t.Valid() && t.Written() == s;
    StandardLineIff(s, t);
  }

  /** For one: a chunk size with a plus sign is accepted, and no body of the standard. */
  lemma SignedSizeIsAccepted(data: seq<Byte>, maximum: nat)
    requires 0 < |data| <= maximum <= USIZE_MAX
    ensures var encoded := Frame([Chunk(Signed(data), data)], Hex(0));
            DecodeChunks(encoded, [], maximum) == Some(data) && !Standard(encoded)
  {
    hide LineOk, Sized, StandardLine, Standard, DecodeChunks, Frame, Signed, Hex;
    var chunks := [Chunk(Signed(data), data)];
    SignedIsSized(data);
    HexRoundTrip(0);
    ParseSizeExactly(Hex(0), 0);
    assert forall c | c in chunks :: ChunkOk(c);
    DecodesFrames(chunks, Hex(0), [], maximum);
    assert chunks[1..] == [] && Data([]) == [] && data + [] == data && Data(chunks) == data && [] + data == data;
    AcceptedIsStandardIff(Frame(chunks, Hex(0)), chunks, Hex(0));
    assert !StandardLine(chunks[0].line);
  }
}
