/** The decoder for response bodies, plain or in chunked transfer coding (section 7.1 of RFC 9112), shared by the
    broker and the gateway. */
module ChunkedBodies {
  import opened Outcomes
  import opened Numbers

  const USIZE_MAX: nat := U64_MAX
  const CR: Byte := 13
  const LF: Byte := 10
  const CRLF: seq<Byte> := [13, 10]

  // ---------- The size line ----------

  predicate Continuation(b: Byte) {
    0x80 <= b <= 0xBF
  }

  /** The code points of well-formed UTF-8. */
  function Utf8(s: seq<Byte>): Option<seq<nat>> {
    if s == [] then Some([])
    else if s[0] < 0x80 then Cons(s[0], Utf8(s[1..]))
    else if 0xC2 <= s[0] <= 0xDF && |s| >= 2 && Continuation(s[1]) then
      Cons((s[0] as int - 0xC0) * 0x40 + (s[1] as int - 0x80), Utf8(s[2..]))
    else if 0xE0 <= s[0] <= 0xEF && |s| >= 3 && Continuation(s[1]) && Continuation(s[2])
            && (s[0] == 0xE0 ==> s[1] >= 0xA0) && (s[0] == 0xED ==> s[1] <= 0x9F) then
      Cons((s[0] as int - 0xE0) * 0x1000 + (s[1] as int - 0x80) * 0x40 + (s[2] as int - 0x80), Utf8(s[3..]))
    else if 0xF0 <= s[0] <= 0xF4 && |s| >= 4 && Continuation(s[1]) && Continuation(s[2]) && Continuation(s[3])
            && (s[0] == 0xF0 ==> s[1] >= 0x90) && (s[0] == 0xF4 ==> s[1] <= 0x8F) then
      Cons((s[0] as int - 0xF0) * 0x40000 + (s[1] as int - 0x80) * 0x1000 + (s[2] as int - 0x80) * 0x40 + (s[3] as int - 0x80), Utf8(s[4..]))
    else None
  }

  function Cons(c: nat, rest: Option<seq<nat>>): Option<seq<nat>> {
    if rest.None? then None else Some([c] + rest.value)
  }

  /** What comes before the chunk extensions. */
  function BeforeSemicolon(s: seq<nat>): seq<nat> {
    if s == [] || s[0] == 0x3B then [] else [s[0]] + BeforeSemicolon(s[1..])
  }

  predicate Whitespace(c: nat) {
    || 0x09 <= c <= 0x0D || c == 0x20 || c == 0x85 || c == 0xA0 || c == 0x1680 || 0x2000 <= c <= 0x200A
    || c == 0x2028 || c == 0x2029 || c == 0x202F || c == 0x205F || c == 0x3000
  }

  function TrimStart(s: seq<nat>): seq<nat> {
    if s != [] && Whitespace(s[0]) then TrimStart(s[1..]) else s
  }

  function TrimEnd(s: seq<nat>): seq<nat> {
    if s != [] && Whitespace(s[|s| - 1]) then TrimEnd(s[..|s| - 1]) else s
  }

  predicate HexDigit(c: nat) {
    0x30 <= c <= 0x39 || 0x41 <= c <= 0x46 || 0x61 <= c <= 0x66
  }

  predicate AllHex(s: seq<nat>) {
    forall i | 0 <= i < |s| :: HexDigit(s[i])
  }

  function DigitValue(c: nat): nat
    requires HexDigit(c)
  {
    if c <= 0x39 then c - 0x30 else if c <= 0x46 then c - 0x41 + 10 else c - 0x61 + 10
  }

  function HexValue(s: seq<nat>): nat
    requires AllHex(s)
  {
    if s == [] then 0 else HexValue(s[..|s| - 1]) * 16 + DigitValue(s[|s| - 1])
  }

  /** A hexadecimal number of any length that fits, with an optional plus sign. */
  function FromHex(s: seq<nat>): Option<nat> {
    var digits := if |s| >= 2 && s[0] == 0x2B then s[1..] else s;
    if digits == [] || !AllHex(digits) then None
    else if HexValue(digits) > USIZE_MAX then None
    else Some(HexValue(digits))
  }

  function ParseSize(line: seq<Byte>): Option<nat> {
    var text := Utf8(line);
    if text.None? then None else FromHex(TrimEnd(TrimStart(BeforeSemicolon(text.value))))
  }

  // ---------- What a size line says ----------

  predicate AllWhitespace(s: seq<nat>) {
    forall i | 0 <= i < |s| :: Whitespace(s[i])
  }

  /** Blanks, perhaps a plus sign, digits, blanks, and nothing more or a semicolon and anything. */
  datatype SizeText = SizeText(before: seq<nat>, plus: bool, digits: seq<nat>, after: seq<nat>, tail: seq<nat>) {
    predicate Shaped() {
      AllWhitespace(before) && AllWhitespace(after) && digits != [] && AllHex(digits) && (tail == [] || tail[0] == 0x3B)
    }

    predicate Valid() {
      Shaped() && HexValue(digits) <= USIZE_MAX
    }

    function Number(): seq<nat> {
      (if plus then [0x2B] else []) + digits
    }

    function Written(): seq<nat> {
      before + Number() + after + tail
    }
  }

  /** The line is the UTF-8 of such a text, with digits of value `n`. */
  ghost predicate Sized(line: seq<Byte>, n: nat) {
    exists t: SizeText :: t.Valid() && Utf8(line) == Some(t.Written()) && HexValue(t.digits) == n
  }

  lemma {:induction false} StopsAtSemicolon(s: seq<nat>, tail: seq<nat>)
    requires (forall i | 0 <= i < |s| :: s[i] != 0x3B) && (tail == [] || tail[0] == 0x3B)
    ensures BeforeSemicolon(s + tail) == s
  {
    if s == [] {
      assert s + tail == tail;
    } else {
      assert s + tail == [s[0]] + (s[1..] + tail);
      StopsAtSemicolon(s[1..], tail);
    }
  }

  lemma {:induction false} SplitsAtSemicolon(s: seq<nat>)
    ensures var head := BeforeSemicolon(s);
            && |head| <= |s| && s == head + s[|head|..] && (forall i | 0 <= i < |head| :: head[i] != 0x3B)
            && (|head| == |s| || s[|head|] == 0x3B)
  {
    if s != [] && s[0] != 0x3B {
      SplitsAtSemicolon(s[1..]);
      assert s == [s[0]] + s[1..];
    }
  }

  lemma {:induction false} TrimsStart(blanks: seq<nat>, s: seq<nat>)
    requires AllWhitespace(blanks) && s != [] && !Whitespace(s[0])
    ensures TrimStart(blanks + s) == s
  {
    if blanks == [] {
      assert blanks + s == s;
    } else {
      assert (blanks + s)[1..] == blanks[1..] + s;
      TrimsStart(blanks[1..], s);
    }
  }

  lemma {:induction false} TrimsEnd(s: seq<nat>, blanks: seq<nat>)
    requires AllWhitespace(blanks) && s != [] && !Whitespace(s[|s| - 1])
    ensures TrimEnd(s + blanks) == s
    decreases |blanks|
  {
    if blanks == [] {
      assert s + blanks == s;
    } else {
      var n := |blanks| - 1;
      assert (s + blanks)[..|s| + n] == s + blanks[..n];
      TrimsEnd(s, blanks[..n]);
    }
  }

  lemma {:induction false} TrimStartSplits(s: seq<nat>) returns (blanks: seq<nat>)
    ensures AllWhitespace(blanks) && s == blanks + TrimStart(s)
  {
    if s != [] && Whitespace(s[0]) {
      var more := TrimStartSplits(s[1..]);
      blanks := [s[0]] + more;
    } else {
      blanks := [];
    }
  }

  lemma {:induction false} TrimEndSplits(s: seq<nat>) returns (blanks: seq<nat>)
    ensures AllWhitespace(blanks) && s == TrimEnd(s) + blanks
  {
    if s != [] && Whitespace(s[|s| - 1]) {
      var more := TrimEndSplits(s[..|s| - 1]);
      blanks := more + [s[|s| - 1]];
    } else {
      blanks := [];
    }
  }

  lemma NumberRead(t: SizeText)
    requires t.Shaped()
    ensures FromHex(t.Number()) == if HexValue(t.digits) <= USIZE_MAX then Some(HexValue(t.digits)) else None
  {
    hide HexValue;
    assert HexDigit(t.digits[0]);
    if t.plus { assert t.Number()[1..] == t.digits; } else { assert t.Number() == t.digits; }
  }

  lemma SizedIsParsed(line: seq<Byte>, t: SizeText)
    requires t.Shaped() && Utf8(line) == Some(t.Written())
    ensures ParseSize(line) == if HexValue(t.digits) <= USIZE_MAX then Some(HexValue(t.digits)) else None
  {
    hide Utf8, HexValue, FromHex, BeforeSemicolon, TrimStart, TrimEnd;
    var number := t.Number();
    assert t.Written() == t.before + number + t.after + t.tail;
    assert HexDigit(t.digits[0]) && HexDigit(t.digits[|t.digits| - 1]);
    assert number[|number| - 1] == t.digits[|t.digits| - 1];
    StopsAtSemicolon(t.before + number + t.after, t.tail);
    assert t.before + number + t.after == t.before + (number + t.after);
    TrimsStart(t.before, number + t.after);
    TrimsEnd(number, t.after);
    NumberRead(t);
  }

  lemma NumberWritten(number: seq<nat>) returns (plus: bool, digits: seq<nat>)
    requires FromHex(number).Some?
    ensures digits != [] && AllHex(digits) && HexValue(digits) <= USIZE_MAX && FromHex(number) == Some(HexValue(digits))
    ensures number == (if plus then [0x2B] else []) + digits
  {
    hide HexValue, AllHex;
    plus := |number| >= 2 && number[0] == 0x2B;
    digits := if plus then number[1..] else number;
  }

  lemma Regrouped(before: seq<nat>, number: seq<nat>, after: seq<nat>, tail: seq<nat>)
    ensures before + (number + after) + tail == before + number + after + tail
  {
  }

  lemma ParsedIsSized(line: seq<Byte>)
    requires ParseSize(line).Some?
    ensures Sized(line, ParseSize(line).value)
  {
    hide Utf8, HexValue, BeforeSemicolon, TrimStart, TrimEnd, FromHex, AllHex, AllWhitespace;
    var text := Utf8(line).value;
    var head := BeforeSemicolon(text);
    SplitsAtSemicolon(text);
    var before := TrimStartSplits(head);
    var after := TrimEndSplits(TrimStart(head));
    var plus, digits := NumberWritten(TrimEnd(TrimStart(head)));
    var t := SizeText(before, plus, digits, after, text[|head|..]);
    Regrouped(before, t.Number(), after, t.tail);
    assert t.Valid() && text == t.Written();
  }

  /** Exactly such lines are read as sizes, each as the value of its digits. */
  lemma ParseSizeExactly(line: seq<Byte>, n: nat)
    ensures ParseSize(line) == Some(n) <==> Sized(line, n)
  {
    hide ParseSize;
    if ParseSize(line) == Some(n) { ParsedIsSized(line); }
    if t: SizeText :| t.Valid() && Utf8(line) == Some(t.Written()) && HexValue(t.digits) == n { SizedIsParsed(line, t); }
  }

  // ---------- The decoder ----------

  function FindCrlf(s: seq<Byte>): (r: Option<nat>)
    ensures r.Some? ==> r.value + 2 <= |s| && s[r.value] == CR && s[r.value + 1] == LF
    ensures r.Some? ==> forall i | 0 <= i < r.value :: !(s[i] == CR && s[i + 1] == LF)
    ensures r.None? ==> forall i | 0 <= i < |s| - 1 :: !(s[i] == CR && s[i + 1] == LF)
  {
    if |s| < 2 then None
    else if s[0] == CR && s[1] == LF then Some(0)
    else
      var r := FindCrlf(s[1..]);
      if r.Some? then Some(r.value + 1) else None
  }

  datatype Turn = Refused | Finished | Decoded(data: seq<Byte>, rest: seq<Byte>)

  /** What one turn of the loop makes of the remaining input, the limit aside. */
  function FirstTurn(remaining: seq<Byte>): (r: Turn)
    ensures r.Decoded? ==> |r.rest| < |remaining|
  {
    var lineEnd := FindCrlf(remaining);
    if lineEnd.None? || lineEnd.value == 0 || lineEnd.value > 32 then Refused
    else
      var size := ParseSize(remaining[..lineEnd.value]);
      var rest := remaining[lineEnd.value + 2..];
      if size.None? then Refused
      else if size.value == 0 then (if rest == CRLF then Finished else Refused)
      else if size.value + 2 > |rest| || rest[size.value..size.value + 2] != CRLF then Refused
      else Decoded(rest[..size.value], rest[size.value + 2..])
  }

  /** The loop of the decoder, as recursion over what remains. */
  function DecodeChunks(remaining: seq<Byte>, decoded: seq<Byte>, maximum: nat): Option<seq<Byte>>
    decreases |remaining|
  {
    match FirstTurn(remaining)
    case Refused => None
    case Finished => Some(decoded)
    case Decoded(data, rest) =>
      if |decoded| + |data| > maximum then None else DecodeChunks(rest, decoded + data, maximum)
  }

  method DecodeResponseBody(encoded: seq<Byte>, contentLength: Option<nat>, chunked: bool, maximum: nat)
    returns (r: Option<seq<Byte>>)
    ensures !chunked ==>
              r == if |encoded| <= maximum && (contentLength.Some? ==> contentLength.value == |encoded|) then Some(encoded) else None
    ensures chunked ==> r == DecodeChunks(encoded, [], maximum)
  {
    hide ParseSize, FindCrlf;
    if !chunked {
      if |encoded| > maximum || (contentLength.Some? && contentLength.value != |encoded|) {
        return None;
      }
      return Some(encoded);
    }
    var remaining := encoded;
    var decoded: seq<Byte> := [];
    while true
      invariant DecodeChunks(remaining, decoded, maximum) == DecodeChunks(encoded, [], maximum)
      decreases |remaining|
    {
      var lineEnd := FindCrlf(remaining);
      if lineEnd.None? {
        return None;
      }
      if lineEnd.value == 0 || lineEnd.value > 32 {
        return None;
      }
      var size := ParseSize(remaining[..lineEnd.value]);
      if size.None? {
        return None;
      }
      remaining := remaining[lineEnd.value + 2..];
      if size.value == 0 {
        if remaining != CRLF {
          return None;
        }
        return Some(decoded);
      }
      if size.value + 2 > |remaining| || remaining[size.value..size.value + 2] != CRLF || |decoded| + size.value > maximum {
        return None;
      }
      decoded := decoded + remaining[..size.value];
      remaining := remaining[size.value + 2..];
    }
  }

  // ---------- The grammar ----------

  datatype Chunk = Chunk(line: seq<Byte>, data: seq<Byte>)

  predicate LineOk(line: seq<Byte>) {
    1 <= |line| <= 32 && forall i | 0 <= i < |line| - 1 :: !(line[i] == CR && line[i + 1] == LF)
  }

  /** A chunk is a short size line that names the length of its data, which is not empty. */
  ghost predicate ChunkOk(c: Chunk) {
    LineOk(c.line) && c.data != [] && Sized(c.line, |c.data|)
  }

  ghost predicate LastOk(line: seq<Byte>) {
    LineOk(line) && Sized(line, 0)
  }

  function FrameOne(c: Chunk): seq<Byte> {
    c.line + CRLF + c.data + CRLF
  }

  /** A chunked body: chunks, the last line, and no trailers. */
  function Frame(chunks: seq<Chunk>, last: seq<Byte>): seq<Byte> {
    if chunks == [] then last + CRLF + CRLF else FrameOne(chunks[0]) + Frame(chunks[1..], last)
  }

  function Data(chunks: seq<Chunk>): seq<Byte> {
    if chunks == [] then [] else chunks[0].data + Data(chunks[1..])
  }

  ghost predicate Framed(encoded: seq<Byte>, chunks: seq<Chunk>, last: seq<Byte>) {
    (forall c | c in chunks :: ChunkOk(c)) && LastOk(last) && encoded == Frame(chunks, last)
  }

  lemma {:induction false} FindsLine(line: seq<Byte>, rest: seq<Byte>)
    requires forall i | 0 <= i < |line| - 1 :: !(line[i] == CR && line[i + 1] == LF)
    ensures FindCrlf(line + CRLF + rest) == Some(|line|)
  {
    var s := line + CRLF + rest;
    assert s[|line|] == CR && s[|line| + 1] == LF;
    forall i | 0 <= i < |line| ensures !(s[i] == CR && s[i + 1] == LF) {
      if i == |line| - 1 { assert s[i + 1] == CR; }
    }
    assert FindCrlf(s).Some?;
  }

  /** One turn of the loop on input that starts with a well-formed chunk. */
  lemma DecodeOne(c: Chunk, rest: seq<Byte>, decoded: seq<Byte>, maximum: nat)
    requires ChunkOk(c)
    ensures DecodeChunks(FrameOne(c) + rest, decoded, maximum) ==
            if |decoded| + |c.data| > maximum then None else DecodeChunks(rest, decoded + c.data, maximum)
  {
    hide ParseSize, Sized, FindCrlf;
    ParseSizeExactly(c.line, |c.data|);
    var encoded := FrameOne(c) + rest;
    var tail := c.data + CRLF + rest;
    assert encoded == c.line + CRLF + tail;
    FindsLine(c.line, tail);
    assert encoded[..|c.line|] == c.line;
    assert encoded[|c.line| + 2..] == tail;
    assert tail[|c.data|..|c.data| + 2] == CRLF;
    assert tail[..|c.data|] == c.data;
    assert tail[|c.data| + 2..] == rest;
    assert FirstTurn(encoded) == Decoded(c.data, rest);
  }

  lemma DecodeLast(last: seq<Byte>, decoded: seq<Byte>, maximum: nat)
    requires LastOk(last)
    ensures DecodeChunks(last + CRLF + CRLF, decoded, maximum) == Some(decoded)
  {
    hide ParseSize, Sized;
    ParseSizeExactly(last, 0);
    var encoded := last + CRLF + CRLF;
    FindsLine(last, CRLF);
    assert encoded[..|last|] == last;
    assert encoded[|last| + 2..] == CRLF;
    assert FirstTurn(encoded) == Finished;
  }

  /** Completeness: every well-formed body within the limit decodes to its data, and one beyond the limit is refused. */
  lemma {:induction false} DecodesFrames(chunks: seq<Chunk>, last: seq<Byte>, decoded: seq<Byte>, maximum: nat)
    requires (forall c | c in chunks :: ChunkOk(c)) && LastOk(last) && |decoded| <= maximum
    ensures DecodeChunks(Frame(chunks, last), decoded, maximum) ==
            if |decoded| + |Data(chunks)| <= maximum then Some(decoded + Data(chunks)) else None
    decreases |chunks|
  {
    hide DecodeChunks, ChunkOk, LastOk;
    if chunks == [] {
      DecodeLast(last, decoded, maximum);
      assert decoded + [] == decoded;
    } else {
      var c := chunks[0];
      assert c in chunks;
      DecodeOne(c, Frame(chunks[1..], last), decoded, maximum);
      if |decoded| + |c.data| <= maximum {
        DecodesFrames(chunks[1..], last, decoded + c.data, maximum);
        assert decoded + c.data + Data(chunks[1..]) == decoded + (c.data + Data(chunks[1..]));
      }
    }
  }

  /** What a turn that is not refused says about the first line. */
  lemma TurnHead(encoded: seq<Byte>) returns (line: seq<Byte>, size: nat, rest: seq<Byte>)
    requires !FirstTurn(encoded).Refused?
    ensures encoded == line + CRLF + rest && LineOk(line) && ParseSize(line) == Some(size)
    ensures size == 0 ==> rest == CRLF && FirstTurn(encoded) == Finished
    ensures size > 0 ==> size + 2 <= |rest| && rest[size..size + 2] == CRLF
                         && FirstTurn(encoded) == Decoded(rest[..size], rest[size + 2..])
  {
    hide ParseSize, FindCrlf, LineOk;
    SplitAtLine(encoded);
    var end := FindCrlf(encoded).value;
    line, rest := encoded[..end], encoded[end + 2..];
    size := ParseSize(line).value;
  }

  lemma SplitAtLine(s: seq<Byte>)
    requires FindCrlf(s).Some? && 1 <= FindCrlf(s).value <= 32
    ensures var end := FindCrlf(s).value; s == s[..end] + CRLF + s[end + 2..] && LineOk(s[..end])
  {
    hide FindCrlf;
    var end := FindCrlf(s).value;
    assert s[end..end + 2] == CRLF;
    assert s == s[..end] + s[end..end + 2] + s[end + 2..];
  }

  /** Soundness: whatever is accepted is a well-formed body. */
  lemma {:induction false} AcceptedIsFramed(encoded: seq<Byte>, decoded: seq<Byte>, maximum: nat)
    returns (chunks: seq<Chunk>, last: seq<Byte>)
    requires DecodeChunks(encoded, decoded, maximum).Some?
    ensures Framed(encoded, chunks, last)
    decreases |encoded|
  {
    hide ParseSize, Sized, LineOk, FirstTurn;
    var line, size, rest := TurnHead(encoded);
    ParseSizeExactly(line, size);
    if size == 0 {
      chunks, last := [], line;
    } else {
      var c := Chunk(line, rest[..size]);
      var tail := rest[size + 2..];
      assert rest == c.data + CRLF + tail;
      assert encoded == FrameOne(c) + tail;
      var more;
      more, last := AcceptedIsFramed(tail, decoded + c.data, maximum);
      chunks := [c] + more;
      assert chunks[0] == c && chunks[1..] == more;
    }
  }

  /** Exactly the bodies of the grammar are accepted, within the limit, and each decodes to the data of its chunks. */
  lemma DecodesExactly(encoded: seq<Byte>, maximum: nat, body: seq<Byte>)
    ensures DecodeChunks(encoded, [], maximum) == Some(body) <==>
            exists chunks, last :: Framed(encoded, chunks, last) && body == Data(chunks) && |body| <= maximum
  {
    hide DecodeChunks, ChunkOk, LastOk, Frame;
    if DecodeChunks(encoded, [], maximum) == Some(body) {
      var chunks, last := AcceptedIsFramed(encoded, [], maximum);
      DecodesFrames(chunks, last, [], maximum);
      assert [] + Data(chunks) == Data(chunks);
    }
    if chunks, last :| Framed(encoded, chunks, last) && body == Data(chunks) && |body| <= maximum {
      DecodesFrames(chunks, last, [], maximum);
      assert [] + Data(chunks) == Data(chunks);
    }
  }

  // ---------- A sender's encoding ----------

  function HexByte(d: nat): Byte
    requires d < 16
  {
    if d < 10 then 0x30 + d else 0x61 + d - 10
  }

  function Hex(n: nat): seq<Byte> {
    if n < 16 then [HexByte(n)] else Hex(n / 16) + [HexByte(n % 16)]
  }

  function EncodeBody(parts: seq<seq<Byte>>): seq<Byte> {
    if parts == [] then Hex(0) + CRLF + CRLF
    else Hex(|parts[0]|) + CRLF + parts[0] + CRLF + EncodeBody(parts[1..])
  }

  function Concat(parts: seq<seq<Byte>>): seq<Byte> {
    if parts == [] then [] else parts[0] + Concat(parts[1..])
  }

  lemma {:induction false} HexFacts(n: nat)
    ensures Hex(n) != [] && AllHex(Hex(n))
    ensures HexValue(Hex(n)) == n
  {
    if n >= 16 {
      HexFacts(n / 16);
      var s := Hex(n);
      assert s[..|s| - 1] == Hex(n / 16);
    } else {
      var s := Hex(n);
      assert s[..0] == [];
    }
  }

  lemma {:induction false} HexLength(n: nat, digits: nat)
    requires digits > 0 && n < Power16(digits)
    ensures |Hex(n)| <= digits
    decreases digits
  {
    if n >= 16 {
      assert digits > 1;
      HexLength(n / 16, digits - 1);
    }
  }

  lemma HexShort(n: nat)
    requires n <= USIZE_MAX
    ensures |Hex(n)| <= 16
  {
    assert Power16(4) == 0x1_0000 && Power16(8) == 0x1_0000_0000 && Power16(12) == 0x1_0000_0000_0000;
    assert Power16(16) == 0x1_0000_0000_0000_0000;
    HexLength(n, 16);
  }

  function Power16(n: nat): nat {
    if n == 0 then 1 else 16 * Power16(n - 1)
  }

  lemma {:induction false} AsciiIsUtf8(s: seq<Byte>)
    requires forall i | 0 <= i < |s| :: s[i] < 0x80
    ensures Utf8(s) == Some(s)
  {
    if s != [] {
      assert s == [s[0]] + s[1..];
      AsciiIsUtf8(s[1..]);
    }
  }

  lemma {:induction false} NoSemicolon(s: seq<nat>)
    requires forall i | 0 <= i < |s| :: s[i] != 0x3B
    ensures BeforeSemicolon(s) == s
  {
    if s != [] {
      assert s == [s[0]] + s[1..];
      NoSemicolon(s[1..]);
    }
  }

  /** A plain hexadecimal length is read back. */
  lemma HexRoundTrip(n: nat)
    requires n <= USIZE_MAX
    ensures LineOk(Hex(n)) && ParseSize(Hex(n)) == Some(n)
  {
    hide Utf8, BeforeSemicolon;
    HexFacts(n);
    HexShort(n);
    var s := Hex(n);
    AsciiIsUtf8(s);
    NoSemicolon(s);
    assert HexDigit(s[0]) && HexDigit(s[|s| - 1]);
    assert TrimStart(s) == s && TrimEnd(s) == s;
  }

  lemma {:induction false} EncodingIsFramed(parts: seq<seq<Byte>>) returns (chunks: seq<Chunk>)
    requires forall p | p in parts :: 0 < |p| <= USIZE_MAX
    ensures Framed(EncodeBody(parts), chunks, Hex(0)) && Data(chunks) == Concat(parts)
    decreases |parts|
  {
    hide LineOk, ParseSize, Sized, Hex;
    if parts == [] {
      HexRoundTrip(0);
      ParseSizeExactly(Hex(0), 0);
      chunks := [];
    } else {
      assert parts[0] in parts;
      HexRoundTrip(|parts[0]|);
      ParseSizeExactly(Hex(|parts[0]|), |parts[0]|);
      var more := EncodingIsFramed(parts[1..]);
      chunks := [Chunk(Hex(|parts[0]|), parts[0])] + more;
      assert chunks[1..] == more;
      assert EncodeBody(parts) == FrameOne(chunks[0]) + EncodeBody(parts[1..]);
    }
  }

  /** The round trip: a list of nonempty parts, sent as chunks, decodes to their concatenation, or is refused when
      that is too long. */
  lemma BodyRoundTrip(parts: seq<seq<Byte>>, maximum: nat)
    requires forall p | p in parts :: 0 < |p| <= USIZE_MAX
    ensures DecodeChunks(EncodeBody(parts), [], maximum) ==
            if |Concat(parts)| <= maximum then Some(Concat(parts)) else None
  {
    hide DecodeChunks, Frame, ChunkOk, LastOk, EncodeBody, Concat;
    var chunks := EncodingIsFramed(parts);
    DecodesFrames(chunks, Hex(0), [], maximum);
    assert [] + Data(chunks) == Data(chunks);
  }
}
