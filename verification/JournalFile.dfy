/** The bytes of a journal file: what a crash in the middle of an append leaves, and what the reader makes of it. */
module JournalFiles {
  import opened Outcomes
  import opened Numbers
  import Journals

  const NEWLINE: Byte := 10

  datatype Error = OversizedTornRecord | ExceedsRecoveryBound | InvalidRecoveryBounds

  /** A record as the ledgers write it: not empty, ended by its only newline, and no longer than the journal allows. */
  predicate LineOk(line: seq<Byte>) {
    && 2 <= |line| <= Journals.MAXIMUM_RECORD_BYTES
    && line[|line| - 1] == NEWLINE
    && forall i | 0 <= i < |line| - 1 :: line[i] != NEWLINE
  }

  predicate LinesOk(lines: seq<seq<Byte>>) {
    forall i | 0 <= i < |lines| :: LineOk(lines[i])
  }

  /** The file that holds these records. */
  function Join(lines: seq<seq<Byte>>): seq<Byte> {
    if lines == [] then [] else Join(lines[..|lines| - 1]) + lines[|lines| - 1]
  }

  // ---------- Repair ----------

  ghost predicate IsLastNewline(s: seq<Byte>, r: Option<nat>) {
    match r
    case Some(i) => i < |s| && s[i] == NEWLINE && forall j | i < j < |s| :: s[j] != NEWLINE
    case None => forall j | 0 <= j < |s| :: s[j] != NEWLINE
  }

  method LastNewline(s: seq<Byte>) returns (r: Option<nat>)
    ensures IsLastNewline(s, r)
  {
    var i := |s|;
    while i > 0
      invariant 0 <= i <= |s| && forall j | i <= j < |s| :: s[j] != NEWLINE
    {
      i := i - 1;
      if s[i] == NEWLINE {
        return Some(i);
      }
    }
    return None;
  }

  /** `torn` is whole records followed by the beginning of one more. */
  ghost predicate Torn(torn: seq<Byte>, whole: seq<seq<Byte>>, rest: seq<Byte>) {
    && LinesOk(whole) && torn == Join(whole) + rest
    && |rest| < Journals.MAXIMUM_RECORD_BYTES && forall i | 0 <= i < |rest| :: rest[i] != NEWLINE
  }

  lemma JoinEnds(lines: seq<seq<Byte>>)
    requires LinesOk(lines) && lines != []
    ensures Join(lines) != [] && Join(lines)[|Join(lines)| - 1] == NEWLINE
  {
    assert LineOk(lines[|lines| - 1]);
  }

  /** A file that ends with a newline, or is empty, has nothing torn. */
  lemma NothingTorn(bytes: seq<Byte>, whole: seq<seq<Byte>>, rest: seq<Byte>)
    requires Torn(bytes, whole, rest) && (bytes == [] || bytes[|bytes| - 1] == NEWLINE)
    ensures Join(whole) == bytes
  {
    assert rest == [];
    assert Join(whole) + [] == Join(whole);
  }

  /** Otherwise the torn part starts after the last newline, and the scan reaches that far. */
  lemma TornAfterNewline(bytes: seq<Byte>, whole: seq<seq<Byte>>, rest: seq<Byte>, start: nat, last: Option<nat>)
    requires Torn(bytes, whole, rest) && bytes != [] && bytes[|bytes| - 1] != NEWLINE
    requires start <= |bytes| && IsLastNewline(bytes[start..], last)
    requires |bytes| - start == (if |bytes| < Journals.MAXIMUM_RECORD_BYTES then |bytes| else Journals.MAXIMUM_RECORD_BYTES)
    ensures if last.Some? then Join(whole) == bytes[..start + last.value + 1] else start == 0 && Join(whole) == []
  {
    var n := |Join(whole)|;
    if whole != [] {
      JoinEnds(whole);
      assert n - 1 >= start && bytes[start..][n - 1 - start] == NEWLINE;
      assert forall j | n <= j < |bytes| :: bytes[j] == rest[j - n];
      assert last.Some? && start + last.value == n - 1;
    } else {
      assert bytes == rest;
    }
  }

  /** Cuts off a torn last record: whatever was being appended when the machine stopped, the whole records remain. The
      scan looks no further back than the longest record, which suffices. */
  method RepairTornTail(bytes: seq<Byte>) returns (r: Result<seq<Byte>, Error>)
    ensures forall whole, rest | Torn(bytes, whole, rest) :: r == Ok(Join(whole))
    ensures r.Ok? ==> r.value <= bytes && (r.value == [] || r.value[|r.value| - 1] == NEWLINE)
  {
    hide Torn, Join;
    if bytes == [] || bytes[|bytes| - 1] == NEWLINE {
      forall whole, rest | Torn(bytes, whole, rest) ensures Join(whole) == bytes { NothingTorn(bytes, whole, rest); }
      return Ok(bytes);
    }
    var scan := if |bytes| < Journals.MAXIMUM_RECORD_BYTES then |bytes| else Journals.MAXIMUM_RECORD_BYTES;
    var start := |bytes| - scan;
    var last := LastNewline(bytes[start..]);
    forall whole, rest | Torn(bytes, whole, rest)
      ensures if last.Some? then Join(whole) == bytes[..start + last.value + 1] else start == 0 && Join(whole) == []
    {
      TornAfterNewline(bytes, whole, rest, start, last);
    }
    if last.Some? {
      return Ok(bytes[..start + last.value + 1]);
    }
    if start == 0 {
      return Ok([]);
    }
    return Err(OversizedTornRecord);
  }

  // ---------- Reading ----------

  /** Cuts after every newline. */
  function Split(bytes: seq<Byte>): seq<seq<Byte>> {
    SplitFrom([], bytes)
  }

  function SplitFrom(line: seq<Byte>, bytes: seq<Byte>): seq<seq<Byte>>
    decreases |bytes|
  {
    if bytes == [] then (if line == [] then [] else [line])
    else if bytes[0] == NEWLINE then [line + [bytes[0]]] + SplitFrom([], bytes[1..])
    else SplitFrom(line + [bytes[0]], bytes[1..])
  }

  predicate WithinBounds(records: seq<seq<Byte>>, maximumRecords: nat) {
    && |records| <= maximumRecords
    && forall i | 0 <= i < |records| :: |records[i]| <= Journals.MAXIMUM_RECORD_BYTES && records[i] != [NEWLINE]
  }

  method ReadRecords(bytes: seq<Byte>, maximumBytes: nat, maximumRecords: nat) returns (r: Result<seq<seq<Byte>>, Error>)
    ensures forall whole, rest | Torn(bytes, whole, rest) ::
              r == if |Join(whole)| > maximumBytes then Err(ExceedsRecoveryBound)
                   else if |whole| > maximumRecords then Err(InvalidRecoveryBounds)
                   else Ok(whole)
  {
    hide Torn, Join, LineOk;
    var repaired := RepairTornTail(bytes);
    if repaired.Err? {
      return Err(repaired.error);
    }
    var contents := repaired.value;
    if |contents| > maximumBytes {
      return Err(ExceedsRecoveryBound);
    }
    var records, line, i := [], [], 0;
    assert contents[0..] == contents;
    while i < |contents|
      invariant 0 <= i <= |contents| && records + SplitFrom(line, contents[i..]) == Split(contents)
    {
      assert contents[i..][1..] == contents[i + 1..];
      line := line + [contents[i]];
      if contents[i] == NEWLINE {
        ghost var after := SplitFrom([], contents[i + 1..]);
        assert records + ([line] + after) == records + [line] + after;
        records, line := records + [line], [];
      }
      i := i + 1;
    }
    if line != [] {
      records := records + [line];
    }
    assert records == Split(contents) by { assert contents[i..] == []; }
    forall whole, rest | Torn(bytes, whole, rest) ensures Split(contents) == whole && LinesOk(whole) {
      WholeLines(bytes, whole, rest);
      SplitJoin(whole);
    }
    assert LinesOk(records) ==> forall i | 0 <= i < |records| ::
        |records[i]| <= Journals.MAXIMUM_RECORD_BYTES && records[i] != [NEWLINE] by { LinesFit(records); }
    if !WithinBounds(records, maximumRecords) {
      return Err(InvalidRecoveryBounds);
    }
    return Ok(records);
  }

  lemma WholeLines(bytes: seq<Byte>, whole: seq<seq<Byte>>, rest: seq<Byte>)
    requires Torn(bytes, whole, rest)
    ensures LinesOk(whole)
  {
  }

  lemma LinesFit(lines: seq<seq<Byte>>)
    ensures LinesOk(lines) ==> forall i | 0 <= i < |lines| ::
              |lines[i]| <= Journals.MAXIMUM_RECORD_BYTES && lines[i] != [NEWLINE]
  {
  }

  lemma {:induction false} SplitLine(line: seq<Byte>, k: nat, rest: seq<Byte>)
    requires LineOk(line) && k < |line|
    ensures SplitFrom(line[..k], line[k..] + rest) == [line] + Split(rest)
    decreases |line| - k
  {
    var s := line[k..] + rest;
    assert s[0] == line[k] && line[..k] + [line[k]] == line[..k + 1];
    if k == |line| - 1 {
      assert s[1..] == rest && line[..k + 1] == line;
    } else {
      assert s[1..] == line[k + 1..] + rest;
      SplitLine(line, k + 1, rest);
    }
  }

  lemma {:induction false} SplitAfterLines(lines: seq<seq<Byte>>, rest: seq<Byte>)
    requires LinesOk(lines)
    ensures Split(Join(lines) + rest) == lines + Split(rest)
    decreases |lines|
  {
    hide SplitFrom, LineOk;
    if lines == [] {
      assert Join(lines) + rest == rest;
    } else {
      var n := |lines| - 1;
      assert LineOk(lines[n]);
      SplitAfterLines(lines[..n], lines[n] + rest);
      assert Join(lines) + rest == Join(lines[..n]) + (lines[n] + rest);
      LineIsNotEmpty(lines[n]);
      assert lines[n][..0] == [] && lines[n][0..] == lines[n];
      SplitLine(lines[n], 0, rest);
      assert lines[..n] + ([lines[n]] + Split(rest)) == lines + Split(rest);
    }
  }

  lemma LineIsNotEmpty(line: seq<Byte>)
    requires LineOk(line)
    ensures line != []
  {
  }

  /** The round trip: a file of whole records is read back as exactly those records. */
  lemma SplitJoin(lines: seq<seq<Byte>>)
    requires LinesOk(lines)
    ensures Split(Join(lines)) == lines
  {
    SplitAfterLines(lines, []);
    assert Join(lines) + [] == Join(lines) && lines + [] == lines;
  }

  // ---------- A crash ----------

  /** However many bytes of an append reached the disk, they are some of the records and the beginning of the next. */
  lemma {:induction false} CrashTears(lines: seq<seq<Byte>>, k: nat) returns (n: nat)
    requires LinesOk(lines) && k <= |Join(lines)|
    ensures n <= |lines| && |Join(lines[..n])| <= k && (n < |lines| ==> k < |Join(lines[..n + 1])|)
    ensures Torn(Join(lines)[..k], lines[..n], Join(lines)[|Join(lines[..n])|..k])
    decreases |lines|
  {
    if k == |Join(lines)| {
      n := |lines|;
      assert lines[..n] == lines;
    } else {
      var last := |lines| - 1;
      var front := lines[..last];
      if k < |Join(front)| {
        n := CrashTears(front, k);
        assert front[..n] == lines[..n] && front[..n + 1] == lines[..n + 1];
        assert Join(lines)[..k] == Join(front)[..k];
        assert Join(lines)[|Join(lines[..n])|..k] == Join(front)[|Join(lines[..n])|..k];
      } else {
        n := last;
        var rest := Join(lines)[|Join(front)|..k];
        assert LineOk(lines[last]) && rest == lines[last][..k - |Join(front)|];
        assert Join(lines)[..k] == Join(front) + rest;
        assert lines[..n + 1] == lines;
      }
    }
  }

  lemma {:induction false} JoinConcat(a: seq<seq<Byte>>, b: seq<seq<Byte>>)
    ensures Join(a + b) == Join(a) + Join(b)
    decreases |b|
  {
    if b == [] {
      assert a + b == a && Join(a) + [] == Join(a);
    } else {
      var n := |b| - 1;
      JoinConcat(a, b[..n]);
      assert (a + b)[..|a| + n] == a + b[..n];
    }
  }

  // ---------- A crash of the journal ----------

  function Lines<R>(records: seq<R>, encode: R -> seq<Byte>): seq<seq<Byte>> {
    seq(|records|, i requires 0 <= i < |records| => encode(records[i]))
  }

  /** The records of `k` queued appends from command `m` on. */
  function Batch<R>(j: Journals.Journal<R>, m: nat, k: nat): seq<R>
    requires m + k <= |j.queue| && forall i | m <= i < m + k :: j.queue[i].Append?
  {
    seq(k, i requires 0 <= i < k => j.queue[m + i].record)
  }

  lemma {:induction false} AfterBatch<R>(j: Journals.Journal<R>, m: nat, k: nat)
    requires m + k <= |j.queue| && forall i | m <= i < m + k :: j.queue[i].Append?
    ensures Journals.After(j, m + k) == Journals.After(j, m) + Batch(j, m, k)
    decreases k
  {
    if k == 0 {
      assert Batch(j, m, k) == [] && Journals.After(j, m) + [] == Journals.After(j, m);
    } else {
      AfterBatch(j, m, k - 1);
      assert Batch(j, m, k) == Batch(j, m, k - 1) + [j.queue[m + k - 1].record];
    }
  }

  lemma LinesAfterBatch<R>(j: Journals.Journal<R>, encode: R -> seq<Byte>, m: nat, k: nat, c: nat)
    requires m + k <= |j.queue| && c <= k && forall i | m <= i < m + k :: j.queue[i].Append?
    ensures Lines(Journals.After(j, m + c), encode)
         == Lines(Journals.After(j, m), encode) + Lines(Batch(j, m, k), encode)[..c]
  {
    AfterBatch(j, m, c);
    assert Batch(j, m, c) == Batch(j, m, k)[..c];
  }

  /** A crash after `m` commands, while a batch of `k` appends is being written, with any number of its bytes on disk:
      the reader finds the records that some number of commands in between leave, exactly those of the ledgers' runs. */
  lemma CrashReadsPrefix<R>(j: Journals.Journal<R>, encode: R -> seq<Byte>, m: nat, k: nat, bytes: nat)
    returns (n: nat, rest: seq<Byte>)
    requires m + k <= |j.queue| && forall i | m <= i < m + k :: j.queue[i].Append?
    requires LinesOk(Lines(Journals.After(j, m), encode)) && LinesOk(Lines(Batch(j, m, k), encode))
    requires bytes <= |Join(Lines(Batch(j, m, k), encode))|
    ensures m <= n <= m + k
    ensures Torn(Join(Lines(Journals.After(j, m), encode)) + Join(Lines(Batch(j, m, k), encode))[..bytes],
                 Lines(Journals.After(j, n), encode), rest)
  {
    var before, batch := Lines(Journals.After(j, m), encode), Lines(Batch(j, m, k), encode);
    assert |batch| == k;
    hide Journals.After, LineOk, Join, Lines, Batch;
    var c := CrashTears(batch, bytes);
    n, rest := m + c, Join(batch)[|Join(batch[..c])|..bytes];
    LinesAfterBatch(j, encode, m, k, c);
    JoinConcat(before, batch[..c]);
    assert Join(before) + (Join(batch[..c]) + rest) == Join(before) + Join(batch[..c]) + rest;
  }
}
