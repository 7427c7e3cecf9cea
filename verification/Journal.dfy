/** The durable journal both ledgers write through. Commands join a queue under the ledger's lock, one writer
    takes them in order, and a caller waits until its command is on disk. A crash keeps the effect of some prefix
    of the queue: whole batches are synced, and a torn last record is cut off when the file is next opened. */
module Journals {
  import opened Numbers

  const MAXIMUM_RECORD_BYTES: nat := 64 * 1024
  const MAXIMUM_JOURNAL_BYTES: nat := 64 * 1024 * 1024
  const MAXIMUM_BATCH_RECORDS: nat := 64

  datatype Command<R> = Append(record: R) | Replace(contents: seq<R>)

  /** `file` is what is on disk, `queue` what is still to be written, `written` counts the commands carried out. */
  datatype Journal<R> = Journal(file: seq<R>, queue: seq<Command<R>>, written: nat)

  function Write<R>(file: seq<R>, command: Command<R>): seq<R> {
    match command
    case Append(record) => file + [record]
    case Replace(contents) => contents
  }

  /** The file once the first `n` queued commands have been carried out. */
  function After<R>(j: Journal<R>, n: nat): seq<R>
    requires n <= |j.queue|
  {
    if n == 0 then j.file else Write(After(j, n - 1), j.queue[n - 1])
  }

  function Latest<R>(j: Journal<R>): seq<R> {
    After(j, |j.queue|)
  }

  function Enqueue<R>(j: Journal<R>, command: Command<R>): Journal<R> {
    j.(queue := j.queue + [command])
  }

  function Advance<R>(j: Journal<R>, n: nat): Journal<R>
    requires n <= |j.queue|
  {
    Journal(After(j, n), j.queue[n..], j.written + n)
  }

  lemma {:induction false} AfterEnqueue<R>(j: Journal<R>, command: Command<R>, n: nat)
    requires n <= |j.queue|
    ensures After(Enqueue(j, command), n) == After(j, n)
    ensures Latest(Enqueue(j, command)) == Write(Latest(j), command)
    decreases n, 1
  {
    AfterPrefix(j, command, n);
    AfterPrefix(j, command, |j.queue|);
  }

  lemma {:induction false} AfterPrefix<R>(j: Journal<R>, command: Command<R>, n: nat)
    requires n <= |j.queue|
    ensures After(Enqueue(j, command), n) == After(j, n)
  {
    if n > 0 { AfterPrefix(j, command, n - 1); }
  }

  lemma {:induction false} AfterAdvance<R>(j: Journal<R>, m: nat, n: nat)
    requires m + n <= |j.queue|
    ensures After(Advance(j, m), n) == After(j, m + n)
  {
    if n > 0 { AfterAdvance(j, m, n - 1); }
  }

  /** The writer's side: one object holding the open file and the receiving end of the queue. */
  class JournalWriter<R> {
    var journal: Journal<R>

    /** One group commit. Appends are gathered until the batch is full, the window closes (`arrivals` records
        reached the writer in time) or a replacement comes next; a replacement is carried out alone. The commands
        taken are exactly the first `n` of the queue. */
    method Commit(arrivals: nat) returns (n: nat)
      requires journal.queue != []
      modifies this
      ensures 1 <= n <= |old(journal).queue| && n <= MAXIMUM_BATCH_RECORDS
      ensures old(journal).queue[0].Replace? ==> n == 1
      ensures old(journal).queue[0].Append? ==>
                && (forall i | 0 <= i < n :: old(journal).queue[i].Append?)
                && (n in {|old(journal).queue|, MAXIMUM_BATCH_RECORDS, arrivals + 1} || old(journal).queue[n].Replace?)
      ensures journal == Advance(old(journal), n)
    {
      ghost var before := journal;
      var queue := journal.queue;
      if queue[0].Replace? {
        n := 1;
        journal := Journal(queue[0].contents, queue[1..], journal.written + 1);
        return;
      }
      n := 1;
      while n < |queue| && n < MAXIMUM_BATCH_RECORDS && n <= arrivals && queue[n].Append?
        invariant 1 <= n <= |queue| && n <= MAXIMUM_BATCH_RECORDS && n <= arrivals + 1
        invariant forall i | 0 <= i < n :: queue[i].Append?
      {
        n := n + 1;
      }
      var file := journal.file;
      var k := 0;
      while k < n
        invariant 0 <= k <= n
        invariant file == After(before, k)
      {
        file := file + [queue[k].record];
        k := k + 1;
      }
      journal := Journal(file, queue[n..], journal.written + n);
    }
  }

  /** How many appends have been queued since the last replacement. */
  function Trailing<R>(commands: seq<Command<R>>): nat {
    if commands == [] || commands[|commands| - 1].Replace? then 0 else 1 + Trailing(commands[..|commands| - 1])
  }

  lemma TrailingAppend<R>(commands: seq<Command<R>>, command: Command<R>)
    ensures Trailing(commands + [command]) == if command.Append? then Trailing(commands) + 1 else 0
  {
    assert (commands + [command])[..|commands|] == commands;
  }

  // ---------- Sizes ----------

  function Bytes<R>(records: seq<R>, size: R -> nat): nat {
    if records == [] then 0 else size(records[0]) + Bytes(records[1..], size)
  }

  lemma {:induction false} BytesBound<R>(records: seq<R>, size: R -> nat, most: nat)
    requires forall r | r in records :: size(r) <= most
    ensures Bytes(records, size) <= |records| * most
  {
    if records != [] {
      BytesBound(records[1..], size, most);
      assert |records| * most == most + |records[1..]| * most;
    }
  }

  function Decimal(n: nat): string {
    if n < 10 then [('0' as int + n) as char] else Decimal(n / 10) + Decimal(n % 10)
  }

  lemma {:induction false} DecimalLength(n: nat, digits: nat)
    requires digits > 0 && n < Power10(digits)
    ensures |Decimal(n)| <= digits
    decreases digits
  {
    if n >= 10 {
      assert digits > 1;
      assert n / 10 < Power10(digits - 1);
      DecimalLength(n / 10, digits - 1);
    }
  }

  function Power10(n: nat): nat {
    if n == 0 then 1 else 10 * Power10(n - 1)
  }

  lemma U64Digits(n: nat)
    requires n <= U64_MAX
    ensures |Decimal(n)| <= 20
  {
    assert Power10(5) == 100_000;
    assert Power10(10) == 10_000_000_000;
    assert Power10(15) == 1_000_000_000_000_000;
    assert Power10(20) == 100_000_000_000_000_000_000;
    DecimalLength(n, 20);
  }
}
