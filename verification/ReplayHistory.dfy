/** The replay cache seen from outside: what every use of a nonce is answered, given what the last restart found and the
    uses accepted since. */
module ReplayHistory {
  import opened Outcomes
  import opened Journals
  import opened ReplayCaches
  import opened ReplayCacheRuns

  /** The records that the last restart found, and those of the uses accepted since. */
  ghost function Accepted(states: seq<System>, steps: seq<Step>, start: nat, i: nat): seq<Record>
    requires Run(states, steps, start) && i < |states|
  {
    if i == 0 then []
    else
      var s, before := states[i - 1], Accepted(states, steps, start, i - 1);
      assert Enabled(s, steps[i - 1]);
      match steps[i - 1]
      case Consume(key, expires, now) =>
        if ConsumeOn(s.cache, key, expires, now).1.Ok? then before + [Record(key, expires)] else before
      case Crash(n, _) => After(s.cache.journal, n)
      case _ => before
  }

  /** The nonces used and not expired. */
  function LiveKeys(h: seq<Record>, now: nat): set<Key> {
    set r | r in h && r.expires > now :: r.key
  }

  // ---------- The cache is what the history says ----------

  ghost predicate Agrees(h: seq<Record>, entries: Entries, clock: nat) {
    forall t: nat | clock <= t :: Retain(entries, t).Keys == LiveKeys(h, t)
  }

  lemma LiveKeysAppend(h: seq<Record>, r: Record, now: nat)
    ensures LiveKeys(h + [r], now) == LiveKeys(h, now) + if r.expires > now then {r.key} else {}
  {
    forall k ensures k in LiveKeys(h + [r], now) <==> k in LiveKeys(h, now) + if r.expires > now then {r.key} else {} {
      if k in LiveKeys(h, now) {
        var s :| s in h && s.expires > now && s.key == k;
        assert s in h + [r];
      }
      assert r in h + [r];
    }
  }

  lemma PrunedAgrees(h: seq<Record>, entries: Entries, clock: nat, now: nat)
    requires Agrees(h, entries, clock) && clock <= now
    ensures Agrees(h, Retain(entries, now), now)
  {
    RetainFacts(entries, now);
  }

  lemma UsedAgrees(h: seq<Record>, entries: Entries, now: nat, r: Record)
    requires Agrees(h, entries, now) && r.key !in entries
    ensures Agrees(h + [r], entries[r.key := r.expires], now)
  {
    forall t: nat | now <= t ensures Retain(entries[r.key := r.expires], t).Keys == LiveKeys(h + [r], t) {
      RetainUpdate(entries, r.key, r.expires, t);
      LiveKeysAppend(h, r, t);
    }
  }

  /** No nonce is there twice and live both times. */
  predicate NoneTwice(records: seq<Record>, now: nat) {
    forall i, j | 0 <= i < j < |records| && records[i].expires > now && records[j].expires > now :: records[i].key != records[j].key
  }

  lemma NoneTwiceAppend(before: seq<Record>, last: Record, now: nat)
    ensures NoneTwice(before + [last], now) <==> NoneTwice(before, now) && !(last.expires > now && last.key in LiveKeys(before, now))
  {
    var records := before + [last];
    if last.expires > now && last.key in LiveKeys(before, now) {
      var r :| r in before && r.expires > now && r.key == last.key;
      var i :| 0 <= i < |before| && before[i] == r;
      assert records[i] == r && records[|before|] == last;
    }
    if !NoneTwice(before, now) {
      var i, j :| 0 <= i < j < |before| && before[i].expires > now && before[j].expires > now && before[i].key == before[j].key;
      assert records[i] == before[i] && records[j] == before[j];
    }
  }

  lemma {:induction false} LiveValues(records: seq<Record>, now: nat)
    requires Live(records, now).Some?
    ensures Live(records, now).value.Keys == LiveKeys(records, now)
    ensures forall r | r in records && r.expires > now :: Live(records, now).value[r.key] == r.expires
  {
    if records != [] {
      var before, last := records[..|records| - 1], records[|records| - 1];
      LiveValues(before, now);
      assert records == before + [last];
      LiveKeysAppend(before, last, now);
    }
  }

  /** A file is read if and only if no nonce is in it twice and live both times; then as the live ones. */
  lemma {:induction false} LiveExactly(records: seq<Record>, now: nat)
    ensures Live(records, now).Some? <==> NoneTwice(records, now)
    ensures Live(records, now).Some? ==> Live(records, now).value.Keys == LiveKeys(records, now)
    ensures Live(records, now).Some? ==> forall r | r in records && r.expires > now :: Live(records, now).value[r.key] == r.expires
  {
    hide NoneTwice, LiveKeys;
    if records == [] {
      NothingTwice(now);
    } else {
      var before, last := records[..|records| - 1], records[|records| - 1];
      LiveExactly(before, now);
      assert records == before + [last];
      NoneTwiceAppend(before, last, now);
    }
    if Live(records, now).Some? { LiveValues(records, now); }
  }

  lemma NothingTwice(now: nat)
    ensures NoneTwice([], now)
  {
  }

  lemma FoundAgrees(file: seq<Record>, now: nat)
    requires Live(file, now).Some?
    ensures Agrees(file, Retain(Live(file, now).value, now), now)
  {
    hide Live, Retain;
    var live := Live(file, now).value;
    RetainFacts(live, now);
    forall t: nat | now <= t ensures Retain(Retain(live, now), t).Keys == LiveKeys(file, t) {
      LiveLater(file, now, t);
      LiveExactly(file, t);
    }
  }

  lemma LogEntries(c: Cache, r: Record)
    ensures Log(c, r).entries == c.entries[r.key := r.expires]
  {
  }

  lemma OpenEntries(file: seq<Record>, now: nat)
    requires Live(file, now).Some?
    ensures Open(file, now).entries == Retain(Live(file, now).value, now)
  {
  }

  lemma {:induction false} HistoryAgrees(states: seq<System>, steps: seq<Step>, start: nat, i: nat)
    requires Run(states, steps, start) && i < |states|
    ensures Agrees(Accepted(states, steps, start, i), states[i].cache.entries, states[i].clock)
  {
    hide Agrees, Live, Retain, After, Log, Compact;
    if i == 0 {
      StartAgrees(start);
    } else {
      HistoryAgrees(states, steps, start, i - 1);
      var s, step, h := states[i - 1], steps[i - 1], Accepted(states, steps, start, i - 1);
      assert Enabled(s, step) && states[i - 1 + 1] == Next(s, step);
      match step
      case Consume(key, expires, now) =>
        PrunedAgrees(h, s.cache.entries, s.clock, now);
        var pruned := s.cache.(entries := Retain(s.cache.entries, now));
        if ConsumeOn(s.cache, key, expires, now).1.Ok? {
          LogEntries(pruned, Record(key, expires));
          UsedAgrees(h, pruned.entries, now, Record(key, expires));
        }
      case Crash(n, now) =>
        var file := After(s.cache.journal, n);
        FoundAgrees(file, now);
        OpenEntries(file, now);
      case _ =>
    }
  }

  /** A use is refused as a repetition if and only if an accepted use of the nonce has not expired, for want of room if and
      only if it is none and 100,000 nonces are live, and is accepted otherwise. */
  lemma UseAnswered(states: seq<System>, steps: seq<Step>, start: nat, i: nat, key: Key, expires: Millis, now: nat)
    requires Run(states, steps, start) && i < |states| && states[i].clock <= now
    ensures var live, r := LiveKeys(Accepted(states, steps, start, i), now), ConsumeOn(states[i].cache, key, expires, now).1;
            && (r == Err(AlreadyConsumed) <==> key in live)
            && (r == Err(CacheFull) <==> key !in live && |live| >= 100_000)
            && (r == Ok(()) <==> key !in live && |live| < 100_000)
  {
    HistoryAgrees(states, steps, start, i);
    hide Run, Accepted, LiveKeys;
    var kept := Retain(states[i].cache.entries, now);
    assert |kept.Keys| == |kept|;
  }

  lemma StartAgrees(start: nat)
    ensures Agrees([], Start(start).cache.entries, start)
  {
  }

  // ---------- What is written ----------

  /** Every command queued since the last restart, written or not. */
  ghost function Queued(states: seq<System>, steps: seq<Step>, start: nat, i: nat): seq<Command<Record>>
    requires Run(states, steps, start) && i < |states|
  {
    var queue := states[i].cache.journal.queue;
    if i == 0 || steps[i - 1].Crash? then queue
    else
      var before := states[i - 1].cache.journal.queue;
      Queued(states, steps, start, i - 1) + if |before| <= |queue| then queue[|before|..] else []
  }

  /** What an accepted use adds to the queue: its record, and a compaction if that makes it the 10,000th since the last. */
  function Adds(c: Cache, r: Record): seq<Command<Record>> {
    [Append(r)] + if c.appends + 1 >= 10_000 then [Replace(Compacted(c.entries[r.key := r.expires]))] else []
  }

  lemma LogAdds(c: Cache, r: Record)
    ensures Log(c, r).journal.queue == c.journal.queue + Adds(c, r)
    ensures c.appends < 10_000 ==> Log(c, r).appends == if c.appends + 1 == 10_000 then 0 else c.appends + 1
  {
    hide Compacted;
  }

  lemma TrailingAdds(commands: seq<Command<Record>>, c: Cache, r: Record)
    requires Trailing(commands) == c.appends < 10_000
    ensures Trailing(commands + Adds(c, r)) == Log(c, r).appends
  {
    hide Compacted;
    LogAdds(c, r);
    TrailingAppend(commands, Append(r));
    if c.appends + 1 >= 10_000 {
      var replace := Replace(Compacted(c.entries[r.key := r.expires]));
      TrailingAppend(commands + [Append(r)], replace);
      assert commands + Adds(c, r) == commands + [Append(r)] + [replace];
    } else {
      assert commands + Adds(c, r) == commands + [Append(r)];
    }
  }

  lemma OpenQueue(file: seq<Record>, now: nat)
    requires Live(file, now).Some?
    ensures Trailing(Open(file, now).journal.queue) == 0 == Open(file, now).appends
  {
    hide Live, Compacted;
  }

  lemma ConsumeCounts(commands: seq<Command<Record>>, c: Cache, key: Key, expires: Millis, now: nat)
    requires Trailing(commands) == c.appends < 10_000
    ensures var after := ConsumeOn(c, key, expires, now).0;
            && |c.journal.queue| <= |after.journal.queue|
            && Trailing(commands + after.journal.queue[|c.journal.queue|..]) == after.appends
  {
    hide Log, Retain, Compacted, Adds, Trailing;
    var pruned, r := c.(entries := Retain(c.entries, now)), Record(key, expires);
    var before, queue := c.journal.queue, ConsumeOn(c, key, expires, now).0.journal.queue;
    if ConsumeOn(c, key, expires, now).1.Ok? {
      LogAdds(pruned, r);
      assert queue[|before|..] == Adds(pruned, r);
      TrailingAdds(commands, pruned, r);
    } else {
      assert commands + queue[|before|..] == commands;
    }
  }

  lemma {:induction false} CountsAppends(states: seq<System>, steps: seq<Step>, start: nat, i: nat)
    requires Run(states, steps, start) && i < |states|
    ensures Trailing(Queued(states, steps, start, i)) == states[i].cache.appends < 10_000
  {
    RunOk(states, steps, start, i);
    assert states[i].cache.appends < 10_000;
    hide SystemOk, ConsumeOn, Open, Live, After, Trailing;
    if i == 0 {
      NothingIsLive(start);
      OpenQueue([], start);
    } else {
      CountsAppends(states, steps, start, i - 1);
      var s, step, commands := states[i - 1], steps[i - 1], Queued(states, steps, start, i - 1);
      assert Enabled(s, step) && states[i - 1 + 1] == Next(s, step);
      var before, queue := s.cache.journal.queue, states[i].cache.journal.queue;
      match step
      case Consume(key, expires, now) =>
        ConsumeCounts(commands, s.cache, key, expires, now);
      case Crash(n, now) => OpenQueue(After(s.cache.journal, n), now);
      case Flush(n) =>
        assert |queue| == |before| - n;
        assert commands + (if |before| <= |queue| then queue[|before|..] else []) == commands;
      case Return(_) => assert commands + queue[|before|..] == commands;
    }
  }

  lemma NothingIsLive(now: nat)
    ensures Live([], now) == Some(map[])
  {
  }

  /** An accepted use queues its own record, and every 10,000th since the last compaction also a compaction of the nonces
      then live; a refused one queues nothing. */
  lemma UseQueues(states: seq<System>, steps: seq<Step>, start: nat, i: nat, key: Key, expires: Millis, now: nat)
    requires Run(states, steps, start) && i < |states|
    ensures var before, (after, r) := states[i].cache, ConsumeOn(states[i].cache, key, expires, now);
            var due := Trailing(Queued(states, steps, start, i)) == 9_999;
            after.journal.queue ==
            before.journal.queue
            + (if r.Err? then [] else [Append(Record(key, expires))] + if due then [Replace(Compacted(after.entries))] else [])
  {
    CountsAppends(states, steps, start, i);
    var c := states[i].cache;
    hide Run, Queued, Trailing, Compacted, Retain;
    if ConsumeOn(c, key, expires, now).1.Ok? {
      LogAdds(c.(entries := Retain(c.entries, now)), Record(key, expires));
      LogEntries(c.(entries := Retain(c.entries, now)), Record(key, expires));
    }
  }
}
