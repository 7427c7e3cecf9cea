/** The lines that the ledgers write are lines of a journal file. */
module LedgerFiles {
  import opened Outcomes
  import opened Numbers
  import opened Orders
  import Journals
  import opened JournalFiles
  import AssignmentLedgers
  import ReplayCaches

  predicate Plain(s: string) {
    forall i | 0 <= i < |s| :: s[i] < 128 as char && s[i] != '\n'
  }

  function AsciiBytes(s: string): seq<Byte> {
    seq(|s|, i requires 0 <= i < |s| => if s[i] < 128 as char then s[i] as int else 0)
  }

  /** A plain text and a newline, within the length of a record. */
  ghost predicate PlainLine(s: string) {
    2 <= |s| <= Journals.MAXIMUM_RECORD_BYTES && Plain(s[..|s| - 1]) && s[|s| - 1] == '\n'
  }

  lemma PlainLineOk(s: string)
    requires PlainLine(s)
    ensures LineOk(AsciiBytes(s))
  {
    var n := |s| - 1;
    forall i | 0 <= i < n ensures AsciiBytes(s)[i] != NEWLINE { assert s[i] == s[..n][i]; }
  }

  lemma PlainConcat(a: string, b: string)
    requires Plain(a) && Plain(b)
    ensures Plain(a + b)
  {
  }

  lemma {:induction false} DecimalPlain(n: nat)
    ensures Plain(Journals.Decimal(n))
  {
    if n >= 10 {
      DecimalPlain(n / 10);
      DecimalPlain(n % 10);
    }
  }

  lemma HeadPieces()
    ensures Plain("{\"schema_version\":1,") && Plain("\"key\":{\"scope\":") && Plain("{\"tenant_id\":\"")
    ensures Plain("\",\"workspace_id\":\"")
  {
  }

  lemma IdentifierPlain(id: Identifier)
    ensures Plain(id)
  {
    forall i | 0 <= i < |id| ensures id[i] < 128 as char && id[i] != '\n' { assert IdentifierChar(id[i]); }
  }

  lemma StatePlain(state: AssignmentLedgers.State)
    ensures Plain(AssignmentLedgers.StateName(state))
  {
  }

  /** What both ledgers' lines begin with. */
  function Prefix(key: ScopedName): string {
    "{\"schema_version\":1," + "\"key\":{\"scope\":" + "{\"tenant_id\":\"" + key.tenant + "\",\"workspace_id\":\"" + key.workspace
  }

  lemma PrefixPlain(key: ScopedName)
    ensures Plain(Prefix(key))
  {
    hide Plain;
    var a, b, c, d := "{\"schema_version\":1,", "\"key\":{\"scope\":", "{\"tenant_id\":\"", "\",\"workspace_id\":\"";
    HeadPieces();
    IdentifierPlain(key.tenant);
    IdentifierPlain(key.workspace);
    PlainConcat(a, b);
    PlainConcat(a + b, c);
    PlainConcat(a + b + c, key.tenant);
    PlainConcat(a + b + c + key.tenant, d);
    PlainConcat(a + b + c + key.tenant + d, key.workspace);
  }

  lemma EndsLine(s: string, body: string)
    requires s == body + "}\n" && Plain(body) && |s| <= Journals.MAXIMUM_RECORD_BYTES
    ensures PlainLine(s)
  {
    assert s[..|s| - 1] == body + "}";
  }

  lemma SnapshotPlain(snapshot: Option<Identifier>) returns (text: string)
    ensures text == (if snapshot.Some? then ",\"snapshot_id\":\"" + snapshot.value + "\"" else "") && Plain(text)
  {
    text := "";
    if snapshot.Some? {
      IdentifierPlain(snapshot.value);
      var a, b := ",\"snapshot_id\":\"", "\"";
      PlainConcat(a, snapshot.value);
      PlainConcat(a + snapshot.value, b);
      text := a + snapshot.value + b;
    }
  }

  /** A record of the assignment ledger is written as one line. */
  lemma LedgerLine(r: AssignmentLedgers.Record)
    ensures LineOk(AsciiBytes(AssignmentLedgers.Encode(r)))
  {
    hide Plain, PlainLine;
    var c, d, e, q := "\"},\"sandbox_id\":\"", "\"},\"epoch\":", ",\"state\":\"", "\"";
    LedgerPieces();
    PrefixPlain(r.key);
    IdentifierPlain(r.key.name);
    DecimalPlain(r.epoch);
    StatePlain(r.state);
    var f := SnapshotPlain(r.snapshot);
    var x := Prefix(r.key);
    PlainConcat(x, c);
    PlainConcat(x + c, r.key.name);
    PlainConcat(x + c + r.key.name, d);
    var y := x + c + r.key.name + d;
    var epoch, state := Journals.Decimal(r.epoch), AssignmentLedgers.StateName(r.state);
    PlainConcat(y, epoch);
    PlainConcat(y + epoch, e);
    PlainConcat(y + epoch + e, state);
    PlainConcat(y + epoch + e + state, q);
    PlainConcat(y + epoch + e + state + q, f);
    AssignmentLedgers.RecordFits(r);
    EndsLine(AssignmentLedgers.Encode(r), y + epoch + e + state + q + f);
    PlainLineOk(AssignmentLedgers.Encode(r));
  }

  lemma LedgerPieces()
    ensures Plain("\"},\"sandbox_id\":\"") && Plain("\"},\"epoch\":") && Plain(",\"state\":\"") && Plain("\"")
  {
  }

  /** A record of the replay cache is written as one line. */
  lemma CacheLine(r: ReplayCaches.Record)
    ensures LineOk(AsciiBytes(ReplayCaches.Encode(r)))
  {
    hide Plain, PlainLine;
    var c, d, e := "\"},\"nonce_digest\":\"", "\"},\"expires_", "unix_millis\":";
    CachePieces();
    PrefixPlain(r.key);
    IdentifierPlain(r.key.name);
    DecimalPlain(r.expires);
    var x := Prefix(r.key);
    PlainConcat(x, c);
    PlainConcat(x + c, r.key.name);
    PlainConcat(x + c + r.key.name, d);
    PlainConcat(x + c + r.key.name + d, e);
    PlainConcat(x + c + r.key.name + d + e, Journals.Decimal(r.expires));
    Journals.U64Digits(r.expires);
    EndsLine(ReplayCaches.Encode(r), x + c + r.key.name + d + e + Journals.Decimal(r.expires));
    PlainLineOk(ReplayCaches.Encode(r));
  }

  lemma CachePieces()
    ensures Plain("\"},\"nonce_digest\":\"") && Plain("\"},\"expires_") && Plain("unix_millis\":")
  {
  }

  /** What a crash leaves of the assignment ledger's file, down to the bytes: the lines of the records that a crash in the
      ledger's runs leaves, and the beginning of one more. */
  lemma LedgerCrash(j: Journals.Journal<AssignmentLedgers.Record>, m: nat, k: nat, bytes: nat) returns (n: nat, rest: seq<Byte>)
    requires m + k <= |j.queue| && forall i | m <= i < m + k :: j.queue[i].Append?
    requires bytes <= |Join(Lines(Batch(j, m, k), LedgerBytes))|
    ensures m <= n <= m + k
    ensures Torn(Join(Lines(Journals.After(j, m), LedgerBytes)) + Join(Lines(Batch(j, m, k), LedgerBytes))[..bytes],
                 Lines(Journals.After(j, n), LedgerBytes), rest)
  {
    hide LineOk, Journals.After, Torn;
    LedgerLines(Journals.After(j, m));
    LedgerLines(Batch(j, m, k));
    n, rest := CrashReadsPrefix(j, LedgerBytes, m, k, bytes);
  }

  function LedgerBytes(r: AssignmentLedgers.Record): seq<Byte> {
    AsciiBytes(AssignmentLedgers.Encode(r))
  }

  lemma LedgerLines(records: seq<AssignmentLedgers.Record>)
    ensures LinesOk(Lines(records, LedgerBytes))
  {
    hide LineOk;
    forall i | 0 <= i < |records| ensures LineOk(Lines(records, LedgerBytes)[i]) {
      LedgerLine(records[i]);
      assert Lines(records, LedgerBytes)[i] == LedgerBytes(records[i]);
    }
  }

  /** And the same for the replay cache. */
  lemma CacheCrash(j: Journals.Journal<ReplayCaches.Record>, m: nat, k: nat, bytes: nat) returns (n: nat, rest: seq<Byte>)
    requires m + k <= |j.queue| && forall i | m <= i < m + k :: j.queue[i].Append?
    requires bytes <= |Join(Lines(Batch(j, m, k), CacheBytes))|
    ensures m <= n <= m + k
    ensures Torn(Join(Lines(Journals.After(j, m), CacheBytes)) + Join(Lines(Batch(j, m, k), CacheBytes))[..bytes],
                 Lines(Journals.After(j, n), CacheBytes), rest)
  {
    hide LineOk, Journals.After, Torn;
    CacheLines(Journals.After(j, m));
    CacheLines(Batch(j, m, k));
    n, rest := CrashReadsPrefix(j, CacheBytes, m, k, bytes);
  }

  function CacheBytes(r: ReplayCaches.Record): seq<Byte> {
    AsciiBytes(ReplayCaches.Encode(r))
  }

  lemma CacheLines(records: seq<ReplayCaches.Record>)
    ensures LinesOk(Lines(records, CacheBytes))
  {
    hide LineOk;
    forall i | 0 <= i < |records| ensures LineOk(Lines(records, CacheBytes)[i]) {
      CacheLine(records[i]);
      assert Lines(records, CacheBytes)[i] == CacheBytes(records[i]);
    }
  }
}
