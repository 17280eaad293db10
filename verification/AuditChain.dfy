/** The hash chain of the audit_log table: every row the repository records is
    chained to the row before it, the rows of a flushed batch carry no hashes, and
    VerifyChain walks the table from its oldest row. */
module AuditChain {
  import opened Wrappers
  import opened AuditRecorder
  import AuditRuns

  const HASH_LENGTH: nat := 64

  function Zeros(n: nat): (z: string)
    ensures |z| == n && forall i :: 0 <= i < n ==> z[i] == '0'
  {
    if n == 0 then "" else Zeros(n - 1) + "0"
  }

  // Stands before the first row.
  function Genesis(): string {
    Zeros(HASH_LENGTH)
  }

  // What is hashed: the row's id, as its own fixed-width field, and a text.
  datatype HashInput = HashInput(id: nat, text: string)

  // SHA-256 and HMAC-SHA-256 in hexadecimal; a repository without a key writes an
  // empty HMAC and checks none.
  datatype Crypto = Crypto(digest: HashInput -> string, mac: Option<string -> string>)

  ghost predicate Hashes(c: Crypto) {
    forall x :: |c.digest(x)| == HASH_LENGTH
  }

  datatype ChainRow = ChainRow(id: nat, row: Row, prevHash: string, recordHash: string, hmac: string)

  datatype ChainError =
    | LegacyRowSkipped(id: nat)
    | BadGenesis(id: nat)
    | BrokenChain(id: nat)
    | BadRecordHash(id: nat)
    | BadHmac(id: nat)

  // ------------------------------------------------------------------
  // Writing
  // ------------------------------------------------------------------

  function OutcomeText(o: AuditOutcome): string {
    match o case Ok => "ok" case Error => "error"
  }

  function TextOr(o: Option<string>): string {
    match o case None => "" case Some(s) => s
  }

  function Fields(row: Row): seq<string> {
    [row.occurredAt, row.event.actor, row.event.action, TextOr(row.event.target),
     OutcomeText(row.event.outcome), TextOr(row.event.details)]
  }

  // Each field after a colon.
  function Joined(fields: seq<string>): string {
    if fields == [] then "" else ":" + fields[0] + Joined(fields[1..])
  }

  function HashedText(prevHash: string, row: Row): string {
    prevHash + Joined(Fields(row))
  }

  function RecordHash(c: Crypto, id: nat, prevHash: string, row: Row): string {
    c.digest(HashInput(id, HashedText(prevHash, row)))
  }

  function Hmac(c: Crypto, recordHash: string): string {
    match c.mac case None => "" case Some(mac) => mac(recordHash)
  }

  // The row that gets inserted after table t.  Nothing is ever deleted, so the next
  // id is one more than the number of rows.
  function Linked(c: Crypto, t: seq<ChainRow>, row: Row): ChainRow {
    var id := |t| + 1;
    if row.via == Channel then ChainRow(id, row, "", "", "")
    else
      var prev := if t != [] && t[|t| - 1].recordHash != "" then t[|t| - 1].recordHash else Genesis();
      var hash := RecordHash(c, id, prev, row);
      ChainRow(id, row, prev, hash, Hmac(c, hash))
  }

  function Table(c: Crypto, rows: seq<Row>): (t: seq<ChainRow>)
    ensures |t| == |rows|
  {
    if rows == [] then []
    else
      var t := Table(c, rows[..|rows| - 1]);
      t + [Linked(c, t, rows[|rows| - 1])]
  }

  // ------------------------------------------------------------------
  // Verifying
  // ------------------------------------------------------------------

  predicate IsLegacy(r: ChainRow) {
    r.prevHash == "" && r.recordHash == ""
  }

  // What is wrong with a row, given the hash of the one before it if there is one.
  function RowError(c: Crypto, before: Option<string>, r: ChainRow): Option<ChainError> {
    if IsLegacy(r) then Some(if before.Some? then BrokenChain(r.id) else LegacyRowSkipped(r.id))
    else if before.None? && r.prevHash != Genesis() then Some(BadGenesis(r.id))
    else if before.Some? && r.prevHash != before.value then Some(BrokenChain(r.id))
    else if RecordHash(c, r.id, r.prevHash, r.row) != r.recordHash then Some(BadRecordHash(r.id))
    else if c.mac.Some? && Hmac(c, r.recordHash) != r.hmac then Some(BadHmac(r.id))
    else None
  }

  function HashBefore(t: seq<ChainRow>, i: nat): Option<string>
    requires i <= |t|
  {
    if i == 0 then None else Some(t[i - 1].recordHash)
  }

  function ErrorAt(c: Crypto, t: seq<ChainRow>, i: nat): Option<ChainError>
    requires i < |t|
  {
    RowError(c, HashBefore(t, i), t[i])
  }

  ghost predicate RowsCheckOut(c: Crypto, t: seq<ChainRow>, n: nat)
    requires n <= |t|
  {
    forall i: nat :: i < n ==> ErrorAt(c, t, i) == None
  }

  /** Reports the error of the first bad row, or none if every row checks out. */
  method VerifyChain(c: Crypto, t: seq<ChainRow>) returns (error: Option<ChainError>)
    ensures error == None <==> RowsCheckOut(c, t, |t|)
    ensures error.Some? ==>
      exists i: nat :: i < |t| && RowsCheckOut(c, t, i) && ErrorAt(c, t, i) == error
    ensures forall i: nat :: i < |t| && RowsCheckOut(c, t, i) && ErrorAt(c, t, i).Some? ==> error == ErrorAt(c, t, i)
  {
    var prevHash := Genesis();
    var firstSeen := false;
    for i := 0 to |t|
      invariant RowsCheckOut(c, t, i)
      invariant firstSeen <==> 0 < i
      invariant firstSeen ==> Some(prevHash) == HashBefore(t, i)
    {
      var r := t[i];
      ghost var wrong := ErrorAt(c, t, i);
      if r.prevHash == "" && r.recordHash == "" {
        if firstSeen {
          assert wrong == Some(BrokenChain(r.id));
          return Some(BrokenChain(r.id));
        }
        assert wrong == Some(LegacyRowSkipped(r.id));
        return Some(LegacyRowSkipped(r.id));
      }
      if !firstSeen {
        if r.prevHash != Genesis() {
          assert wrong == Some(BadGenesis(r.id));
          return Some(BadGenesis(r.id));
        }
        firstSeen := true;
      } else if r.prevHash != prevHash {
        assert wrong == Some(BrokenChain(r.id));
        return Some(BrokenChain(r.id));
      }
      if RecordHash(c, r.id, r.prevHash, r.row) != r.recordHash {
        assert wrong == Some(BadRecordHash(r.id));
        return Some(BadRecordHash(r.id));
      }
      if c.mac.Some? && Hmac(c, r.recordHash) != r.hmac {
        assert wrong == Some(BadHmac(r.id));
        return Some(BadHmac(r.id));
      }
      prevHash := r.recordHash;
    }
    return None;
  }

  // ------------------------------------------------------------------
  // When a table the server wrote verifies
  // ------------------------------------------------------------------

  ghost predicate NoFlushedRow(rows: seq<Row>, n: nat)
    requires n <= |rows|
  {
    forall i: nat :: i < n ==> rows[i].via != Channel
  }

  lemma {:induction false} TablePrefix(c: Crypto, rows: seq<Row>, n: nat)
    requires n <= |rows|
    ensures Table(c, rows)[..n] == Table(c, rows[..n])
    decreases |rows|
  {
    if n == |rows| {
      assert rows[..n] == rows;
    } else {
      var front := rows[..|rows| - 1];
      TablePrefix(c, front, n);
      assert front[..n] == rows[..n];
    }
  }

  lemma TableAt(c: Crypto, rows: seq<Row>, i: nat)
    requires i < |rows|
    ensures Table(c, rows)[i] == Linked(c, Table(c, rows[..i]), rows[i])
    ensures HashBefore(Table(c, rows), i) == HashBefore(Table(c, rows[..i]), i)
  {
    TablePrefix(c, rows, i);
    TablePrefix(c, rows, i + 1);
    assert rows[..i + 1][..i] == rows[..i];
    assert Table(c, rows)[i] == Table(c, rows)[..i + 1][i];
    if i > 0 {
      assert Table(c, rows)[i - 1] == Table(c, rows)[..i][i - 1];
    }
  }

  lemma RecordedRowChecksOut(c: Crypto, rows: seq<Row>, i: nat)
    requires Hashes(c) && i < |rows| && rows[i].via != Channel
    requires i > 0 ==> |Table(c, rows)[i - 1].recordHash| == HASH_LENGTH
    ensures ErrorAt(c, Table(c, rows), i) == None
    ensures |Table(c, rows)[i].recordHash| == HASH_LENGTH
  {
    TableAt(c, rows, i);
    TablePrefix(c, rows, i);
    var t := Table(c, rows[..i]);
    if i > 0 {
      assert t[i - 1] == Table(c, rows)[i - 1];
    }
  }

  // Recorded rows check out as long as only recorded rows come before them.
  lemma {:induction false} RecordedRowsCheckOut(c: Crypto, rows: seq<Row>, n: nat)
    requires Hashes(c) && n <= |rows| && NoFlushedRow(rows, n)
    ensures RowsCheckOut(c, Table(c, rows), n)
    ensures forall i: nat :: i < n ==> |Table(c, rows)[i].recordHash| == HASH_LENGTH
    decreases n
  {
    if n > 0 {
      RecordedRowsCheckOut(c, rows, n - 1);
      RecordedRowChecksOut(c, rows, n - 1);
    }
  }

  /** The first flushed row of a table the server wrote is the first error: reported
      as a legacy row if it is the oldest of all, and as a break in the chain if not. */
  lemma FirstFlushedRowIsReported(c: Crypto, rows: seq<Row>, i: nat)
    requires Hashes(c) && i < |rows| && NoFlushedRow(rows, i) && rows[i].via == Channel
    ensures RowsCheckOut(c, Table(c, rows), i)
    ensures ErrorAt(c, Table(c, rows), i) == Some(if i == 0 then LegacyRowSkipped(1) else BrokenChain(i + 1))
  {
    RecordedRowsCheckOut(c, rows, i);
    TableAt(c, rows, i);
  }

  lemma FlushedRowIsWrong(c: Crypto, rows: seq<Row>, i: nat)
    requires i < |rows| && rows[i].via == Channel
    ensures ErrorAt(c, Table(c, rows), i) != None
  {
    TableAt(c, rows, i);
  }

  /** A table written by the server verifies if and only if it holds no flushed row. */
  lemma ChainVerifiesExactlyWithoutFlushes(c: Crypto, rows: seq<Row>)
    requires Hashes(c)
    ensures RowsCheckOut(c, Table(c, rows), |rows|) <==> NoFlushedRow(rows, |rows|)
  {
    if NoFlushedRow(rows, |rows|) {
      RecordedRowsCheckOut(c, rows, |rows|);
    } else {
      var i: nat :| i < |rows| && rows[i].via == Channel;
      FlushedRowIsWrong(c, rows, i);
    }
  }

  lemma {:induction false} FlushedRowsShow(log: seq<Row>)
    ensures AuditRuns.RowsVia(log, Channel) == [] <==> NoFlushedRow(log, |log|)
  {
    if log != [] {
      FlushedRowsShow(log[..|log| - 1]);
    }
  }

  lemma {:induction false} CommittedFlushShows(flushes: seq<AuditRuns.Flush>)
    requires forall i :: 0 <= i < |flushes| ==> 0 < |flushes[i].events|
    ensures AuditRuns.EventsOf(flushes, true) == [] <==> forall i :: 0 <= i < |flushes| ==> !flushes[i].committed
  {
    if flushes != [] {
      CommittedFlushShows(flushes[..|flushes| - 1]);
    }
  }

  /** In every run of the recorder, the audit log verifies if and only if no batch has
      committed yet. */
  lemma RunVerifiesUntilFirstFlush(c: Crypto, config: AuditRuns.Config, s: AuditRuns.State)
    requires Hashes(c) && AuditRuns.Reached(config, s)
    ensures RowsCheckOut(c, Table(c, s.log), |s.log|)
       <==> forall i :: 0 <= i < |s.flushes| ==> !s.flushes[i].committed
  {
    AuditRuns.ReachedInv(config, s);
    ChainVerifiesExactlyWithoutFlushes(c, s.log);
    FlushedRowsShow(s.log);
    CommittedFlushShows(s.flushes);
  }

  // ------------------------------------------------------------------
  // What a verified chain pins down
  // ------------------------------------------------------------------

  // What the row's record hash is the hash of.
  function InputOf(r: ChainRow): HashInput {
    HashInput(r.id, HashedText(r.prevHash, r.row))
  }

  ghost predicate Collide(c: Crypto, a: ChainRow, b: ChainRow) {
    InputOf(a) != InputOf(b) && c.digest(InputOf(a)) == c.digest(InputOf(b))
  }

  predicate HashesToGenesis(c: Crypto, r: ChainRow) {
    c.digest(InputOf(r)) == Genesis()
  }

  // A row of one table and a row of the other collide, or a row of either hashes to
  // the hash that stands before the first row.
  ghost predicate ShowsWeakness(c: Crypto, s: seq<ChainRow>, t: seq<ChainRow>) {
    || (exists i: nat, j: nat :: i < |s| && j < |t| && Collide(c, s[i], t[j]))
    || (exists i: nat :: i < |s| && HashesToGenesis(c, s[i]))
    || (exists j: nat :: j < |t| && HashesToGenesis(c, t[j]))
  }

  lemma PrevHashLength(c: Crypto, t: seq<ChainRow>, i: nat)
    requires Hashes(c) && i < |t| && RowsCheckOut(c, t, |t|)
    ensures |t[i].prevHash| == HASH_LENGTH && RecordHash(c, t[i].id, t[i].prevHash, t[i].row) == t[i].recordHash
    ensures t[i].prevHash == if i == 0 then Genesis() else t[i - 1].recordHash
  {
    assert ErrorAt(c, t, i) == None;
    if i > 0 {
      assert ErrorAt(c, t, i - 1) == None;
    }
  }

  // All that a row's hash covers, and the hash.
  datatype Contents = Contents(id: nat, prevHash: string, recordHash: string, text: string)

  function ContentsOf(r: ChainRow): Contents {
    Contents(r.id, r.prevHash, r.recordHash, Joined(Fields(r.row)))
  }

  lemma SplitAt(a: string, x: string, b: string, y: string)
    requires |a| == |b| && a + x == b + y
    ensures a == b && x == y
  {
    assert (a + x)[..|a|] == a && (b + y)[..|a|] == b;
    assert (a + x)[|a|..] == x && (b + y)[|a|..] == y;
  }

  lemma SameInputSameContents(a: ChainRow, b: ChainRow)
    requires InputOf(a) == InputOf(b) && |a.prevHash| == |b.prevHash| && a.recordHash == b.recordHash
    ensures ContentsOf(a) == ContentsOf(b)
  {
    SplitAt(a.prevHash, Joined(Fields(a.row)), b.prevHash, Joined(Fields(b.row)));
  }

  // The last rows agree, and so do the last hashes of what is before them.
  lemma LastRowsAgree(c: Crypto, s: seq<ChainRow>, t: seq<ChainRow>)
    requires Hashes(c) && RowsCheckOut(c, s, |s|) && RowsCheckOut(c, t, |t|) && !ShowsWeakness(c, s, t)
    requires s != [] && t != [] && s[|s| - 1].recordHash == t[|t| - 1].recordHash
    ensures ContentsOf(s[|s| - 1]) == ContentsOf(t[|t| - 1])
    ensures |s| == 1 <==> |t| == 1
    ensures 1 < |s| && 1 < |t| ==> s[|s| - 2].recordHash == t[|t| - 2].recordHash
  {
    var m, n := |s| - 1, |t| - 1;
    PrevHashLength(c, s, m);
    PrevHashLength(c, t, n);
    assert !Collide(c, s[m], t[n]);
    SameInputSameContents(s[m], t[n]);
    if m > 0 {
      PrevHashLength(c, s, m - 1);
      assert !HashesToGenesis(c, s[m - 1]);
    }
    if n > 0 {
      PrevHashLength(c, t, n - 1);
      assert !HashesToGenesis(c, t[n - 1]);
    }
  }

  ghost predicate TablesAgree(s: seq<ChainRow>, t: seq<ChainRow>) {
    |s| == |t| && forall i: nat :: i < |s| ==> ContentsOf(s[i]) == ContentsOf(t[i])
  }

  lemma ShorterShowsNoMore(c: Crypto, s: seq<ChainRow>, t: seq<ChainRow>)
    requires s != [] && t != [] && !ShowsWeakness(c, s, t)
    ensures !ShowsWeakness(c, s[..|s| - 1], t[..|t| - 1])
  {
    var u, v := s[..|s| - 1], t[..|t| - 1];
    forall i: nat, j: nat | i < |u| && j < |v| ensures !Collide(c, u[i], v[j]) {
      assert !Collide(c, s[i], t[j]);
    }
    forall i: nat | i < |u| ensures !HashesToGenesis(c, u[i]) {
      assert !HashesToGenesis(c, s[i]);
    }
    forall j: nat | j < |v| ensures !HashesToGenesis(c, v[j]) {
      assert !HashesToGenesis(c, t[j]);
    }
  }

  lemma {:induction false} NoWeaknessNoDifference(c: Crypto, s: seq<ChainRow>, t: seq<ChainRow>)
    requires Hashes(c) && RowsCheckOut(c, s, |s|) && RowsCheckOut(c, t, |t|) && !ShowsWeakness(c, s, t)
    requires s != [] && t != [] && s[|s| - 1].recordHash == t[|t| - 1].recordHash
    ensures TablesAgree(s, t)
    decreases |s|
  {
    LastRowsAgree(c, s, t);
    if |s| > 1 {
      var u, v := s[..|s| - 1], t[..|t| - 1];
      Shorter(c, s);
      Shorter(c, t);
      ShorterShowsNoMore(c, s, t);
      NoWeaknessNoDifference(c, u, v);
      forall i: nat | i < |s| ensures ContentsOf(s[i]) == ContentsOf(t[i]) {
        assert i < |s| - 1 ==> ContentsOf(u[i]) == ContentsOf(v[i]) && u[i] == s[i] && v[i] == t[i];
      }
    }
  }

  /** Of two tables that verify and end in the same record hash, either all rows are
      the same, so that nothing has been removed, added, reordered or altered before
      that hash, or the two tables themselves hold a collision of the hash or a row
      that hashes to the genesis hash. */
  lemma LastHashFixesTable(c: Crypto, s: seq<ChainRow>, t: seq<ChainRow>)
    requires Hashes(c) && RowsCheckOut(c, s, |s|) && RowsCheckOut(c, t, |t|)
    requires s != [] && t != [] && s[|s| - 1].recordHash == t[|t| - 1].recordHash
    ensures TablesAgree(s, t) || ShowsWeakness(c, s, t)
  {
    if !ShowsWeakness(c, s, t) {
      NoWeaknessNoDifference(c, s, t);
    }
  }

  lemma Shorter(c: Crypto, t: seq<ChainRow>)
    requires 1 < |t| && RowsCheckOut(c, t, |t|)
    ensures RowsCheckOut(c, t[..|t| - 1], |t| - 1)
  {
    var u := t[..|t| - 1];
    forall i: nat | i < |u| ensures ErrorAt(c, u, i) == None {
      assert ErrorAt(c, t, i) == None;
      assert HashBefore(u, i) == HashBefore(t, i);
    }
  }
}
