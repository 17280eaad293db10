/** What the audit chain holds and what verifying it checks, written out: the rows as the
    repository writes them, when a table verifies, and which error a bad row gives. */
module AuditVerify {
  import opened Wrappers
  import opened AuditRecorder
  import opened AuditChain

  // ------------------------------------------------------------------
  // The text that is hashed, and the rows that are written
  // ------------------------------------------------------------------

  function Colon(text: string, rest: string): string {
    text + ([':'] + rest)
  }

  function WrittenOut(prevHash: string, row: Row): string {
    var e := row.event;
    var target := if e.target.Some? then e.target.value else "";
    var outcome := if e.outcome == Ok then "ok" else "error";
    var details := if e.details.Some? then e.details.value else "";
    Colon(prevHash, Colon(row.occurredAt, Colon(e.actor, Colon(e.action, Colon(target, Colon(outcome, details))))))
  }

  lemma OneField(field: string, rest: seq<string>)
    ensures Joined([field] + rest) == [':'] + (field + Joined(rest))
  {
    assert ([field] + rest)[1..] == rest;
    assert (":" + field) + Joined(rest) == [':'] + (field + Joined(rest));
  }

  /** The hashed text is the hash before the row and its six fields, in this order, with
      colons between them. */
  lemma TextIsWrittenOut(prevHash: string, row: Row)
    ensures HashedText(prevHash, row) == WrittenOut(prevHash, row)
  {
    var fs := Fields(row);
    OneField(fs[5], []);
    OneField(fs[4], [fs[5]] + []);
    OneField(fs[3], [fs[4]] + ([fs[5]] + []));
    OneField(fs[2], [fs[3]] + ([fs[4]] + ([fs[5]] + [])));
    OneField(fs[1], [fs[2]] + ([fs[3]] + ([fs[4]] + ([fs[5]] + []))));
    OneField(fs[0], [fs[1]] + ([fs[2]] + ([fs[3]] + ([fs[4]] + ([fs[5]] + [])))));
    assert fs == [fs[0]] + ([fs[1]] + ([fs[2]] + ([fs[3]] + ([fs[4]] + ([fs[5]] + [])))));
    assert fs[5] + Joined([]) == fs[5];
  }

  predicate IsZeros(s: string) {
    |s| == 64 && forall i :: 0 <= i < |s| ==> s[i] == '0'
  }

  lemma ZerosAreGenesis(s: string)
    ensures IsZeros(s) <==> s == Genesis()
  {
  }

  /** The rows as they are written.  A flushed row has no hashes; a recorded one names the
      record hash of the row before it, or 64 zeros if it is the first or the row before
      it has none, and carries the digest of its text and, with a key, the MAC of that. */
  lemma RowAsWritten(c: Crypto, rows: seq<Row>, i: nat)
    requires Hashes(c) && i < |rows|
    ensures var t := Table(c, rows);
      && t[i].id == i + 1 && t[i].row == rows[i]
      && (rows[i].via == Channel ==> t[i].prevHash == "" && t[i].recordHash == "" && t[i].hmac == "")
      && (rows[i].via != Channel ==>
            && (if i == 0 || rows[i - 1].via == Channel then IsZeros(t[i].prevHash)
                else t[i].prevHash == t[i - 1].recordHash)
            && t[i].recordHash == c.digest(HashInput(i + 1, WrittenOut(t[i].prevHash, rows[i])))
            && t[i].hmac == match c.mac case None => "" case Some(mac) => mac(t[i].recordHash))
  {
    TableAt(c, rows, i);
    TablePrefix(c, rows, i);
    if i > 0 {
      TableAt(c, rows, i - 1);
      assert Table(c, rows[..i])[i - 1] == Table(c, rows)[i - 1];
      assert HASH_LENGTH > 0;
    }
    TextIsWrittenOut(Table(c, rows)[i].prevHash, rows[i]);
  }

  // ------------------------------------------------------------------
  // When a table verifies
  // ------------------------------------------------------------------

  predicate HasNoHashes(r: ChainRow) {
    r.prevHash == "" && r.recordHash == ""
  }

  // The row is linked to the one before it, or is the first and names the genesis hash.
  predicate IsLinked(t: seq<ChainRow>, i: nat)
    requires i < |t|
  {
    && !HasNoHashes(t[i])
    && if i == 0 then IsZeros(t[i].prevHash) else t[i].prevHash == t[i - 1].recordHash
  }

  predicate HasItsDigest(c: Crypto, r: ChainRow) {
    c.digest(HashInput(r.id, WrittenOut(r.prevHash, r.row))) == r.recordHash
  }

  predicate HasItsMac(c: Crypto, r: ChainRow) {
    c.mac.Some? ==> c.mac.value(r.recordHash) == r.hmac
  }

  /** Which error a row gives, and that it names that row. */
  lemma ErrorsExactly(c: Crypto, t: seq<ChainRow>, i: nat)
    requires i < |t|
    ensures var e, r := ErrorAt(c, t, i), t[i];
      && (e == Some(LegacyRowSkipped(r.id)) <==> i == 0 && HasNoHashes(r))
      && (e == Some(BadGenesis(r.id)) <==> i == 0 && !HasNoHashes(r) && !IsZeros(r.prevHash))
      && (e == Some(BrokenChain(r.id)) <==> i > 0 && (HasNoHashes(r) || r.prevHash != t[i - 1].recordHash))
      && (e == Some(BadRecordHash(r.id)) <==> IsLinked(t, i) && !HasItsDigest(c, r))
      && (e == Some(BadHmac(r.id)) <==> IsLinked(t, i) && HasItsDigest(c, r) && !HasItsMac(c, r))
      && (e == None <==> IsLinked(t, i) && HasItsDigest(c, r) && HasItsMac(c, r))
  {
    TextIsWrittenOut(t[i].prevHash, t[i].row);
    ZerosAreGenesis(t[i].prevHash);
  }

  /** A table verifies if and only if its first row names the genesis hash and each later
      row the record hash of the row before it, no row is without hashes, every record
      hash is the digest of its row and, with a key, every HMAC the key's MAC of it. */
  lemma VerifiesExactly(c: Crypto, t: seq<ChainRow>)
    ensures RowsCheckOut(c, t, |t|) <==>
              forall i: nat :: i < |t| ==> IsLinked(t, i) && HasItsDigest(c, t[i]) && HasItsMac(c, t[i])
  {
    forall i: nat | i < |t|
      ensures ErrorAt(c, t, i) == None <==> IsLinked(t, i) && HasItsDigest(c, t[i]) && HasItsMac(c, t[i])
    {
      ErrorsExactly(c, t, i);
    }
  }

  // No row before i is bad, and this is what is wrong with row i.
  ghost predicate IsFirstError(c: Crypto, t: seq<ChainRow>, i: nat, e: ChainError) {
    i < |t| && RowsCheckOut(c, t, i) && ErrorAt(c, t, i) == Some(e)
  }

  /** With a key, replacing the HMAC of one row of a table that verifies makes that row the
      first bad one, by its HMAC. */
  lemma ForgedHmacIsReported(c: Crypto, t: seq<ChainRow>, i: nat, forged: string)
    requires c.mac.Some? && RowsCheckOut(c, t, |t|) && i < |t| && forged != t[i].hmac
    ensures IsFirstError(c, t[i := t[i].(hmac := forged)], i, BadHmac(t[i].id))
  {
    var t' := t[i := t[i].(hmac := forged)];
    VerifiesExactly(c, t);
    ErrorsExactly(c, t', i);
    forall k: nat | k < i ensures ErrorAt(c, t', k) == None {
      assert ErrorAt(c, t, k) == None;
      assert HashBefore(t', k) == HashBefore(t, k);
    }
  }

  /** Altering what a row says, without finding a collision, is reported as a bad record
      hash of that row. */
  lemma AlteredRowIsReported(c: Crypto, t: seq<ChainRow>, i: nat, altered: Row)
    requires RowsCheckOut(c, t, |t|) && i < |t|
    requires var r := t[i].(row := altered); c.digest(InputOf(r)) != c.digest(InputOf(t[i]))
    ensures IsFirstError(c, t[i := t[i].(row := altered)], i, BadRecordHash(t[i].id))
  {
    var t' := t[i := t[i].(row := altered)];
    VerifiesExactly(c, t);
    ErrorsExactly(c, t', i);
    TextIsWrittenOut(t[i].prevHash, t[i].row);
    TextIsWrittenOut(t[i].prevHash, altered);
    forall k: nat | k < i ensures ErrorAt(c, t', k) == None {
      assert ErrorAt(c, t, k) == None;
      assert HashBefore(t', k) == HashBefore(t, k);
    }
  }

  /** Taking out a row that is not the last breaks the chain at the row after it, unless
      two rows have the same record hash. */
  lemma RemovedRowIsReported(c: Crypto, t: seq<ChainRow>, i: nat)
    requires RowsCheckOut(c, t, |t|) && 0 < i && i + 1 < |t| && t[i].recordHash != t[i - 1].recordHash
    ensures IsFirstError(c, t[..i] + t[i + 1..], i, BrokenChain(t[i + 1].id))
  {
    var t' := t[..i] + t[i + 1..];
    VerifiesExactly(c, t);
    assert IsLinked(t, i + 1);
    ErrorsExactly(c, t', i);
    assert t'[i] == t[i + 1] && t'[i - 1] == t[i - 1];
    forall k: nat | k < i ensures ErrorAt(c, t', k) == None {
      assert ErrorAt(c, t, k) == None;
      assert HashBefore(t', k) == HashBefore(t, k);
    }
  }
}
