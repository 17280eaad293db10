/** The life of an operation in the journal, over every sequence of transitions that are
    asked for. */
module RollbackJournal {
  import opened Rollback

  /** Every transition that is allowed. */
  lemma TransitionsExactly(from: OperationStatus, to: OperationStatus)
    ensures IsValidTransition(from, to) <==>
              match to
              case Prepared => false
              case Writing => from == Prepared
              case Committing => from == Writing
              case Committed => from == Committing
              case RolledBack => from == Prepared || from == Writing || from == Committed
              case Failed => from == Prepared || from == Writing || from == Committing
  {
  }

  // A transition that somebody asks for; the database may fail.
  datatype Move = Move(id: string, to: OperationStatus, dbFails: bool)

  function AfterMoves(rows: map<string, Operation>, moves: seq<Move>): map<string, Operation> {
    if moves == [] then rows
    else
      var last := moves[|moves| - 1];
      Moved(AfterMoves(rows, moves[..|moves| - 1]), last.id, last.to, last.dbFails)
  }

  lemma {:induction false} RowsStay(rows: map<string, Operation>, moves: seq<Move>)
    ensures AfterMoves(rows, moves).Keys == rows.Keys
    ensures forall id :: id in rows ==> AfterMoves(rows, moves)[id].effect == rows[id].effect
  {
    if moves != [] {
      RowsStay(rows, moves[..|moves| - 1]);
    }
  }

  /** An operation that has been rolled back or has failed stays as it is, whatever is
      asked for. */
  lemma {:induction false} EndedOperationsStay(rows: map<string, Operation>, moves: seq<Move>, id: string)
    requires id in rows && (rows[id].status == RolledBack || rows[id].status == Failed)
    ensures id in AfterMoves(rows, moves) && AfterMoves(rows, moves)[id] == rows[id]
  {
    if moves != [] {
      EndedOperationsStay(rows, moves[..|moves| - 1], id);
      TransitionsExactly(rows[id].status, moves[|moves| - 1].to);
    }
  }

  /** An operation that is committed in the end was so at the start, or was committing
      when it was asked to be. */
  lemma {:induction false} CommittedFromCommitting(rows: map<string, Operation>, moves: seq<Move>, id: string)
    returns (k: nat)
    requires id in rows && rows[id].status != Committed
    requires id in AfterMoves(rows, moves) && AfterMoves(rows, moves)[id].status == Committed
    ensures k < |moves| && moves[k] == Move(id, Committed, false)
    ensures id in AfterMoves(rows, moves[..k]) && AfterMoves(rows, moves[..k])[id].status == Committing
  {
    var n := |moves| - 1;
    RowsStay(rows, moves[..n]);
    if AfterMoves(rows, moves[..n])[id].status == Committed {
      k := CommittedFromCommitting(rows, moves[..n], id);
      assert moves[..n][..k] == moves[..k];
    } else {
      k := n;
      TransitionsExactly(AfterMoves(rows, moves[..n])[id].status, moves[n].to);
    }
  }

  function MovesAlong(id: string, path: seq<OperationStatus>): seq<Move> {
    seq(|path|, i requires 0 <= i < |path| => Move(id, path[i], false))
  }

  function LastOf(from: OperationStatus, path: seq<OperationStatus>): OperationStatus {
    if path == [] then from else path[|path| - 1]
  }

  // Every status follows the one before it.
  predicate IsPath(from: OperationStatus, path: seq<OperationStatus>) {
    path == [] ||
    (IsPath(from, path[..|path| - 1]) && IsValidTransition(LastOf(from, path[..|path| - 1]), path[|path| - 1]))
  }

  lemma {:induction false} PathIsFollowed(rows: map<string, Operation>, id: string, path: seq<OperationStatus>)
    requires id in rows && IsPath(rows[id].status, path)
    ensures AfterMoves(rows, MovesAlong(id, path)) == rows[id := rows[id].(status := LastOf(rows[id].status, path))]
  {
    if path == [] {
      assert rows == rows[id := rows[id].(status := rows[id].status)];
    } else {
      var front := path[..|path| - 1];
      PathIsFollowed(rows, id, front);
      assert MovesAlong(id, path)[..|front|] == MovesAlong(id, front);
    }
  }

  lemma PathsGrow(from: OperationStatus, path: seq<OperationStatus>, to: OperationStatus)
    requires IsPath(from, path) && IsValidTransition(LastOf(from, path), to)
    ensures IsPath(from, path + [to])
  {
    assert (path + [to])[..|path|] == path;
  }

  /** From the start of a deployment to its rollback every step is open. */
  lemma WholeLifeIsOpen(rows: map<string, Operation>, id: string)
    requires id in rows && rows[id].status == Prepared
    ensures forall path :: path in {[Writing], [Writing, Committing], [Writing, Committing, Committed],
                                    [Writing, Committing, Committed, RolledBack]} ==>
              AfterMoves(rows, MovesAlong(id, path)) == rows[id := rows[id].(status := path[|path| - 1])]
  {
    PathsGrow(Prepared, [], Writing);
    assert [] + [Writing] == [Writing];
    PathsGrow(Prepared, [Writing], Committing);
    assert [Writing] + [Committing] == [Writing, Committing];
    PathsGrow(Prepared, [Writing, Committing], Committed);
    assert [Writing, Committing] + [Committed] == [Writing, Committing, Committed];
    PathsGrow(Prepared, [Writing, Committing, Committed], RolledBack);
    assert [Writing, Committing, Committed] + [RolledBack] == [Writing, Committing, Committed, RolledBack];
    PathIsFollowed(rows, id, [Writing]);
    PathIsFollowed(rows, id, [Writing, Committing]);
    PathIsFollowed(rows, id, [Writing, Committing, Committed]);
    PathIsFollowed(rows, id, [Writing, Committing, Committed, RolledBack]);
  }
}
