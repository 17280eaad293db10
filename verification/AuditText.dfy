/** The text that a row's record hash covers: its fields joined by colons.  Which rows
    it fixes. */
module AuditText {
  import opened Wrappers
  import opened AuditRecorder
  import opened AuditChain
  import opened Segments
  import opened Texts

  // The fields after the timestamp.
  function Body(r: Row): seq<string> {
    [r.event.actor, r.event.action, TextOr(r.event.target), OutcomeText(r.event.outcome), TextOr(r.event.details)]
  }

  predicate SameText(a: Row, b: Row) {
    Joined(Fields(a)) == Joined(Fields(b))
  }

  // Every row whose timestamp is as long and whose text is the same has the same
  // fields, where an absent target or absent details read as empty ones.
  ghost predicate TextFixes(a: Row) {
    forall b: Row :: |b.occurredAt| == |a.occurredAt| && SameText(a, b) ==> Fields(a) == Fields(b)
  }

  predicate IsOutcome(s: string) {
    s == "ok" || s == "error"
  }

  predicate IsPlain(r: Row) {
    ':' !in r.event.actor && ':' !in r.event.action && ':' !in TextOr(r.event.target)
  }

  // Some piece of the details other than the last reads as an outcome.
  predicate HasInnerOutcome(details: string) {
    exists i :: 0 <= i < |Cut(details, ':')| - 1 && IsOutcome(Cut(details, ':')[i])
  }

  // ------------------------------------------------------------------
  // Texts as pieces
  // ------------------------------------------------------------------

  lemma {:induction false} JoinedIsJoin(fields: seq<string>)
    requires fields != []
    ensures Joined(fields) == [':'] + Join(fields, ':')
  {
    if |fields| == 1 {
      assert Joined(fields[1..]) == "";
      assert ":" + fields[0] + "" == [':'] + fields[0];
    } else {
      JoinedIsJoin(fields[1..]);
      assert ":" + fields[0] + ([':'] + Join(fields[1..], ':')) == [':'] + (fields[0] + ([':'] + Join(fields[1..], ':')));
    }
  }

  lemma TextOfRow(r: Row)
    ensures Joined(Fields(r)) == [':'] + (r.occurredAt + ([':'] + Join(Body(r), ':')))
  {
    var f := Fields(r);
    JoinedIsJoin(f);
    assert f[1..] == Body(r);
  }

  // Rows with timestamps of one length have the same text exactly when the timestamps
  // and the pieces after them are the same.
  lemma SameTextExactly(a: Row, b: Row)
    requires |a.occurredAt| == |b.occurredAt|
    ensures SameText(a, b) <==> a.occurredAt == b.occurredAt && CutAll(Body(a), ':') == CutAll(Body(b), ':')
  {
    TextOfRow(a);
    TextOfRow(b);
    var x, y := [':'] + Join(Body(a), ':'), [':'] + Join(Body(b), ':');
    if SameText(a, b) {
      SplitAt([':'], a.occurredAt + x, [':'], b.occurredAt + y);
      SplitAt(a.occurredAt, x, b.occurredAt, y);
      SplitAt([':'], Join(Body(a), ':'), [':'], Join(Body(b), ':'));
    }
    SameJoinExactly(Body(a), Body(b), ':');
  }

  // The pieces of the texts before and after the outcome.
  function Before(r: Row): seq<string> {
    Cut(r.event.actor, ':') + (Cut(r.event.action, ':') + Cut(TextOr(r.event.target), ':'))
  }

  function After(r: Row): seq<string> {
    Cut(TextOr(r.event.details), ':')
  }

  lemma OutcomeIsOnePiece(o: AuditOutcome)
    ensures Cut(OutcomeText(o), ':') == [OutcomeText(o)] && IsOutcome(OutcomeText(o))
  {
    assert ':' !in "ok" && ':' !in "error";
    match o
    case Ok => CutWithoutSeparator("ok", ':');
    case Error => CutWithoutSeparator("error", ':');
  }

  lemma CutAllFirst(text: string, rest: seq<string>)
    ensures CutAll([text] + rest, ':') == Cut(text, ':') + CutAll(rest, ':')
  {
    assert ([text] + rest)[1..] == rest;
  }

  lemma PiecesOfRow(r: Row)
    ensures CutAll(Body(r), ':') == Before(r) + ([OutcomeText(r.event.outcome)] + After(r))
  {
    var f := Body(r);
    assert f == [f[0]] + ([f[1]] + ([f[2]] + ([f[3]] + ([f[4]] + []))));
    CutAllFirst(f[0], [f[1]] + ([f[2]] + ([f[3]] + ([f[4]] + []))));
    CutAllFirst(f[1], [f[2]] + ([f[3]] + ([f[4]] + [])));
    CutAllFirst(f[2], [f[3]] + ([f[4]] + []));
    CutAllFirst(f[3], [f[4]] + []);
    CutAllFirst(f[4], []);
    OutcomeIsOnePiece(r.event.outcome);
    FourPieces(Cut(f[0], ':'), Cut(f[1], ':'), Cut(f[2], ':'), [f[3]], Cut(f[4], ':'));
  }

  lemma FourPieces(a: seq<string>, b: seq<string>, c: seq<string>, d: seq<string>, e: seq<string>)
    ensures a + (b + (c + (d + (e + [])))) == (a + (b + c)) + (d + e)
  {
  }

  // ------------------------------------------------------------------
  // A row that its text fixes
  // ------------------------------------------------------------------

  lemma PlainPieces(r: Row)
    requires IsPlain(r)
    ensures Before(r) == [r.event.actor, r.event.action, TextOr(r.event.target)]
  {
    CutWithoutSeparator(r.event.actor, ':');
    CutWithoutSeparator(r.event.action, ':');
    CutWithoutSeparator(TextOr(r.event.target), ':');
  }

  lemma ThreePiecesArePlain(r: Row)
    requires |Before(r)| == 3
    ensures IsPlain(r)
  {
    CutWithoutSeparator(r.event.actor, ':');
    CutWithoutSeparator(r.event.action, ':');
    CutWithoutSeparator(TextOr(r.event.target), ':');
  }

  // A list of pieces with three before an outcome, compared with another reading of
  // the same list.
  lemma OutcomePlace(a: seq<string>, o: string, d: seq<string>, b: seq<string>, p: string, e: seq<string>)
    requires a + ([o] + d) == b + ([p] + e) && |a| == 3 <= |b| && e != []
    ensures |b| > 3 ==> |b| - 4 < |d| - 1 && d[|b| - 4] == p
    ensures |b| == 3 ==> a == b && o == p && d == e
  {
    var s, t := a + ([o] + d), b + ([p] + e);
    assert t[|b|] == p;
    if |b| > 3 {
      assert s[|b|] == d[|b| - 4];
    } else {
      assert s[..3] == a && t[..3] == b && s[3] == o && s[4..] == d && t[4..] == e;
    }
  }

  lemma PlainTextFixes(a: Row, b: Row)
    requires IsPlain(a) && !HasInnerOutcome(TextOr(a.event.details))
    requires |b.occurredAt| == |a.occurredAt| && SameText(a, b)
    ensures Fields(a) == Fields(b)
  {
    SameTextExactly(a, b);
    PiecesOfRow(a);
    PiecesOfRow(b);
    PlainPieces(a);
    OutcomeIsOnePiece(b.event.outcome);
    var o, p := OutcomeText(a.event.outcome), OutcomeText(b.event.outcome);
    OutcomePlace(Before(a), o, After(a), Before(b), p, After(b));
    ThreePieces(a, b);
  }

  lemma ThreePieces(a: Row, b: Row)
    requires IsPlain(a) && a.occurredAt == b.occurredAt && Before(b) == Before(a) && After(a) == After(b)
    requires OutcomeText(a.event.outcome) == OutcomeText(b.event.outcome)
    ensures Fields(a) == Fields(b)
  {
    PlainPieces(a);
    ThreePiecesArePlain(b);
    PlainPieces(b);
    CutIsInjective(TextOr(a.event.details), TextOr(b.event.details), ':');
    assert Before(a)[0] == Before(b)[0] && Before(a)[1] == Before(b)[1] && Before(a)[2] == Before(b)[2];
  }

  // ------------------------------------------------------------------
  // A row that its text does not fix
  // ------------------------------------------------------------------

  function WithFields(r: Row, actor: string, action: string, target: string, outcome: AuditOutcome, details: string): Row {
    r.(event := AuditEvent(r.event.occurredAt, actor, action, Some(target), outcome, Some(details)))
  }

  // A different row with the same text and timestamp.
  ghost predicate IsTwin(a: Row, b: Row) {
    a.occurredAt == b.occurredAt && SameText(a, b) && Fields(a) != Fields(b)
  }

  lemma TwinByPieces(a: Row, b: Row)
    requires a.occurredAt == b.occurredAt
    requires Before(a) + ([OutcomeText(a.event.outcome)] + After(a)) == Before(b) + ([OutcomeText(b.event.outcome)] + After(b))
    ensures SameText(a, b)
  {
    PiecesOfRow(a);
    PiecesOfRow(b);
    SameTextExactly(a, b);
  }

  // Slices of a text's pieces, joined again, cut into just those pieces.
  lemma CutOfSlices(s: string, i: nat, o: string)
    requires i < |Cut(s, ':')| - 1 && Cut(o, ':') == [o]
    ensures Cut(Join([o] + Cut(s, ':')[..i], ':'), ':') == [o] + Cut(s, ':')[..i]
    ensures Cut(Join(Cut(s, ':')[i + 1..], ':'), ':') == Cut(s, ':')[i + 1..]
  {
    var pieces := Cut(s, ':');
    CutWithoutSeparator(o, ':');
    PiecesHaveNoSeparator(s, ':');
    CutOfPieces([o] + pieces[..i], ':');
    CutOfPieces(pieces[i + 1..], ':');
  }

  lemma Regroup(a: seq<string>, b: seq<string>, c: seq<string>, d: seq<string>)
    ensures (a + b) + (c + d) == a + ((b + c) + d)
  {
  }

  lemma ActorTwin(a: Row) returns (b: Row)
    requires ':' in a.event.actor
    ensures IsTwin(a, b)
  {
    var x, y := FirstSeparator(a.event.actor, ':');
    var e := a.event;
    b := WithFields(a, x, y + ([':'] + e.action), TextOr(e.target), e.outcome, TextOr(e.details));
    CutOfJoined(x, y, ':');
    CutOfJoined(y, e.action, ':');
    Regroup(Cut(x, ':'), Cut(y, ':'), Cut(e.action, ':'), Cut(TextOr(e.target), ':'));
    TwinByPieces(a, b);
    assert Fields(a)[1] != Fields(b)[1];
  }

  lemma ActionTwin(a: Row) returns (b: Row)
    requires ':' in a.event.action
    ensures IsTwin(a, b)
  {
    var x, y := FirstSeparator(a.event.action, ':');
    var e := a.event;
    b := WithFields(a, e.actor + ([':'] + x), y, TextOr(e.target), e.outcome, TextOr(e.details));
    CutOfJoined(x, y, ':');
    CutOfJoined(e.actor, x, ':');
    Regroup(Cut(e.actor, ':'), Cut(x, ':'), Cut(y, ':'), Cut(TextOr(e.target), ':'));
    TwinByPieces(a, b);
    assert |Fields(a)[1]| < |Fields(b)[1]|;
  }

  lemma TargetTwin(a: Row) returns (b: Row)
    requires ':' in TextOr(a.event.target)
    ensures IsTwin(a, b)
  {
    var x, y := FirstSeparator(TextOr(a.event.target), ':');
    var e := a.event;
    b := WithFields(a, e.actor, e.action + ([':'] + x), y, e.outcome, TextOr(e.details));
    CutOfJoined(x, y, ':');
    CutOfJoined(e.action, x, ':');
    Associates(Cut(e.action, ':'), Cut(x, ':'), Cut(y, ':'));
    TwinByPieces(a, b);
    assert |Fields(a)[2]| < |Fields(b)[2]|;
  }

  // The outcome moves to piece i of the details, and what was between joins the target.
  function Moved(a: Row, i: nat): Row
    requires i < |After(a)| - 1
  {
    var e, o, pieces := a.event, OutcomeText(a.event.outcome), After(a);
    WithFields(a, e.actor, e.action, TextOr(e.target) + ([':'] + Join([o] + pieces[..i], ':')),
               if pieces[i] == "ok" then Ok else Error, Join(pieces[i + 1..], ':'))
  }

  lemma MovedPieces(a: Row, i: nat)
    requires i < |After(a)| - 1
    ensures After(Moved(a, i)) == After(a)[i + 1..]
    ensures Before(Moved(a, i)) == Cut(a.event.actor, ':') + (Cut(a.event.action, ':')
              + (Cut(TextOr(a.event.target), ':') + ([OutcomeText(a.event.outcome)] + After(a)[..i])))
  {
    var o := OutcomeText(a.event.outcome);
    OutcomeIsOnePiece(a.event.outcome);
    CutOfSlices(TextOr(a.event.details), i, o);
    CutOfJoined(TextOr(a.event.target), Join([o] + After(a)[..i], ':'), ':');
  }

  lemma MovedSharesText(a: Row, i: nat)
    requires i < |After(a)| - 1 && IsOutcome(After(a)[i])
    ensures SameText(a, Moved(a, i))
  {
    MovedPieces(a, i);
    MovedOutcome(Cut(a.event.actor, ':'), Cut(a.event.action, ':'), Cut(TextOr(a.event.target), ':'),
                 [OutcomeText(a.event.outcome)], After(a), i);
    assert OutcomeText(Moved(a, i).event.outcome) == After(a)[i];
    TwinByPieces(a, Moved(a, i));
  }

  lemma DetailsTwin(a: Row, i: nat)
    requires i < |After(a)| - 1 && IsOutcome(After(a)[i])
    ensures IsTwin(a, Moved(a, i))
  {
    MovedSharesText(a, i);
    assert |Fields(a)[3]| < |Fields(Moved(a, i))[3]|;
  }

  lemma MovedOutcome(x: seq<string>, y: seq<string>, z: seq<string>, o: seq<string>, d: seq<string>, i: nat)
    requires i < |d|
    ensures (x + (y + z)) + (o + d) == (x + (y + (z + (o + d[..i])))) + ([d[i]] + d[i + 1..])
  {
    assert d == d[..i] + ([d[i]] + d[i + 1..]);
  }

  // ------------------------------------------------------------------
  // The exact condition
  // ------------------------------------------------------------------

  /** The hashed text fixes a row's fields, among all rows with timestamps of that
      length, exactly when its actor, action and target hold no colon and no piece of
      its details but the last reads as an outcome. */
  lemma TextFixesExactly(a: Row)
    ensures TextFixes(a) <==> IsPlain(a) && !HasInnerOutcome(TextOr(a.event.details))
  {
    if IsPlain(a) && !HasInnerOutcome(TextOr(a.event.details)) {
      forall b: Row | |b.occurredAt| == |a.occurredAt| && SameText(a, b) ensures Fields(a) == Fields(b) {
        PlainTextFixes(a, b);
      }
    }
    if TextFixes(a) {
      if ':' in a.event.actor {
        var b := ActorTwin(a);
      }
      if ':' in a.event.action {
        var b := ActionTwin(a);
      }
      if ':' in TextOr(a.event.target) {
        var b := TargetTwin(a);
      }
      if HasInnerOutcome(TextOr(a.event.details)) {
        var i :| 0 <= i < |After(a)| - 1 && IsOutcome(After(a)[i]);
        DetailsTwin(a, i);
      }
    }
  }

  /** Two rows whose actor, action and target hold no colon never share a text, unless
      all their fields are the same. */
  lemma TextFixesPlainRows(a: Row, b: Row)
    requires IsPlain(a) && IsPlain(b) && |a.occurredAt| == |b.occurredAt| && SameText(a, b)
    ensures Fields(a) == Fields(b)
  {
    SameTextExactly(a, b);
    PiecesOfRow(a);
    PiecesOfRow(b);
    PlainPieces(a);
    PlainPieces(b);
    OutcomePlace(Before(a), OutcomeText(a.event.outcome), After(a), Before(b), OutcomeText(b.event.outcome), After(b));
    ThreePieces(a, b);
  }

  /** Such rows: their fields hold colons, they differ, and their texts are the same. */
  lemma ColonsMakeTextAmbiguous(at: string)
    ensures var a := Row(AuditEvent(at, "a:b", "c", None, Ok, None), Sync, at);
      var b := Row(AuditEvent(at, "a", "b:c", None, Ok, None), Sync, at);
      a != b && SameText(a, b)
  {
    var a := Row(AuditEvent(at, "a:b", "c", None, Ok, None), Sync, at);
    var b := Row(AuditEvent(at, "a", "b:c", None, Ok, None), Sync, at);
    assert "a:b" == "a" + ([':'] + "b") && "b:c" == "b" + ([':'] + "c");
    CutOfJoined("a", "b", ':');
    CutOfJoined("b", "c", ':');
    assert Before(a) == Before(b);
    TwinByPieces(a, b);
  }
}
