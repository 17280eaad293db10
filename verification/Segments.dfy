/** Cutting a text at every occurrence of a separator, and joining the pieces again. */
module Segments {
  import opened Texts

  // The character put before the first piece.
  function Prepend(c: char, pieces: seq<string>): (r: seq<string>)
    requires pieces != []
    ensures |r| == |pieces|
  {
    [[c] + pieces[0]] + pieces[1..]
  }

  // The pieces between separators; there is always at least one.
  function Cut(s: string, sep: char): (pieces: seq<string>)
    ensures |pieces| >= 1
  {
    if s == "" then [""]
    else if s[0] == sep then [""] + Cut(s[1..], sep)
    else Prepend(s[0], Cut(s[1..], sep))
  }

  function Join(pieces: seq<string>, sep: char): string
    requires pieces != []
  {
    if |pieces| == 1 then pieces[0] else pieces[0] + ([sep] + Join(pieces[1..], sep))
  }

  lemma PrependConcat(c: char, a: seq<string>, b: seq<string>)
    requires a != []
    ensures Prepend(c, a + b) == Prepend(c, a) + b
  {
    assert (a + b)[1..] == a[1..] + b;
  }

  lemma {:induction false} CutOfJoined(a: string, b: string, sep: char)
    ensures Cut(a + ([sep] + b), sep) == Cut(a, sep) + Cut(b, sep)
  {
    var s := a + ([sep] + b);
    if a == "" {
      assert s == [sep] + b && s[1..] == b;
    } else {
      CutOfJoined(a[1..], b, sep);
      assert s[0] == a[0] && s[1..] == a[1..] + ([sep] + b);
      if a[0] == sep {
        Associates([""], Cut(a[1..], sep), Cut(b, sep));
      } else {
        PrependConcat(a[0], Cut(a[1..], sep), Cut(b, sep));
      }
    }
  }

  lemma {:induction false} CutWithoutSeparator(s: string, sep: char)
    ensures sep !in s <==> |Cut(s, sep)| == 1
    ensures sep !in s ==> Cut(s, sep) == [s]
  {
    if s != "" {
      CutWithoutSeparator(s[1..], sep);
      assert s == [s[0]] + s[1..];
    }
  }

  lemma JoinOfPrepended(c: char, pieces: seq<string>, sep: char)
    requires pieces != []
    ensures Join(Prepend(c, pieces), sep) == [c] + Join(pieces, sep)
  {
    assert Prepend(c, pieces)[1..] == pieces[1..];
    if |pieces| > 1 {
      assert ([c] + pieces[0]) + ([sep] + Join(pieces[1..], sep)) == [c] + (pieces[0] + ([sep] + Join(pieces[1..], sep)));
    }
  }

  lemma {:induction false} JoinOfCut(s: string, sep: char)
    ensures Join(Cut(s, sep), sep) == s
  {
    if s != "" {
      JoinOfCut(s[1..], sep);
      assert s == [s[0]] + s[1..];
      if s[0] == sep {
        assert Cut(s, sep)[1..] == Cut(s[1..], sep);
        assert "" + ([sep] + s[1..]) == s;
      } else {
        JoinOfPrepended(s[0], Cut(s[1..], sep), sep);
      }
    }
  }

  /** Cutting loses nothing. */
  lemma CutIsInjective(a: string, b: string, sep: char)
    requires Cut(a, sep) == Cut(b, sep)
    ensures a == b
  {
    JoinOfCut(a, sep);
    JoinOfCut(b, sep);
  }

  lemma {:induction false} JoinOfConcat(a: seq<string>, b: seq<string>, sep: char)
    requires a != [] && b != []
    ensures Join(a + b, sep) == Join(a, sep) + ([sep] + Join(b, sep))
  {
    assert (a + b)[0] == a[0] && (a + b)[1..] == a[1..] + b;
    if |a| == 1 {
      assert a[1..] + b == b;
    } else {
      JoinOfConcat(a[1..], b, sep);
      var x, y := Join(a[1..], sep), Join(b, sep);
      assert a[0] + ([sep] + (x + ([sep] + y))) == (a[0] + ([sep] + x)) + ([sep] + y);
    }
  }

  /** A text with a separator, taken apart at its first one. */
  lemma {:induction false} FirstSeparator(s: string, sep: char) returns (before: string, after: string)
    requires sep in s
    ensures s == before + ([sep] + after) && sep !in before
  {
    if s[0] == sep {
      before, after := "", s[1..];
      assert s == [sep] + s[1..];
    } else {
      before, after := FirstSeparator(s[1..], sep);
      before := [s[0]] + before;
    }
  }

  // The pieces of several texts, one after the other.
  function CutAll(texts: seq<string>, sep: char): seq<string> {
    if texts == [] then [] else Cut(texts[0], sep) + CutAll(texts[1..], sep)
  }

  lemma {:induction false} CutOfJoin(texts: seq<string>, sep: char)
    requires texts != []
    ensures Cut(Join(texts, sep), sep) == CutAll(texts, sep)
  {
    if |texts| == 1 {
      assert CutAll(texts[1..], sep) == [];
      assert Cut(texts[0], sep) + [] == Cut(texts[0], sep);
    } else {
      CutOfJoin(texts[1..], sep);
      CutOfJoined(texts[0], Join(texts[1..], sep), sep);
    }
  }

  /** Two joined lists of texts are the same text exactly when their pieces are the
      same, however the pieces are spread over the texts. */
  lemma SameJoinExactly(a: seq<string>, b: seq<string>, sep: char)
    requires a != [] && b != []
    ensures Join(a, sep) == Join(b, sep) <==> CutAll(a, sep) == CutAll(b, sep)
  {
    CutOfJoin(a, sep);
    CutOfJoin(b, sep);
    if CutAll(a, sep) == CutAll(b, sep) {
      CutIsInjective(Join(a, sep), Join(b, sep), sep);
    }
  }

  ghost predicate ArePieces(pieces: seq<string>, sep: char) {
    forall i :: 0 <= i < |pieces| ==> sep !in pieces[i]
  }

  lemma {:induction false} PiecesHaveNoSeparator(s: string, sep: char)
    ensures ArePieces(Cut(s, sep), sep)
  {
    if s != "" {
      PiecesHaveNoSeparator(s[1..], sep);
      var rest := Cut(s[1..], sep);
      forall i | 0 <= i < |Cut(s, sep)| ensures sep !in Cut(s, sep)[i] {
        if s[0] == sep {
          assert i > 0 ==> Cut(s, sep)[i] == rest[i - 1];
        } else {
          assert i > 0 ==> Cut(s, sep)[i] == rest[i];
        }
      }
    }
  }

  lemma LonePiece(s: string, sep: char)
    requires sep !in s
    ensures Cut(s, sep) == [s]
  {
    CutWithoutSeparator(s, sep);
  }

  /** Joining pieces and cutting again gives them back. */
  lemma {:induction false} CutOfPieces(pieces: seq<string>, sep: char)
    requires pieces != [] && ArePieces(pieces, sep)
    ensures Cut(Join(pieces, sep), sep) == pieces
  {
    var first, rest := pieces[0], pieces[1..];
    assert sep !in first;
    if rest == [] {
      LonePiece(first, sep);
      assert pieces == [first];
    } else {
      assert ArePieces(rest, sep);
      CutOfPieces(rest, sep);
      LonePiece(first, sep);
      CutOfJoined(first, Join(rest, sep), sep);
      assert pieces == [first] + rest;
    }
  }

  // The pieces without the last.
  function Front(pieces: seq<string>): seq<string>
    requires pieces != []
  {
    pieces[..|pieces| - 1]
  }

  lemma FrontOfPrepended(c: char, pieces: seq<string>, more: seq<string>)
    requires |pieces| > 1
    ensures Front(Prepend(c, pieces)) != [] && Front(pieces) != []
    ensures Prepend(c, Front(pieces) + more) == Front(Prepend(c, pieces)) + more
  {
    assert Front(pieces)[0] == pieces[0];
    assert (Front(pieces) + more)[1..] == pieces[1..|pieces| - 1] + more;
  }

  /** What follows a text that is empty or ends in a separator is cut on its own. */
  lemma {:induction false} CutAfterSeparator(a: string, b: string, sep: char)
    requires a == "" || a[|a| - 1] == sep
    ensures Cut(a + b, sep) == Front(Cut(a, sep)) + Cut(b, sep)
    ensures a != "" ==> |Cut(a, sep)| > 1
  {
    if a == "" {
      assert a + b == b && [""][..0] + Cut(b, sep) == Cut(b, sep);
    } else {
      assert (a + b)[1..] == a[1..] + b;
      assert a[1..] == "" || a[1..][|a| - 2] == sep;
      CutAfterSeparator(a[1..], b, sep);
      var rest := Cut(a[1..], sep);
      if a[0] == sep {
        assert Front([""] + rest) == [""] + Front(rest);
        Associates([""], Front(rest), Cut(b, sep));
      } else {
        assert a[1..] != "";
        FrontOfPrepended(a[0], rest, Cut(b, sep));
      }
    }
  }
}
