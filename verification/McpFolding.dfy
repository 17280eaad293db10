/** Double-quoted scalars under YAML 1.1 (sections 5.4 and 9.1.1): a decoder that folds
    line breaks, of which there are more than in YAML 1.2, and what it makes of a string
    that the MCP manifest printer has quoted. */
module McpFolding {
  import opened Wrappers
  import opened McpScalar
  import opened Texts

  // ------------------------------------------------------------------
  // Breaks and blanks
  // ------------------------------------------------------------------

  const NEXT_LINE: char := '\U{0085}'

  // Line and paragraph separators; folding keeps them.
  predicate IsSeparator(c: char) {
    c == '\U{2028}' || c == '\U{2029}'
  }

  predicate IsBreak(c: char) {
    c == '\n' || c == '\r' || c == NEXT_LINE || IsSeparator(c)
  }

  predicate IsSpacing(c: char) {
    c == ' ' || c == '\t' || IsBreak(c)
  }

  // How much blanks and breaks a text begins with.
  function SpacingLength(s: string): (n: nat)
    ensures n <= |s|
    ensures forall i :: 0 <= i < n ==> IsSpacing(s[i])
    ensures n < |s| ==> !IsSpacing(s[n])
  {
    if s == "" || !IsSpacing(s[0]) then 0 else 1 + SpacingLength(s[1..])
  }

  // The first break takes two characters if it is a carriage return and a line feed.
  function BreakLength(s: string): (n: nat)
    requires s != ""
    ensures 1 <= n <= |s|
  {
    if s[0] == '\r' && |s| > 1 && s[1] == '\n' then 2 else 1
  }

  // The breaks among them, in order, as folding sees them.
  function Breaks(spacing: string): (r: string)
    ensures |r| <= |spacing|
  {
    if spacing == "" then ""
    else if !IsBreak(spacing[0]) then Breaks(spacing[1..])
    else
      [if IsSeparator(spacing[0]) then spacing[0] else '\n'] + Breaks(spacing[BreakLength(spacing)..])
  }

  // A stretch of blanks and breaks as read: blanks alone stay; otherwise they go, and
  // the first break becomes a space if it stands alone and nothing if it does not,
  // unless it is a separator.
  function Fold(spacing: string): string {
    var breaks := Breaks(spacing);
    if breaks == "" then spacing
    else if breaks[0] != '\n' then breaks
    else if |breaks| == 1 then " "
    else breaks[1..]
  }

  predicate EndsLine(spacing: string) {
    spacing != "" && IsBreak(spacing[|spacing| - 1])
  }

  predicate BeginsWithThree(s: string, c: char) {
    |s| >= 3 && s[0] == c && s[1] == c && s[2] == c
  }

  // A line may not begin with a document marker, not even inside quotes.
  predicate IsMarker(s: string) {
    (BeginsWithThree(s, '-') || BeginsWithThree(s, '.')) && (|s| == 3 || IsSpacing(s[3]))
  }

  // ------------------------------------------------------------------
  // The decoder
  // ------------------------------------------------------------------

  function Prefixed(text: string, rest: Option<string>): Option<string> {
    match rest
    case None => None
    case Some(s) => Some(text + s)
  }

  // What follows the opening quote, up to a closing quote that ends it.
  function Folded(s: string, lineStart: bool): Option<string>
    decreases |s|
  {
    if s == "" || (lineStart && IsMarker(s)) then None
    else if s[0] == '"' then if |s| == 1 then Some("") else None
    else if IsSpacing(s[0]) then
      var n := SpacingLength(s);
      Prefixed(Fold(s[..n]), Folded(s[n..], EndsLine(s[..n])))
    else if s[0] == '\\' && |s| > 1 && IsBreak(s[1]) then
      var n := SpacingLength(s[1..]);
      Prefixed(Breaks(s[1 + BreakLength(s[1..])..1 + n]), Folded(s[1 + n..], EndsLine(s[1..1 + n])))
    else if s[0] == '\\' then
      match DecodedEscape(s[1..])
      case None => None
      case Some((c, n)) => Prefixed([c], Folded(s[1 + n..], false))
    else Prefixed([s[0]], Folded(s[1..], false))
  }

  function Unquoted11(s: string): Option<string> {
    if s != "" && s[0] == '"' then Folded(s[1..], false) else None
  }

  // ------------------------------------------------------------------
  // What it makes of a quoted string
  // ------------------------------------------------------------------

  // The blanks and breaks that the printer does not escape.
  predicate IsLoose(c: char) {
    c == ' ' || c == NEXT_LINE || IsSeparator(c)
  }

  function LooseLength(s: string): (n: nat)
    ensures n <= |s|
    ensures forall i :: 0 <= i < n ==> IsLoose(s[i])
    ensures n < |s| ==> !IsLoose(s[n])
  {
    if s == "" || !IsLoose(s[0]) then 0 else 1 + LooseLength(s[1..])
  }

  // What a marker in the string looks like; a control character after the hyphens or
  // dots is escaped, and at the end of the string comes the quote.
  predicate LooksLikeMarker(s: string) {
    (BeginsWithThree(s, '-') || BeginsWithThree(s, '.')) && |s| > 3 && IsLoose(s[3])
  }

  // The string as it is read back: blanks and breaks that are loose are folded.
  function AsRead(s: string, lineStart: bool): Option<string>
    decreases |s|
  {
    if lineStart && LooksLikeMarker(s) then None
    else if s == "" then Some("")
    else if IsLoose(s[0]) then
      var n := LooseLength(s);
      Prefixed(Fold(s[..n]), AsRead(s[n..], EndsLine(s[..n])))
    else Prefixed([s[0]], AsRead(s[1..], false))
  }

  // A quoted string without its opening quote.
  function Tail(s: string): string {
    EscapedAll(s) + ['"']
  }

  lemma TailUnfolds(s: string)
    requires s != ""
    ensures Tail(s) == Escaped(s[0]) + Tail(s[1..])
  {
    Associates(Escaped(s[0]), EscapedAll(s[1..]), ['"']);
  }

  lemma TailBegins(s: string)
    ensures Tail(s) != ""
    ensures s == "" ==> Tail(s) == ['"']
    ensures s != "" ==> Tail(s)[0] == if Escaped(s[0]) == [s[0]] then s[0] else '\\'
    ensures s != "" && Escaped(s[0]) == [s[0]] ==> Tail(s)[1..] == Tail(s[1..])
    ensures IsSpacing(Tail(s)[0]) <==> s != "" && IsLoose(s[0])
  {
    if s != "" {
      TailUnfolds(s);
    }
  }

  lemma OneMore(s: string, t: string, n: nat)
    requires s != "" && t != "" && s[0] == t[0] && n < |s| && n < |t| && s[1..][..n] == t[1..][..n]
    ensures s[..n + 1] == t[..n + 1] && s[n + 1..] == s[1..][n..] && t[n + 1..] == t[1..][n..]
  {
    assert s[..n + 1] == [s[0]] + s[1..][..n];
    assert t[..n + 1] == [t[0]] + t[1..][..n];
  }

  // A run of loose characters stands raw in the text.
  ghost predicate StandsRaw(s: string, t: string, n: nat) {
    n <= |s| && n <= |t| && s[..n] == t[..n] && t[n..] == Tail(s[n..])
  }

  lemma {:induction false} LooseRunIsRaw(s: string)
    ensures SpacingLength(Tail(s)) == LooseLength(s) && StandsRaw(s, Tail(s), LooseLength(s))
  {
    TailBegins(s);
    if s != "" && IsLoose(s[0]) {
      LooseRunIsRaw(s[1..]);
      OneMore(s, Tail(s), LooseLength(s[1..]));
    }
  }

  lemma ThreeInTail(s: string, c: char)
    requires c == '-' || c == '.'
    ensures BeginsWithThree(Tail(s), c) <==> BeginsWithThree(s, c)
    ensures BeginsWithThree(s, c) ==> Tail(s)[3..] == Tail(s[3..])
  {
    TailBegins(s);
    if s != "" && s[0] == c {
      var s1 := s[1..];
      TailBegins(s1);
      if s1 != "" && s1[0] == c {
        var s2 := s1[1..];
        TailBegins(s2);
        if s2 != "" && s2[0] == c {
          assert Tail(s)[3..] == Tail(s2)[1..] && s2[1..] == s[3..];
        }
      }
    }
  }

  lemma MarkersAgree(s: string)
    ensures IsMarker(Tail(s)) <==> LooksLikeMarker(s)
  {
    ThreeInTail(s, '-');
    ThreeInTail(s, '.');
    if BeginsWithThree(s, '-') || BeginsWithThree(s, '.') {
      TailBegins(s[3..]);
    }
  }

  lemma SimpleEscapeIsRead(x: char, c: char, rest: string)
    requires HexEscapeLength(x) == 0 && SimpleEscape(x) == Some(c) && !IsBreak(x)
    ensures Folded(['\\', x] + rest, false) == Prefixed([c], Folded(rest, false))
  {
    var s := ['\\', x] + rest;
    assert s[1..] == [x] + rest && s[2..] == rest;
    assert DecodedEscape(s[1..]) == Some((c, 1));
  }

  lemma HexEscapeIsRead(c: char, rest: string)
    requires IsControl(c)
    ensures Folded(HexEscape(c) + rest, false) == Prefixed([c], Folded(rest, false))
  {
    var e := HexEscape(c);
    var s := e + rest;
    TwoHexDigits(c, e[2], e[3]);
    assert s[1..][1..3] == [e[2], e[3]] && s[4..] == rest;
    assert DecodedEscape(s[1..]) == Some((c, 3));
  }

  lemma PlainCharacterIsRead(c: char, rest: string)
    requires c != '"' && c != '\\' && !IsSpacing(c)
    ensures Folded([c] + rest, false) == Prefixed([c], Folded(rest, false))
  {
    assert ([c] + rest)[1..] == rest;
  }

  lemma EscapeIsRead(c: char, rest: string)
    requires !IsLoose(c)
    ensures Folded(Escaped(c) + rest, false) == Prefixed([c], Folded(rest, false))
  {
    match c
    case '"' => SimpleEscapeIsRead('"', c, rest);
    case '\\' => SimpleEscapeIsRead('\\', c, rest);
    case '\n' => SimpleEscapeIsRead('n', c, rest);
    case '\r' => SimpleEscapeIsRead('r', c, rest);
    case '\t' => SimpleEscapeIsRead('t', c, rest);
    case '\0' => SimpleEscapeIsRead('0', c, rest);
    case _ => if IsControl(c) { HexEscapeIsRead(c, rest); } else { PlainCharacterIsRead(c, rest); }
  }

  lemma MarkerOnlyAtStart(s: string)
    requires !IsMarker(s)
    ensures Folded(s, true) == Folded(s, false)
  {
  }

  lemma {:induction false} FoldedTail(s: string, lineStart: bool)
    ensures Folded(Tail(s), lineStart) == AsRead(s, lineStart)
    decreases |s|
  {
    MarkersAgree(s);
    TailBegins(s);
    if !(lineStart && LooksLikeMarker(s)) {
      if lineStart {
        MarkerOnlyAtStart(Tail(s));
      }
      if s != "" {
        if IsLoose(s[0]) {
          LooseRunIsRaw(s);
          var n := LooseLength(s);
          FoldedTail(s[n..], EndsLine(s[..n]));
        } else {
          TailUnfolds(s);
          EscapeIsRead(s[0], Tail(s[1..]));
          FoldedTail(s[1..], false);
        }
      }
    }
  }

  lemma QuotedIsRead(s: string)
    ensures Unquoted11(Quoted(s)) == AsRead(s, false)
  {
    FoldedTail(s, false);
    assert Quoted(s)[1..] == Tail(s);
  }

  // ------------------------------------------------------------------
  // Which strings are refused
  // ------------------------------------------------------------------

  // After character i a line of the scalar begins with a document marker.
  predicate MarksAt(s: string, i: nat)
    requires i < |s|
  {
    (s[i] == NEXT_LINE || IsSeparator(s[i])) && LooksLikeMarker(s[i + 1..])
  }

  ghost predicate HasMarker(s: string) {
    exists i: nat :: i < |s| && MarksAt(s, i)
  }

  lemma MarksLater(s: string, n: nat, i: nat)
    requires n <= i < |s|
    ensures MarksAt(s[n..], i - n) <==> MarksAt(s, i)
  {
    assert s[n..][i - n + 1..] == s[i + 1..];
  }

  lemma MarkersInParts(s: string, n: nat)
    requires 0 < n <= |s| && forall i :: 0 <= i < n - 1 ==> !MarksAt(s, i)
    ensures HasMarker(s) <==> MarksAt(s, n - 1) || HasMarker(s[n..])
  {
    if HasMarker(s[n..]) {
      var i: nat :| i < |s| - n && MarksAt(s[n..], i);
      MarksLater(s, n, n + i);
    }
    if HasMarker(s) && !MarksAt(s, n - 1) {
      var i: nat :| i < |s| && MarksAt(s, i);
      MarksLater(s, n, i);
    }
  }

  lemma LooseRunEnds(s: string)
    requires s != "" && IsLoose(s[0])
    ensures var n := LooseLength(s);
      && 0 < n && (EndsLine(s[..n]) <==> s[n - 1] == NEXT_LINE || IsSeparator(s[n - 1]))
      && forall i :: 0 <= i < n - 1 ==> !MarksAt(s, i)
  {
  }

  /** A quoted string is refused exactly when a line of it begins with a document
      marker; */
  lemma {:induction false} RefusedExactly(s: string, lineStart: bool)
    ensures AsRead(s, lineStart) == None <==> (lineStart && LooksLikeMarker(s)) || HasMarker(s)
    decreases |s|
  {
    if !(lineStart && LooksLikeMarker(s)) && s != "" {
      if IsLoose(s[0]) {
        LooseRunEnds(s);
        var n := LooseLength(s);
        RefusedExactly(s[n..], EndsLine(s[..n]));
        MarkersInParts(s, n);
      } else {
        RefusedExactly(s[1..], false);
        MarkersInParts(s, 1);
      }
    }
  }

  // ------------------------------------------------------------------
  // Which strings come back
  // ------------------------------------------------------------------

  ghost predicate AllSpaces(s: string) {
    forall i :: 0 <= i < |s| ==> s[i] == ' '
  }

  ghost predicate AllSeparators(s: string) {
    forall i :: 0 <= i < |s| ==> IsSeparator(s[i])
  }

  lemma {:induction false} BreaksAreAll(run: string)
    requires forall i :: 0 <= i < |run| ==> IsLoose(run[i])
    ensures Breaks(run) == "" <==> AllSpaces(run)
    ensures Breaks(run) == run <==> AllSeparators(run)
  {
    if run != "" {
      var rest := run[1..];
      BreaksAreAll(rest);
      assert run == [run[0]] + rest;
      if IsBreak(run[0]) {
        assert Breaks(run)[1..] == Breaks(rest);
      }
    }
  }

  lemma FoldKeeps(run: string)
    requires run != "" && forall i :: 0 <= i < |run| ==> IsLoose(run[i])
    ensures |Fold(run)| <= |run|
    ensures Fold(run) == run <==> AllSpaces(run) || AllSeparators(run)
  {
    BreaksAreAll(run);
    if |Breaks(run)| == 1 && Breaks(run)[0] == '\n' && |run| == 1 {
      assert IsBreak(run[0]);
    }
  }

  lemma {:induction false} NeverLonger(s: string, lineStart: bool)
    ensures AsRead(s, lineStart).Some? ==> |AsRead(s, lineStart).value| <= |s|
    decreases |s|
  {
    if !(lineStart && LooksLikeMarker(s)) && s != "" {
      if IsLoose(s[0]) {
        var n := LooseLength(s);
        FoldKeeps(s[..n]);
        NeverLonger(s[n..], EndsLine(s[..n]));
      } else {
        NeverLonger(s[1..], false);
      }
    }
  }

  // Both parts come back only if each does.
  lemma PartsComeBack(s: string, n: nat, first: string, rest: Option<string>)
    requires n <= |s| && |first| <= n && (rest.Some? ==> |rest.value| <= |s| - n)
    ensures Prefixed(first, rest) == Some(s) <==> first == s[..n] && rest == Some(s[n..])
  {
    assert s == s[..n] + s[n..];
    if Prefixed(first, rest) == Some(s) {
      assert |first| == n;
      assert s[..n] == first && s[n..] == rest.value;
    }
  }

  // Character i makes the string come back changed, or not at all: it is a next line,
  // a space beside a separator, or a break before a document marker.
  predicate SpoilsAt(s: string, i: nat)
    requires i < |s|
  {
    || s[i] == NEXT_LINE
    || (i + 1 < |s| && s[i] == ' ' && IsSeparator(s[i + 1]))
    || (i + 1 < |s| && IsSeparator(s[i]) && s[i + 1] == ' ')
    || MarksAt(s, i)
  }

  ghost predicate ComesBack(s: string) {
    forall i: nat :: i < |s| ==> !SpoilsAt(s, i)
  }

  lemma SpoilsLater(s: string, n: nat)
    requires n <= |s| && ComesBack(s)
    ensures ComesBack(s[n..])
  {
    forall i: nat | i < |s| - n ensures !SpoilsAt(s[n..], i) {
      MarksLater(s, n, n + i);
      assert !SpoilsAt(s, n + i);
    }
  }

  lemma {:induction false} UnspoiltRun(s: string, n: nat)
    requires n <= |s| && ComesBack(s) && forall i :: 0 <= i < n ==> IsLoose(s[i])
    ensures AllSpaces(s[..n]) || AllSeparators(s[..n])
  {
    if n > 0 {
      UnspoiltRun(s, n - 1);
      assert !SpoilsAt(s, n - 1);
      if n > 1 {
        assert !SpoilsAt(s, n - 2);
        assert s[..n - 1][n - 2] == s[n - 2];
      }
      assert s[..n] == s[..n - 1] + [s[n - 1]];
    }
  }

  // A string that begins with a loose run comes back if the run, what lies between,
  // and the rest do.
  lemma RunComesBack(s: string)
    requires s != "" && IsLoose(s[0])
    ensures var n := LooseLength(s);
      ComesBack(s) <==>
      (AllSpaces(s[..n]) || AllSeparators(s[..n])) && !(EndsLine(s[..n]) && LooksLikeMarker(s[n..])) && ComesBack(s[n..])
  {
    LooseRunEnds(s);
    var n := LooseLength(s);
    if ComesBack(s) {
      UnspoiltRun(s, n);
      SpoilsLater(s, n);
      assert !SpoilsAt(s, n - 1);
    } else {
      var i: nat :| i < |s| && SpoilsAt(s, i);
      if i >= n {
        MarksLater(s, n, i);
        assert i > n ==> s[n..][i - n] == s[i];
        assert SpoilsAt(s[n..], i - n);
      } else {
        assert s[..n][i] == s[i];
        assert i + 1 < n ==> s[..n][i + 1] == s[i + 1];
      }
    }
  }

  lemma FirstComesBack(s: string)
    requires s != "" && !IsLoose(s[0])
    ensures ComesBack(s) <==> ComesBack(s[1..])
  {
    if ComesBack(s) {
      SpoilsLater(s, 1);
    } else {
      var i: nat :| i < |s| && SpoilsAt(s, i);
      MarksLater(s, 1, i);
      assert SpoilsAt(s[1..], i - 1);
    }
  }

  /** and it is read back as it was exactly when it holds no next line, no space beside
      a separator, and no line that begins with a document marker. */
  lemma {:induction false} ComesBackExactly(s: string, lineStart: bool)
    ensures AsRead(s, lineStart) == Some(s) <==> !(lineStart && LooksLikeMarker(s)) && ComesBack(s)
    decreases |s|
  {
    if !(lineStart && LooksLikeMarker(s)) && s != "" {
      if IsLoose(s[0]) {
        var n := LooseLength(s);
        ComesBackExactly(s[n..], EndsLine(s[..n]));
        NeverLonger(s[n..], EndsLine(s[..n]));
        FoldKeeps(s[..n]);
        PartsComeBack(s, n, Fold(s[..n]), AsRead(s[n..], EndsLine(s[..n])));
        RunComesBack(s);
      } else {
        ComesBackExactly(s[1..], false);
        NeverLonger(s[1..], false);
        PartsComeBack(s, 1, [s[0]], AsRead(s[1..], false));
        FirstComesBack(s);
      }
    }
  }
}
