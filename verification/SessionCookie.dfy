/** Reading the session id from a Cookie header, against the cookie-string of RFC 6265,
    section 4.2.1. */
module SessionCookie {
  import opened Wrappers
  import opened Segments

  const SESSION_COOKIE_NAME: string := "agency_session"

  const SESSION_COOKIE_MAX_AGE: string := "3600"

  // ------------------------------------------------------------------
  // The parser
  // ------------------------------------------------------------------

  // Header values that can be read as text: visible ASCII, spaces and tabs.
  predicate IsHeaderText(raw: string) {
    forall i :: 0 <= i < |raw| ==> ' ' <= raw[i] <= '~' || raw[i] == '\t'
  }

  predicate IsSpace(c: char) {
    c == ' ' || c == '\t'
  }

  function TrimStart(s: string): string {
    if s != "" && IsSpace(s[0]) then TrimStart(s[1..]) else s
  }

  function TrimEnd(s: string): string {
    if s != "" && IsSpace(s[|s| - 1]) then TrimEnd(s[..|s| - 1]) else s
  }

  function Trim(s: string): string {
    TrimEnd(TrimStart(s))
  }

  function FromPairs(pairs: seq<string>): Option<string> {
    if pairs == [] then None
    else
      var trimmed := Trim(pairs[0]);
      if SESSION_COOKIE_NAME <= trimmed then
        var rest := trimmed[|SESSION_COOKIE_NAME|..];
        if rest == "" || rest[0] != '=' then None
        else if rest[1..] == "" then None
        else Some(rest[1..])
      else FromPairs(pairs[1..])
  }

  function ParseSessionCookie(header: Option<string>): Option<string> {
    match header
    case None => None
    case Some(raw) => if IsHeaderText(raw) then FromPairs(Cut(raw, ';')) else None
  }

  // ------------------------------------------------------------------
  // Cookie strings
  // ------------------------------------------------------------------

  datatype Cookie = Cookie(name: string, value: string)

  predicate IsNameChar(c: char) {
    '!' <= c <= '~' && c != ';' && c != '='
  }

  // Every cookie-name is such a name, and every cookie-value such a value.
  predicate IsName(name: string) {
    name != "" && forall i :: 0 <= i < |name| ==> IsNameChar(name[i])
  }

  predicate IsValue(value: string) {
    forall i :: 0 <= i < |value| ==> '!' <= value[i] <= '~' && value[i] != ';'
  }

  ghost predicate AreCookies(cs: seq<Cookie>) {
    forall i :: 0 <= i < |cs| ==> IsName(cs[i].name) && IsValue(cs[i].value)
  }

  function Pair(c: Cookie): string {
    c.name + (['='] + c.value)
  }

  // The pairs, with a semicolon and a space between them.
  function CookieString(cs: seq<Cookie>): string {
    if cs == [] then "" else if |cs| == 1 then Pair(cs[0]) else Pair(cs[0]) + ([';', ' '] + CookieString(cs[1..]))
  }

  // What a reader of the header is after: the first cookie of that very name, if it
  // has a value.
  function Wanted(cs: seq<Cookie>): Option<string> {
    if cs == [] then None
    else if cs[0].name == SESSION_COOKIE_NAME then if cs[0].value == "" then None else Some(cs[0].value)
    else Wanted(cs[1..])
  }

  // A cookie whose name only begins with the session cookie's comes before it.
  predicate IsShadowed(cs: seq<Cookie>) {
    cs != [] && cs[0].name != SESSION_COOKIE_NAME &&
    (SESSION_COOKIE_NAME <= cs[0].name || IsShadowed(cs[1..]))
  }

  // --- one pair ----------------------------------------------------------

  ghost predicate IsSolid(s: string) {
    forall i :: 0 <= i < |s| ==> '!' <= s[i] <= '~' && s[i] != ';'
  }

  lemma PairIsSolid(c: Cookie)
    requires IsName(c.name) && IsValue(c.value)
    ensures IsSolid(Pair(c)) && Pair(c) != ""
  {
  }

  lemma CutFirst(s: string, rest: string)
    requires ';' !in s
    ensures Cut(s, ';') == [s]
    ensures Cut(s + ([';'] + rest), ';') == [s] + Cut(rest, ';')
  {
    CutWithoutSeparator(s, ';');
    CutOfJoined(s, rest, ';');
  }

  lemma SolidIsTrimmed(s: string)
    requires IsSolid(s) && s != ""
    ensures Trim(s) == s && Trim([' '] + s) == s
  {
    assert ([' '] + s)[1..] == s;
    assert TrimStart(s) == s && TrimStart([' '] + s) == TrimStart(s);
  }

  lemma PrefixOfPair(n: string, c: Cookie)
    requires '=' !in n
    ensures n <= Pair(c) <==> n <= c.name
  {
    var p := Pair(c);
    assert p[..|c.name|] == c.name && p[|c.name|] == '=';
    assert forall i :: 0 <= i < |n| ==> n[i] != '=';
    if n <= p {
      assert forall i :: 0 <= i < |n| ==> n[i] == p[i];
      assert |n| <= |c.name|;
      assert n == p[..|n|] == c.name[..|n|];
    }
    if n <= c.name {
      assert n == c.name[..|n|] == p[..|n|];
    }
  }

  lemma NameDecides(c: Cookie)
    requires IsName(c.name)
    ensures SESSION_COOKIE_NAME <= Pair(c) <==> SESSION_COOKIE_NAME <= c.name
    ensures c.name == SESSION_COOKIE_NAME ==> Pair(c)[|SESSION_COOKIE_NAME|..] == ['='] + c.value
    ensures SESSION_COOKIE_NAME <= c.name && c.name != SESSION_COOKIE_NAME ==>
              Pair(c)[|SESSION_COOKIE_NAME|..] != "" && Pair(c)[|SESSION_COOKIE_NAME|..][0] != '='
  {
    var n, p := SESSION_COOKIE_NAME, Pair(c);
    NameHasNoEquals();
    PrefixOfPair(n, c);
    if n <= c.name && c.name != n {
      assert |c.name| > |n|;
      assert p[|n|] == c.name[|n|] && IsNameChar(c.name[|n|]);
    }
  }

  lemma NameHasNoEquals()
    ensures '=' !in SESSION_COOKIE_NAME
  {
  }

  // --- the whole string ----------------------------------------------------

  // The parts of a cookie string: all but the first keep the space before them.
  function Parts(cs: seq<Cookie>, spaced: bool): seq<string> {
    if cs == [] then [] else [Spaced(spaced, Pair(cs[0]))] + Parts(cs[1..], true)
  }

  function Spaced(spaced: bool, s: string): string {
    if spaced then [' '] + s else s
  }

  lemma SpacedConcat(spaced: bool, a: string, b: string)
    ensures Spaced(spaced, a + ([';', ' '] + b)) == Spaced(spaced, a) + ([';'] + ([' '] + b))
  {
    assert [';', ' '] + b == [';'] + ([' '] + b);
  }

  lemma {:induction false} CutCookieString(cs: seq<Cookie>, spaced: bool)
    requires cs != [] && AreCookies(cs)
    ensures Cut(Spaced(spaced, CookieString(cs)), ';') == Parts(cs, spaced)
  {
    PairIsSolid(cs[0]);
    var part := Spaced(spaced, Pair(cs[0]));
    assert ';' !in part;
    if |cs| == 1 {
      CutFirst(part, "");
      assert Parts(cs[1..], true) == [];
    } else {
      assert AreCookies(cs[1..]);
      CutCookieString(cs[1..], true);
      CutFirst(part, [' '] + CookieString(cs[1..]));
      SpacedConcat(spaced, Pair(cs[0]), CookieString(cs[1..]));
    }
  }

  lemma {:induction false} CookieStringIsText(cs: seq<Cookie>)
    requires AreCookies(cs)
    ensures IsHeaderText(CookieString(cs))
  {
    if cs != [] {
      PairIsSolid(cs[0]);
      if |cs| > 1 {
        assert AreCookies(cs[1..]);
        CookieStringIsText(cs[1..]);
      }
    }
  }

  // Pieces that are those pairs once they are trimmed.
  ghost predicate TrimTo(pieces: seq<string>, cs: seq<Cookie>) {
    |pieces| == |cs| && forall i :: 0 <= i < |cs| ==> Trim(pieces[i]) == Pair(cs[i])
  }

  lemma {:induction false} TrimmedAreParsed(pieces: seq<string>, cs: seq<Cookie>)
    requires AreCookies(cs) && TrimTo(pieces, cs)
    ensures FromPairs(pieces) == if IsShadowed(cs) then None else Wanted(cs)
    decreases cs
  {
    if cs != [] {
      var c := cs[0];
      NameDecides(c);
      assert AreCookies(cs[1..]) && TrimTo(pieces[1..], cs[1..]);
      TrimmedAreParsed(pieces[1..], cs[1..]);
      assert (['='] + c.value)[1..] == c.value;
    }
  }

  lemma {:induction false} PartsTrim(cs: seq<Cookie>, spaced: bool)
    requires AreCookies(cs)
    ensures TrimTo(Parts(cs, spaced), cs)
  {
    if cs != [] {
      PairIsSolid(cs[0]);
      SolidIsTrimmed(Pair(cs[0]));
      assert AreCookies(cs[1..]);
      PartsTrim(cs[1..], true);
      assert Parts(cs, spaced)[1..] == Parts(cs[1..], true);
    }
  }

  /** Over all cookie strings, the parser gives the value of the first cookie named
      agency_session, except where a cookie before it has a name that goes on after
      those letters: then it gives nothing. */
  lemma ParseExactly(cs: seq<Cookie>)
    requires AreCookies(cs)
    ensures ParseSessionCookie(Some(CookieString(cs))) == if IsShadowed(cs) then None else Wanted(cs)
    ensures ParseSessionCookie(Some(CookieString(cs))) == Wanted(cs) <==> !(IsShadowed(cs) && Wanted(cs).Some?)
  {
    CookieStringIsText(cs);
    if cs == [] {
      assert Cut("", ';') == [""];
    } else {
      CutCookieString(cs, false);
      PartsTrim(cs, false);
      TrimmedAreParsed(Parts(cs, false), cs);
    }
  }

  // --- other blanks ----------------------------------------------------------

  // A pair with any spaces and tabs around it.
  datatype Padded = Padded(before: string, cookie: Cookie, after: string)

  ghost predicate IsBlank(s: string) {
    forall i :: 0 <= i < |s| ==> s[i] == ' ' || s[i] == '\t'
  }

  ghost predicate ArePadded(ps: seq<Padded>) {
    forall i :: 0 <= i < |ps| ==>
      IsBlank(ps[i].before) && IsBlank(ps[i].after) && IsName(ps[i].cookie.name) && IsValue(ps[i].cookie.value)
  }

  function Piece(p: Padded): string {
    p.before + (Pair(p.cookie) + p.after)
  }

  function Pieces(ps: seq<Padded>): seq<string> {
    seq(|ps|, i requires 0 <= i < |ps| => Piece(ps[i]))
  }

  function Cookies(ps: seq<Padded>): seq<Cookie> {
    seq(|ps|, i requires 0 <= i < |ps| => ps[i].cookie)
  }

  lemma {:induction false} TrimStartBlank(before: string, s: string)
    requires IsBlank(before) && s != "" && !IsSpace(s[0])
    ensures TrimStart(before + s) == s
  {
    if before == "" {
      assert before + s == s;
    } else {
      assert (before + s)[1..] == before[1..] + s;
      TrimStartBlank(before[1..], s);
    }
  }

  lemma {:induction false} TrimEndBlank(s: string, after: string)
    requires IsBlank(after) && s != "" && !IsSpace(s[|s| - 1])
    ensures TrimEnd(s + after) == s
    decreases |after|
  {
    if after == "" {
      assert s + after == s;
    } else {
      var n := |after| - 1;
      assert (s + after)[..|s + after| - 1] == s + after[..n];
      TrimEndBlank(s, after[..n]);
    }
  }

  lemma PieceIsTrimmed(p: Padded)
    requires IsBlank(p.before) && IsBlank(p.after) && IsName(p.cookie.name) && IsValue(p.cookie.value)
    ensures Trim(Piece(p)) == Pair(p.cookie)
    ensures ';' !in Piece(p) && IsHeaderText(Piece(p))
  {
    PairIsSolid(p.cookie);
    TrimStartBlank(p.before, Pair(p.cookie) + p.after);
    TrimEndBlank(Pair(p.cookie), p.after);
  }

  lemma {:induction false} JoinIsText(pieces: seq<string>)
    requires pieces != [] && forall i :: 0 <= i < |pieces| ==> IsHeaderText(pieces[i])
    ensures IsHeaderText(Join(pieces, ';'))
    decreases |pieces|
  {
    if |pieces| > 1 {
      JoinIsText(pieces[1..]);
    }
  }

  /** Spaces and tabs around the pairs make no difference. */
  lemma BlanksDoNotMatter(ps: seq<Padded>)
    requires ps != [] && ArePadded(ps)
    ensures ParseSessionCookie(Some(Join(Pieces(ps), ';'))) == if IsShadowed(Cookies(ps)) then None else Wanted(Cookies(ps))
  {
    forall i | 0 <= i < |ps|
      ensures Trim(Pieces(ps)[i]) == Pair(Cookies(ps)[i]) && ';' !in Pieces(ps)[i] && IsHeaderText(Pieces(ps)[i])
    {
      PieceIsTrimmed(ps[i]);
    }
    JoinIsText(Pieces(ps));
    CutOfPieces(Pieces(ps), ';');
    TrimmedAreParsed(Pieces(ps), Cookies(ps));
  }

  /** A header with any other character than visible ASCII, spaces and tabs has no
      session, and neither has a request without the header. */
  lemma OtherCharactersAreRefused(raw: string, i: nat)
    requires i < |raw| && !(32 <= raw[i] as int <= 126 || raw[i] as int == 9)
    ensures ParseSessionCookie(Some(raw)) == None && ParseSessionCookie(None) == None
  {
    assert !(' ' <= raw[i] <= '~' || raw[i] == '\t');
  }

  lemma SessionNameIsName()
    ensures IsName(SESSION_COOKIE_NAME)
  {
  }

  lemma CookiesConcat(a: seq<Cookie>, b: seq<Cookie>)
    requires AreCookies(a) && AreCookies(b)
    ensures AreCookies(a + b)
  {
  }

  /** The session id is read wherever it stands, if no name before it begins with
      agency_session. */
  lemma SessionIsFound(before: seq<Cookie>, value: string, after: seq<Cookie>)
    requires AreCookies(before) && AreCookies(after) && IsValue(value) && value != ""
    requires forall i :: 0 <= i < |before| ==> !(SESSION_COOKIE_NAME <= before[i].name)
    ensures ParseSessionCookie(Some(CookieString(before + [Cookie(SESSION_COOKIE_NAME, value)] + after))) == Some(value)
  {
    SessionNameIsName();
    CookiesConcat(before, [Cookie(SESSION_COOKIE_NAME, value)]);
    CookiesConcat(before + [Cookie(SESSION_COOKIE_NAME, value)], after);
    ParseExactly(before + [Cookie(SESSION_COOKIE_NAME, value)] + after);
    FoundAfter(before, value, after);
  }

  lemma {:induction false} FoundAfter(before: seq<Cookie>, value: string, after: seq<Cookie>)
    requires value != ""
    requires forall i :: 0 <= i < |before| ==> !(SESSION_COOKIE_NAME <= before[i].name)
    ensures var cs := before + [Cookie(SESSION_COOKIE_NAME, value)] + after;
      Wanted(cs) == Some(value) && !IsShadowed(cs)
  {
    var cs := before + [Cookie(SESSION_COOKIE_NAME, value)] + after;
    if before != [] {
      FoundAfter(before[1..], value, after);
      assert cs[1..] == before[1..] + [Cookie(SESSION_COOKIE_NAME, value)] + after;
      assert cs[0] == before[0];
    }
  }

  /** Such a string: the session cookie is there, and is not found. */
  lemma ShadowedSessionIsLost()
    ensures var cs := [Cookie(SESSION_COOKIE_NAME + "_old", "x"), Cookie(SESSION_COOKIE_NAME, "abc")];
      AreCookies(cs) && Wanted(cs) == Some("abc") && ParseSessionCookie(Some(CookieString(cs))) == None
  {
    var older, newer := Cookie(SESSION_COOKIE_NAME + "_old", "x"), Cookie(SESSION_COOKIE_NAME, "abc");
    SessionNameIsName();
    CookiesConcat([older], [newer]);
    assert [older] + [newer] == [older, newer] && [older, newer][1..] == [newer];
    assert |older.name| > |SESSION_COOKIE_NAME| && SESSION_COOKIE_NAME <= older.name;
    ParseExactly([older, newer]);
  }

  // ------------------------------------------------------------------
  // The header that sets the cookie
  // ------------------------------------------------------------------

  function MaxAge(secure: bool): string {
    var age := " Max-Age=" + SESSION_COOKIE_MAX_AGE;
    if secure then age + ([';'] + " Secure") else age
  }

  function Attributes(secure: bool): string {
    " HttpOnly" + ([';'] + (" SameSite=Strict" + ([';'] + (" Path=/" + ([';'] + MaxAge(secure))))))
  }

  function MakeSessionCookieHeader(sessionId: string, secure: bool): string {
    SESSION_COOKIE_NAME + (['='] + (sessionId + ([';'] + Attributes(secure))))
  }

  /** What a client keeps of the header, the text before its first semicolon, is a
      cookie string that gives the session id back. */
  lemma SetCookieRoundTrip(sessionId: string, secure: bool)
    requires IsValue(sessionId) && sessionId != ""
    ensures var header := MakeSessionCookieHeader(sessionId, secure);
      ParseSessionCookie(Some(Cut(header, ';')[0])) == Some(sessionId)
  {
    var c := Cookie(SESSION_COOKIE_NAME, sessionId);
    SessionNameIsName();
    PairThenRest(c, Attributes(secure));
    SessionIsFound([], sessionId, []);
    assert [] + [c] + [] == [c];
  }
  lemma CutFour(a: string, b: string, c: string, rest: string)
    requires ';' !in a && ';' !in b && ';' !in c
    ensures Cut(a + ([';'] + (b + ([';'] + (c + ([';'] + rest))))), ';') == [a, b, c] + Cut(rest, ';')
  {
    CutFirst(a, b + ([';'] + (c + ([';'] + rest))));
    CutFirst(b, c + ([';'] + rest));
    CutFirst(c, rest);
  }

  lemma LiteralsHaveNoSemicolon()
    ensures ';' !in " HttpOnly" && ';' !in " SameSite=Strict" && ';' !in " Path=/"
    ensures ';' !in " Max-Age=" && ';' !in "3600" && ';' !in " Secure"
  {
  }

  lemma MaxAgeIsCut(secure: bool)
    ensures Cut(MaxAge(secure), ';') == [" Max-Age=" + "3600"] + (if secure then [" Secure"] else [])
  {
    LiteralsHaveNoSemicolon();
    CutFirst(" Max-Age=" + SESSION_COOKIE_MAX_AGE, " Secure");
    CutFirst(" Secure", "");
  }

  function AttributeParts(secure: bool): seq<string> {
    [" HttpOnly", " SameSite=Strict", " Path=/"] + ([" Max-Age=" + "3600"] + (if secure then [" Secure"] else []))
  }

  lemma AttributesAreCut(secure: bool)
    ensures Cut(Attributes(secure), ';') == AttributeParts(secure)
  {
    LiteralsHaveNoSemicolon();
    CutFour(" HttpOnly", " SameSite=Strict", " Path=/", MaxAge(secure));
    MaxAgeIsCut(secure);
  }

  /** The header is exactly the pair and these attributes, the last if the cookie is to
      be secure. */
  lemma HeaderSaysExactly(sessionId: string, secure: bool)
    requires IsValue(sessionId)
    ensures Cut(MakeSessionCookieHeader(sessionId, secure), ';') ==
            ["agency_session" + (['='] + sessionId)] + AttributeParts(secure)
  {
    var c := Cookie(SESSION_COOKIE_NAME, sessionId);
    SessionNameIsName();
    PairIsSolid(c);
    PairThenRest(c, Attributes(secure));
    AttributesAreCut(secure);
  }

  lemma PairThenRest(c: Cookie, rest: string)
    requires IsName(c.name) && IsValue(c.value)
    ensures Cut(c.name + (['='] + (c.value + ([';'] + rest))), ';') == [Pair(c)] + Cut(rest, ';')
  {
    PairIsSolid(c);
    CutFirst(Pair(c), rest);
    assert c.name + (['='] + (c.value + ([';'] + rest))) == Pair(c) + ([';'] + rest);
  }
}
