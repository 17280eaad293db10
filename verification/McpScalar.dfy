/** Double-quoted YAML scalars: the quoting loop of the MCP manifest printer, and a
    decoder for such scalars written from YAML 1.2.2, sections 5.7 and 7.3.1. */
module McpScalar {
  import opened Wrappers
  import Slugs
  import opened Texts

  // ------------------------------------------------------------------
  // The printer
  // ------------------------------------------------------------------

  predicate IsControl(c: char) {
    c < ' '
  }

  function HexDigit(n: nat): char
    requires n < 16
  {
    if n < 10 then ('0' as int + n) as char else ('a' as int + (n - 10)) as char
  }

  function HexEscape(c: char): string
    requires IsControl(c)
  {
    ['\\', 'x', HexDigit(c as int / 16), HexDigit(c as int % 16)]
  }

  // How one character stands in a double-quoted scalar.
  function Escaped(c: char): string {
    match c
    case '"' => ['\\', '"']
    case '\\' => ['\\', '\\']
    case '\n' => ['\\', 'n']
    case '\r' => ['\\', 'r']
    case '\t' => ['\\', 't']
    case '\0' => ['\\', '0']
    case _ => if IsControl(c) then HexEscape(c) else [c]
  }

  /** The escapes: these six characters have short ones, every other control character
      its two hexadecimal digits in lower case, and all other characters none. */
  lemma EscapesExactly(c: char)
    ensures Escaped('"') == "\\\"" && Escaped('\\') == "\\\\" && Escaped('\n') == "\\n"
    ensures Escaped('\r') == "\\r" && Escaped('\t') == "\\t" && Escaped('\0') == "\\0"
    ensures c < ' ' && c !in "\n\r\t\0" ==>
              |Escaped(c)| == 4 && Escaped(c)[..2] == "\\x" &&
              exists hi: nat, lo: nat :: hi < 16 && lo < 16 && c as int == 16 * hi + lo &&
                Escaped(c)[2] == "0123456789abcdef"[hi] && Escaped(c)[3] == "0123456789abcdef"[lo]
    ensures ' ' <= c && c !in "\"\\" ==> Escaped(c) == [c]
  {
    if c < ' ' && c !in "\n\r\t\0" {
      HexDigitIsThat(c as int / 16);
      HexDigitIsThat(c as int % 16);
      assert Escaped(c) == HexEscape(c);
    }
  }

  lemma HexDigitIsThat(n: nat)
    requires n < 16
    ensures HexDigit(n) == "0123456789abcdef"[n]
  {
  }

  function EscapedAll(s: string): string {
    if s == "" then "" else Escaped(s[0]) + EscapedAll(s[1..])
  }

  function Quoted(s: string): string {
    ['"'] + (EscapedAll(s) + ['"'])
  }

  lemma {:induction false} EscapedAllAppends(s: string, c: char)
    ensures EscapedAll(s + [c]) == EscapedAll(s) + Escaped(c)
  {
    if s == "" {
      assert s + [c] == [c] && [c][1..] == "";
    } else {
      EscapedAllAppends(s[1..], c);
      assert (s + [c])[1..] == s[1..] + [c];
      Associates(Escaped(s[0]), EscapedAll(s[1..]), Escaped(c));
    }
  }

  // The match of the loop body.
  method PushEscaped(out: string, c: char) returns (out': string)
    ensures out' == out + Escaped(c)
  {
    match c
    case '"' => out' := out + ['\\', '"'];
    case '\\' => out' := out + ['\\', '\\'];
    case '\n' => out' := out + ['\\', 'n'];
    case '\r' => out' := out + ['\\', 'r'];
    case '\t' => out' := out + ['\\', 't'];
    case '\0' => out' := out + ['\\', '0'];
    case _ =>
      if c < ' ' {
        out' := out + HexEscape(c);
      } else {
        out' := out + [c];
      }
  }

  lemma QuotesOneMore(s: string, i: nat)
    requires i < |s|
    ensures EscapedAll(s[..i + 1]) == EscapedAll(s[..i]) + Escaped(s[i])
  {
    EscapedAllAppends(s[..i], s[i]);
    assert s[..i] + [s[i]] == s[..i + 1];
  }

  method YamlQuote(s: string) returns (out: string)
    ensures out == Quoted(s)
  {
    out := ['"'];
    for i := 0 to |s|
      invariant out == ['"'] + EscapedAll(s[..i])
    {
      QuotesOneMore(s, i);
      Associates(['"'], EscapedAll(s[..i]), Escaped(s[i]));
      out := PushEscaped(out, s[i]);
    }
    assert s[..|s|] == s;
    Associates(['"'], EscapedAll(s), ['"']);
    out := out + ['"'];
  }

  // ------------------------------------------------------------------
  // The decoder
  // ------------------------------------------------------------------

  function HexValue(c: char): Option<nat> {
    if '0' <= c <= '9' then Some(c as int - '0' as int)
    else if 'a' <= c <= 'f' then Some(c as int - 'a' as int + 10)
    else if 'A' <= c <= 'F' then Some(c as int - 'A' as int + 10)
    else None
  }

  // The value of hexadecimal digits read after n.
  function HexNumber(s: string, n: nat): Option<nat> {
    if s == "" then Some(n)
    else
      match HexValue(s[0])
      case None => None
      case Some(d) => HexNumber(s[1..], 16 * n + d)
  }

  // A code point that is a Unicode scalar value.
  function CodePoint(n: nat): Option<char> {
    if n < 0xD800 || 0xE000 <= n < 0x11_0000 then Some(n as char) else None
  }

  // The character a one-letter escape stands for.
  function SimpleEscape(c: char): Option<char> {
    match c
    case '0' => Some('\0')
    case 'a' => Some(7 as char)
    case 'b' => Some(8 as char)
    case 't' => Some('\t')
    case '\t' => Some('\t')
    case 'n' => Some('\n')
    case 'v' => Some(11 as char)
    case 'f' => Some(12 as char)
    case 'r' => Some('\r')
    case 'e' => Some(27 as char)
    case ' ' => Some(' ')
    case '"' => Some('"')
    case '/' => Some('/')
    case '\\' => Some('\\')
    case 'N' => Some(0x85 as char)
    case '_' => Some(0xA0 as char)
    case 'L' => Some(0x2028 as char)
    case 'P' => Some(0x2029 as char)
    case _ => None
  }

  function HexEscapeLength(c: char): nat {
    if c == 'x' then 2 else if c == 'u' then 4 else if c == 'U' then 8 else 0
  }

  // The character an escape stands for, and how much text it takes, where s starts
  // after the backslash.
  function DecodedEscape(s: string): (r: Option<(char, nat)>)
    ensures r.Some? ==> 0 < r.value.1 <= |s|
  {
    if s == "" then None
    else
      var n := HexEscapeLength(s[0]);
      if n == 0 then
        match SimpleEscape(s[0])
        case None => None
        case Some(c) => Some((c, 1))
      else if |s| < 1 + n then None
      else
        match HexNumber(s[1..1 + n], 0)
        case None => None
        case Some(code) =>
          match CodePoint(code)
          case None => None
          case Some(c) => Some((c, 1 + n))
  }

  // What follows the opening quote, up to a closing quote that ends it.
  function Decoded(s: string): Option<string>
    decreases |s|
  {
    if s == "" then None
    else if s[0] == '"' then if |s| == 1 then Some("") else None
    else if s[0] == '\\' then
      match DecodedEscape(s[1..])
      case None => None
      case Some((c, n)) => Before(c, Decoded(s[1 + n..]))
    else if s[0] != '\t' && s[0] < ' ' then None
    else Before(s[0], Decoded(s[1..]))
  }

  function Before(c: char, rest: Option<string>): Option<string> {
    match rest
    case None => None
    case Some(s) => Some([c] + s)
  }

  function Unquoted(s: string): Option<string> {
    if s != "" && s[0] == '"' then Decoded(s[1..]) else None
  }

  // ------------------------------------------------------------------
  // Reading back
  // ------------------------------------------------------------------

  lemma HexDigitIsRead(n: nat)
    requires n < 16
    ensures HexValue(HexDigit(n)) == Some(n)
    ensures !IsControl(HexDigit(n)) && HexDigit(n) != '"' && HexDigit(n) != '\\'
  {
  }

  lemma TwoHexDigits(c: char, hi: char, lo: char)
    requires IsControl(c) && hi == HexDigit(c as int / 16) && lo == HexDigit(c as int % 16)
    ensures HexNumber([hi, lo], 0) == Some(c as nat)
  {
    HexDigitIsRead(c as int / 16);
    HexDigitIsRead(c as int % 16);
    assert [hi, lo][1..] == [lo] && [lo][1..] == "";
    assert HexNumber([lo], c as int / 16) == HexNumber("", c as nat);
  }

  lemma SimpleEscapeDecodes(x: char, c: char, rest: string)
    requires HexEscapeLength(x) == 0 && SimpleEscape(x) == Some(c)
    ensures Decoded(['\\', x] + rest) == Before(c, Decoded(rest))
  {
    var s := ['\\', x] + rest;
    assert s[1..] == [x] + rest && s[2..] == rest;
    assert DecodedEscape(s[1..]) == Some((c, 1));
  }

  lemma HexEscapeDecodes(c: char, rest: string)
    requires IsControl(c)
    ensures Decoded(HexEscape(c) + rest) == Before(c, Decoded(rest))
  {
    var e := HexEscape(c);
    var s := e + rest;
    TwoHexDigits(c, e[2], e[3]);
    assert s[1..][1..3] == [e[2], e[3]] && s[4..] == rest;
    assert DecodedEscape(s[1..]) == Some((c, 3));
  }

  lemma PlainCharacterDecodes(c: char, rest: string)
    requires c != '"' && c != '\\' && !IsControl(c)
    ensures Decoded([c] + rest) == Before(c, Decoded(rest))
  {
    assert ([c] + rest)[1..] == rest;
  }

  lemma EscapeDecodes(c: char, rest: string)
    ensures Decoded(Escaped(c) + rest) == Before(c, Decoded(rest))
  {
    match c
    case '"' => SimpleEscapeDecodes('"', c, rest);
    case '\\' => SimpleEscapeDecodes('\\', c, rest);
    case '\n' => SimpleEscapeDecodes('n', c, rest);
    case '\r' => SimpleEscapeDecodes('r', c, rest);
    case '\t' => SimpleEscapeDecodes('t', c, rest);
    case '\0' => SimpleEscapeDecodes('0', c, rest);
    case _ => if IsControl(c) { HexEscapeDecodes(c, rest); } else { PlainCharacterDecodes(c, rest); }
  }

  lemma {:induction false} EscapedAllDecodes(s: string)
    ensures Decoded(EscapedAll(s) + ['"']) == Some(s)
  {
    if s != "" {
      EscapedAllDecodes(s[1..]);
      EscapeDecodes(s[0], EscapedAll(s[1..]) + ['"']);
      Associates(Escaped(s[0]), EscapedAll(s[1..]), ['"']);
      assert [s[0]] + s[1..] == s;
    }
  }

  /** Decoding a quoted string as a double-quoted scalar gives it back, for every
      string. */
  lemma ScalarRoundTrip(s: string)
    ensures Unquoted(Quoted(s)) == Some(s)
  {
    EscapedAllDecodes(s);
    assert Quoted(s)[1..] == EscapedAll(s) + ['"'];
  }

  // ------------------------------------------------------------------
  // Quotes and control characters
  // ------------------------------------------------------------------

  // The offset of the first quote that no backslash escapes, or the end.
  function FirstBareQuote(s: string): nat {
    if s == "" || s[0] == '"' then 0
    else if s[0] == '\\' && |s| >= 2 then 2 + FirstBareQuote(s[2..])
    else 1 + FirstBareQuote(s[1..])
  }

  predicate NoControls(s: string) {
    forall i :: 0 <= i < |s| ==> !IsControl(s[i])
  }

  lemma PlainIsPassed(c: char, rest: string)
    requires c != '"' && c != '\\'
    ensures FirstBareQuote([c] + rest) == 1 + FirstBareQuote(rest)
  {
    assert ([c] + rest)[1..] == rest;
  }

  lemma EscapeIsPassed(x: char, rest: string)
    ensures FirstBareQuote(['\\', x] + rest) == 2 + FirstBareQuote(rest)
  {
    assert (['\\', x] + rest)[2..] == rest;
  }

  lemma HexEscapeIsPassed(c: char, rest: string)
    requires IsControl(c)
    ensures FirstBareQuote(HexEscape(c) + rest) == 4 + FirstBareQuote(rest)
  {
    var e := HexEscape(c);
    HexDigitIsRead(c as int / 16);
    HexDigitIsRead(c as int % 16);
    PlainIsPassed(e[3], rest);
    PlainIsPassed(e[2], [e[3]] + rest);
    EscapeIsPassed('x', [e[2]] + ([e[3]] + rest));
    assert e + rest == ['\\', 'x'] + ([e[2]] + ([e[3]] + rest));
  }

  lemma EscapedIsPassed(c: char, rest: string)
    ensures FirstBareQuote(Escaped(c) + rest) == |Escaped(c)| + FirstBareQuote(rest)
    ensures NoControls(Escaped(c))
  {
    if |Escaped(c)| == 2 {
      EscapeIsPassed(Escaped(c)[1], rest);
    } else if IsControl(c) {
      HexDigitIsRead(c as int / 16);
      HexDigitIsRead(c as int % 16);
      HexEscapeIsPassed(c, rest);
    } else {
      PlainIsPassed(c, rest);
    }
  }

  lemma {:induction false} EscapedAllIsPassed(s: string, rest: string)
    ensures FirstBareQuote(EscapedAll(s) + rest) == |EscapedAll(s)| + FirstBareQuote(rest)
    ensures NoControls(EscapedAll(s))
  {
    if s == "" {
      assert "" + rest == rest;
    } else {
      EscapedAllIsPassed(s[1..], rest);
      EscapedIsPassed(s[0], EscapedAll(s[1..]) + rest);
      Associates(Escaped(s[0]), EscapedAll(s[1..]), rest);
    }
  }

  /** A quoted string holds no raw control character, and whatever text follows it,
      its own last character is the first unescaped quote after the opening one. */
  lemma QuotedIsSelfDelimiting(s: string, rest: string)
    ensures NoControls(Quoted(s)) && |Quoted(s)| >= 2 && Quoted(s)[0] == '"'
    ensures 1 + FirstBareQuote((Quoted(s) + rest)[1..]) == |Quoted(s)| - 1
  {
    EscapedAllIsPassed(s, ['"'] + rest);
    assert (Quoted(s) + rest)[1..] == EscapedAll(s) + (['"'] + rest);
    assert FirstBareQuote(['"'] + rest) == 0;
  }

  lemma {:induction false} PlainCharactersAreUnescaped(s: string)
    requires Slugs.AllInClass(s)
    ensures EscapedAll(s) == s
  {
    if s != "" {
      assert Slugs.InClass(s[0]);
      assert forall i :: 0 <= i < |s| - 1 ==> s[1..][i] == s[i + 1];
      PlainCharactersAreUnescaped(s[1..]);
      assert [s[0]] + s[1..] == s;
    }
  }

  /** A name that passes validation needs no escaping: quoting only adds the quotes. */
  lemma ValidNameIsUnescaped(name: string)
    requires Slugs.IsValidName(name)
    ensures Quoted(name) == ['"'] + (name + ['"'])
  {
    Slugs.NameBytesAreClassCharacters(name);
    PlainCharactersAreUnescaped(name);
  }
}
