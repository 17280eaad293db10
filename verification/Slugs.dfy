/** Names and slugs: two checks in the Hermes adapter, one over UTF-8 bytes and one
    over characters, both documented as ^[a-z][a-z0-9_-]{0,63}$. */
module Slugs {
  // The UTF-8 encoding of a character.
  function Utf8Of(c: char): (bytes: seq<nat>)
    ensures |bytes| >= 1
    ensures c as int < 0x80 ==> bytes == [c as nat]
    ensures c as int >= 0x80 ==> bytes[0] >= 0x80
  {
    var n := c as nat;
    if n < 0x80 then [n]
    else if n < 0x800 then [0xC0 + n / 0x40, 0x80 + n % 0x40]
    else if n < 0x1_0000 then [0xE0 + n / 0x1000, 0x80 + n / 0x40 % 0x40, 0x80 + n % 0x40]
    else [0xF0 + n / 0x4_0000, 0x80 + n / 0x1000 % 0x40, 0x80 + n / 0x40 % 0x40, 0x80 + n % 0x40]
  }

  function Utf8(s: string): seq<nat> {
    if s == "" then [] else Utf8Of(s[0]) + Utf8(s[1..])
  }

  predicate IsAsciiLowercase(b: nat) {
    'a' as nat <= b <= 'z' as nat
  }

  predicate IsNameByte(b: nat) {
    IsAsciiLowercase(b) || '0' as nat <= b <= '9' as nat || b == '_' as nat || b == '-' as nat
  }

  predicate AllNameBytes(bytes: seq<nat>) {
    forall i :: 0 <= i < |bytes| ==> IsNameByte(bytes[i])
  }

  // The check on MCP server names.
  predicate IsValidName(name: string) {
    var bytes := Utf8(name);
    1 <= |bytes| <= 64 && IsAsciiLowercase(bytes[0]) && AllNameBytes(bytes)
  }

  // The check on plugin ids and agent slugs.
  predicate IsSafeSlug(s: string) {
    && s != "" && |Utf8(s)| <= 64
    && (forall i :: 0 <= i < |s| ==> IsNameByte(s[i] as nat))
    && IsAsciiLowercase(s[0] as nat)
  }

  // ^[a-z][a-z0-9_-]{0,63}$
  predicate MatchesPattern(s: string) {
    1 <= |s| <= 64 && 'a' <= s[0] <= 'z' && forall i :: 1 <= i < |s| ==> InClass(s[i])
  }

  predicate InClass(c: char) {
    'a' <= c <= 'z' || '0' <= c <= '9' || c == '_' || c == '-'
  }

  ghost predicate AllInClass(s: string) {
    forall i :: 0 <= i < |s| ==> InClass(s[i])
  }

  lemma {:induction false} NameBytesAreClassCharacters(s: string)
    ensures AllNameBytes(Utf8(s)) <==> AllInClass(s)
    ensures AllInClass(s) ==> |Utf8(s)| == |s|
    ensures s != "" ==> |Utf8(s)| >= 1 && Utf8(s)[0] == Utf8Of(s[0])[0]
  {
    if s != "" {
      var first, rest := Utf8Of(s[0]), Utf8(s[1..]);
      NameBytesAreClassCharacters(s[1..]);
      assert forall i :: 0 <= i < |rest| ==> rest[i] == Utf8(s)[|first| + i];
      assert Utf8(s)[0] == first[0];
      if AllNameBytes(Utf8(s)) {
        assert IsNameByte(first[0]) && InClass(s[0]);
        forall i | 0 <= i < |s| ensures InClass(s[i]) {
          assert i > 0 ==> s[i] == s[1..][i - 1];
        }
      }
      if AllInClass(s) {
        assert InClass(s[0]) && first == [s[0] as nat];
        assert forall i :: 0 <= i < |s| - 1 ==> s[1..][i] == s[i + 1];
      }
    }
  }

  /** The check over bytes and the check over characters both accept exactly the
      documented pattern, over all Unicode strings. */
  lemma NameChecksMatchPattern(s: string)
    ensures IsValidName(s) <==> MatchesPattern(s)
    ensures IsSafeSlug(s) <==> MatchesPattern(s)
  {
    NameBytesAreClassCharacters(s);
    if MatchesPattern(s) {
      assert AllInClass(s);
    }
    if IsSafeSlug(s) {
      assert AllInClass(s);
    }
  }
}
