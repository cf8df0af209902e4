/** Header field grammar (lib/hpack_val.c). */
module Validate {
  import opened Common

  /** The octets of an ASCII string. */
  function Ascii(s: string): (r: seq<byte>)
    requires forall i :: 0 <= i < |s| ==> s[i] < '\U{0080}'
  {
    seq(|s|, i requires 0 <= i < |s| => s[i] as int)
  }

  /** inc/tbl/hpack_pseudo_headers.h */
  predicate IsPseudo(nam: seq<byte>) {
    || nam == Ascii(":authority") || nam == Ascii(":method") || nam == Ascii(":path")
    || nam == Ascii(":protocol") || nam == Ascii(":scheme") || nam == Ascii(":status")
  }

  predicate IsSeparator(c: byte) {
    || c == '(' as int || c == ')' as int || c == '<' as int || c == '>' as int || c == '@' as int
    || c == ',' as int || c == ';' as int || c == ':' as int || c == '\\' as int || c == '\"' as int
    || c == '/' as int || c == '[' as int || c == ']' as int || c == '?' as int || c == '=' as int
    || c == '{' as int || c == '}' as int || c == ' ' as int
  }

  predicate TokenChar(c: byte) {
    0x20 < c < 0x7f && !IsSeparator(c) && !('A' as int <= c <= 'Z' as int)
  }

  predicate ValueChar(c: byte) {
    c == '\t' as int || (c >= ' ' as int && c != 0x7f)
  }

  /** The verdict on a field name: a known pseudo-header, or a lower-case token. */
  function Token(nam: seq<byte>): (r: Res)
    ensures r == OK || r == HDR || r == CHR
  {
    if nam != [] && nam[0] == ':' as int then (if IsPseudo(nam) then OK else HDR)
    else if forall c :: c in nam ==> TokenChar(c) then OK
    else CHR
  }

  predicate ValueOk(val: seq<byte>) {
    forall c :: c in val ==> ValueChar(c)
  }

  /** HPV_token: `str` is the NUL-terminated name without its terminator. */
  method HpvToken(str: seq<byte>) returns (res: Res)
    requires |str| > 0
    ensures res == Token(str)
    ensures res == if ValidName(str) then OK else if str[0] == 0x3a then HDR else CHR
  {
    TokenExact(str);
    if str[0] == ':' as int {
      if IsPseudo(str) { return OK; }
      return HDR;
    }
    var i := 0;
    while i < |str|
      invariant i <= |str|
      invariant forall c :: c in str[..i] ==> TokenChar(c)
    {
      var c := str[i];
      assert c in str;
      if !(0x20 < c < 0x7f && !IsSeparator(c)) { return CHR; }
      if !(c < 'A' as int || c > 'Z' as int) { return CHR; }
      i := i + 1;
    }
    assert str[..i] == str;
    return OK;
  }

  /** HPV_value */
  method HpvValue(str: seq<byte>) returns (ok: bool)
    ensures ok == ValueOk(str) == ValidValue(str)
  {
    ValueExact(str);
    var i := 0;
    while i < |str|
      invariant i <= |str|
      invariant forall c :: c in str[..i] ==> ValueChar(c)
    {
      if !ValueChar(str[i]) { return false; }
      i := i + 1;
    }
    assert str[..i] == str;
    return true;
  }

  /** Validated strings hold no NUL: this is what makes NUL-terminated storage unambiguous. */
  lemma NoNul(nam: seq<byte>, val: seq<byte>)
    ensures Token(nam) == OK ==> 0 !in nam
    ensures ValueOk(val) ==> 0 !in val
  {
    if Token(nam) == OK && 0 in nam {
      var i :| 0 <= i < |nam| && nam[i] == 0;
    }
  }

  // ---- the verdicts, spelled out ----

  /** A string, octet by octet. */
  predicate Reads(s: seq<byte>, text: string) {
    |s| == |text| && forall i :: 0 <= i < |s| ==> s[i] == text[i] as int
  }

  /** The pseudo-headers that RFC 7540 (section 8.1.2) and RFC 8441 define. */
  predicate KnownPseudo(nam: seq<byte>) {
    || Reads(nam, ":authority") || Reads(nam, ":method") || Reads(nam, ":path")
    || Reads(nam, ":protocol") || Reads(nam, ":scheme") || Reads(nam, ":status")
  }

  /** `tchar` of section 3.2.6 of RFC 7230, without its capital letters. */
  predicate LowerTchar(c: byte) {
    var h := c as char;
    h in "!#$%&'*+-.^_`|~" || '0' <= h <= '9' || 'a' <= h <= 'z'
  }

  /** A name that may be used. */
  predicate ValidName(nam: seq<byte>) {
    if nam != [] && nam[0] == 0x3a then KnownPseudo(nam) else forall c :: c in nam ==> LowerTchar(c)
  }

  /** A tab, a space, a visible character, or an octet above ASCII. */
  predicate FieldChar(c: byte) {
    c == 0x09 || 0x20 <= c <= 0x7e || 0x80 <= c <= 0xff
  }

  predicate ValidValue(val: seq<byte>) {
    forall c :: c in val ==> FieldChar(c)
  }

  lemma SameChars(c: byte)
    ensures TokenChar(c) <==> LowerTchar(c)
    ensures ValueChar(c) <==> FieldChar(c)
  {
  }

  lemma ReadsAscii(s: seq<byte>, text: string)
    requires forall i :: 0 <= i < |text| ==> text[i] < '\U{0080}'
    ensures Reads(s, text) <==> s == Ascii(text)
  {
  }

  lemma SamePseudo(nam: seq<byte>)
    ensures IsPseudo(nam) <==> KnownPseudo(nam)
  {
    ReadsAscii(nam, ":authority");
    ReadsAscii(nam, ":method");
    ReadsAscii(nam, ":path");
    ReadsAscii(nam, ":protocol");
    ReadsAscii(nam, ":scheme");
    ReadsAscii(nam, ":status");
    hide Ascii; hide Reads;
  }

  /** What makes a name acceptable, and which of the two errors any other one is. */
  lemma TokenExact(nam: seq<byte>)
    ensures Token(nam) == OK <==> ValidName(nam)
    ensures Token(nam) == HDR <==> nam != [] && nam[0] == 0x3a && !KnownPseudo(nam)
    ensures Token(nam) == CHR <==> (nam == [] || nam[0] != 0x3a) && exists c :: c in nam && !LowerTchar(c)
  {
    SamePseudo(nam);
    forall c: byte
      ensures TokenChar(c) <==> LowerTchar(c)
    {
      SameChars(c);
    }
    hide KnownPseudo; hide IsPseudo; hide TokenChar; hide LowerTchar;
  }

  lemma ValueExact(val: seq<byte>)
    ensures ValueOk(val) <==> ValidValue(val)
  {
    forall c: byte
      ensures ValueChar(c) <==> FieldChar(c)
    {
      SameChars(c);
    }
    hide ValueChar; hide FieldChar;
  }
}
