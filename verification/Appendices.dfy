/** The static table and the code, as the appendices of RFC 7541 print them. */
module Appendices {
  import opened Common
  import opened Validate
  import opened TableSpec
  import opened HuffmanCode
  import opened DecoderSpec
  import opened RfcList
  import opened RfcCode
  import opened StaticTable

  // ---- appendix A: the static table ----

  /** An index of the library's address space, when nothing is in the dynamic table. */
  predicate Resolves(i: nat, nam: string, val: string) {
    var r := Lookup(Library().stat, [], i);
    r.Some? && Reads(r.value.nam, nam) && Reads(r.value.val, val)
  }

  lemma ResolvesText(i: nat)
    requires 1 <= i <= STATIC
    ensures Resolves(i, Text(i).0, Text(i).1)
  {
    TextAt(i);
    hide Text; hide At; hide Ascii; hide Rfc7541;
    ReadsAscii(At(i).nam, Text(i).0);
    ReadsAscii(At(i).val, Text(i).1);
  }

  lemma Static1To4()
    ensures Resolves(1, ":authority", "")
    ensures Resolves(2, ":method", "GET")
    ensures Resolves(3, ":method", "POST")
    ensures Resolves(4, ":path", "/")
  {
    hide Resolves; hide Ascii; hide Rfc7541; hide Reads; hide Lookup;
    ResolvesText(1); ResolvesText(2); ResolvesText(3); ResolvesText(4);
  }

  lemma Static5To8()
    ensures Resolves(5, ":path", "/index.html")
    ensures Resolves(6, ":scheme", "http")
    ensures Resolves(7, ":scheme", "https")
    ensures Resolves(8, ":status", "200")
  {
    hide Resolves; hide Ascii; hide Rfc7541; hide Reads; hide Lookup;
    ResolvesText(5); ResolvesText(6); ResolvesText(7); ResolvesText(8);
  }

  lemma Static9To12()
    ensures Resolves(9, ":status", "204")
    ensures Resolves(10, ":status", "206")
    ensures Resolves(11, ":status", "304")
    ensures Resolves(12, ":status", "400")
  {
    hide Resolves; hide Ascii; hide Rfc7541; hide Reads; hide Lookup;
    ResolvesText(9); ResolvesText(10); ResolvesText(11); ResolvesText(12);
  }

  lemma Static13To16()
    ensures Resolves(13, ":status", "404")
    ensures Resolves(14, ":status", "500")
    ensures Resolves(15, "accept-charset", "")
    ensures Resolves(16, "accept-encoding", "gzip, deflate")
  {
    hide Resolves; hide Ascii; hide Rfc7541; hide Reads; hide Lookup;
    ResolvesText(13); ResolvesText(14); ResolvesText(15); ResolvesText(16);
  }

  lemma Static17To20()
    ensures Resolves(17, "accept-language", "")
    ensures Resolves(18, "accept-ranges", "")
    ensures Resolves(19, "accept", "")
    ensures Resolves(20, "access-control-allow-origin", "")
  {
    hide Resolves; hide Ascii; hide Rfc7541; hide Reads; hide Lookup;
    ResolvesText(17); ResolvesText(18); ResolvesText(19); ResolvesText(20);
  }

  lemma Static21To24()
    ensures Resolves(21, "age", "")
    ensures Resolves(22, "allow", "")
    ensures Resolves(23, "authorization", "")
    ensures Resolves(24, "cache-control", "")
  {
    hide Resolves; hide Ascii; hide Rfc7541; hide Reads; hide Lookup;
    ResolvesText(21); ResolvesText(22); ResolvesText(23); ResolvesText(24);
  }

  lemma Static25To28()
    ensures Resolves(25, "content-disposition", "")
    ensures Resolves(26, "content-encoding", "")
    ensures Resolves(27, "content-language", "")
    ensures Resolves(28, "content-length", "")
  {
    hide Resolves; hide Ascii; hide Rfc7541; hide Reads; hide Lookup;
    ResolvesText(25); ResolvesText(26); ResolvesText(27); ResolvesText(28);
  }

  lemma Static29To32()
    ensures Resolves(29, "content-location", "")
    ensures Resolves(30, "content-range", "")
    ensures Resolves(31, "content-type", "")
    ensures Resolves(32, "cookie", "")
  {
    hide Resolves; hide Ascii; hide Rfc7541; hide Reads; hide Lookup;
    ResolvesText(29); ResolvesText(30); ResolvesText(31); ResolvesText(32);
  }

  lemma Static33To36()
    ensures Resolves(33, "date", "")
    ensures Resolves(34, "etag", "")
    ensures Resolves(35, "expect", "")
    ensures Resolves(36, "expires", "")
  {
    hide Resolves; hide Ascii; hide Rfc7541; hide Reads; hide Lookup;
    ResolvesText(33); ResolvesText(34); ResolvesText(35); ResolvesText(36);
  }

  lemma Static37To40()
    ensures Resolves(37, "from", "")
    ensures Resolves(38, "host", "")
    ensures Resolves(39, "if-match", "")
    ensures Resolves(40, "if-modified-since", "")
  {
    hide Resolves; hide Ascii; hide Rfc7541; hide Reads; hide Lookup;
    ResolvesText(37); ResolvesText(38); ResolvesText(39); ResolvesText(40);
  }

  lemma Static41To44()
    ensures Resolves(41, "if-none-match", "")
    ensures Resolves(42, "if-range", "")
    ensures Resolves(43, "if-unmodified-since", "")
    ensures Resolves(44, "last-modified", "")
  {
    hide Resolves; hide Ascii; hide Rfc7541; hide Reads; hide Lookup;
    ResolvesText(41); ResolvesText(42); ResolvesText(43); ResolvesText(44);
  }

  lemma Static45To48()
    ensures Resolves(45, "link", "")
    ensures Resolves(46, "location", "")
    ensures Resolves(47, "max-forwards", "")
    ensures Resolves(48, "proxy-authenticate", "")
  {
    hide Resolves; hide Ascii; hide Rfc7541; hide Reads; hide Lookup;
    ResolvesText(45); ResolvesText(46); ResolvesText(47); ResolvesText(48);
  }

  lemma Static49To52()
    ensures Resolves(49, "proxy-authorization", "")
    ensures Resolves(50, "range", "")
    ensures Resolves(51, "referer", "")
    ensures Resolves(52, "refresh", "")
  {
    hide Resolves; hide Ascii; hide Rfc7541; hide Reads; hide Lookup;
    ResolvesText(49); ResolvesText(50); ResolvesText(51); ResolvesText(52);
  }

  lemma Static53To56()
    ensures Resolves(53, "retry-after", "")
    ensures Resolves(54, "server", "")
    ensures Resolves(55, "set-cookie", "")
    ensures Resolves(56, "strict-transport-security", "")
  {
    hide Resolves; hide Ascii; hide Rfc7541; hide Reads; hide Lookup;
    ResolvesText(53); ResolvesText(54); ResolvesText(55); ResolvesText(56);
  }

  lemma Static57To60()
    ensures Resolves(57, "transfer-encoding", "")
    ensures Resolves(58, "user-agent", "")
    ensures Resolves(59, "vary", "")
    ensures Resolves(60, "via", "")
  {
    hide Resolves; hide Ascii; hide Rfc7541; hide Reads; hide Lookup;
    ResolvesText(57); ResolvesText(58); ResolvesText(59); ResolvesText(60);
  }

  lemma Static61To61()
    ensures Resolves(61, "www-authenticate", "")
  {
    hide Resolves; hide Ascii; hide Rfc7541; hide Reads; hide Lookup;
    ResolvesText(61);
  }

  lemma AppendixA1To16()
    ensures Resolves(1, ":authority", "")
    ensures Resolves(2, ":method", "GET")
    ensures Resolves(3, ":method", "POST")
    ensures Resolves(4, ":path", "/")
    ensures Resolves(5, ":path", "/index.html")
    ensures Resolves(6, ":scheme", "http")
    ensures Resolves(7, ":scheme", "https")
    ensures Resolves(8, ":status", "200")
    ensures Resolves(9, ":status", "204")
    ensures Resolves(10, ":status", "206")
    ensures Resolves(11, ":status", "304")
    ensures Resolves(12, ":status", "400")
    ensures Resolves(13, ":status", "404")
    ensures Resolves(14, ":status", "500")
    ensures Resolves(15, "accept-charset", "")
    ensures Resolves(16, "accept-encoding", "gzip, deflate")
  {
    hide Resolves;
    Static1To4(); Static5To8(); Static9To12(); Static13To16();
  }

  lemma AppendixA17To32()
    ensures Resolves(17, "accept-language", "")
    ensures Resolves(18, "accept-ranges", "")
    ensures Resolves(19, "accept", "")
    ensures Resolves(20, "access-control-allow-origin", "")
    ensures Resolves(21, "age", "")
    ensures Resolves(22, "allow", "")
    ensures Resolves(23, "authorization", "")
    ensures Resolves(24, "cache-control", "")
    ensures Resolves(25, "content-disposition", "")
    ensures Resolves(26, "content-encoding", "")
    ensures Resolves(27, "content-language", "")
    ensures Resolves(28, "content-length", "")
    ensures Resolves(29, "content-location", "")
    ensures Resolves(30, "content-range", "")
    ensures Resolves(31, "content-type", "")
    ensures Resolves(32, "cookie", "")
  {
    hide Resolves;
    Static17To20(); Static21To24(); Static25To28(); Static29To32();
  }

  lemma AppendixA33To48()
    ensures Resolves(33, "date", "")
    ensures Resolves(34, "etag", "")
    ensures Resolves(35, "expect", "")
    ensures Resolves(36, "expires", "")
    ensures Resolves(37, "from", "")
    ensures Resolves(38, "host", "")
    ensures Resolves(39, "if-match", "")
    ensures Resolves(40, "if-modified-since", "")
    ensures Resolves(41, "if-none-match", "")
    ensures Resolves(42, "if-range", "")
    ensures Resolves(43, "if-unmodified-since", "")
    ensures Resolves(44, "last-modified", "")
    ensures Resolves(45, "link", "")
    ensures Resolves(46, "location", "")
    ensures Resolves(47, "max-forwards", "")
    ensures Resolves(48, "proxy-authenticate", "")
  {
    hide Resolves;
    Static33To36(); Static37To40(); Static41To44(); Static45To48();
  }

  lemma AppendixA49To61()
    ensures Resolves(49, "proxy-authorization", "")
    ensures Resolves(50, "range", "")
    ensures Resolves(51, "referer", "")
    ensures Resolves(52, "refresh", "")
    ensures Resolves(53, "retry-after", "")
    ensures Resolves(54, "server", "")
    ensures Resolves(55, "set-cookie", "")
    ensures Resolves(56, "strict-transport-security", "")
    ensures Resolves(57, "transfer-encoding", "")
    ensures Resolves(58, "user-agent", "")
    ensures Resolves(59, "vary", "")
    ensures Resolves(60, "via", "")
    ensures Resolves(61, "www-authenticate", "")
  {
    hide Resolves;
    Static49To52(); Static53To56(); Static57To60(); Static61To61();
  }

  /** Nothing else resolves while the dynamic table is empty. */
  lemma OnlyStatic(i: nat)
    ensures Lookup(Library().stat, [], i).None? <==> i == 0 || i > 61
  {
    hide Rfc7541;
  }

  // ---- appendix B: the Huffman code ----

  /** The code of an octet, aligned right, and how many bits it has. */
  ghost predicate Has(k: byte, cod: nat, len: pos) {
    WfCode(Rfc7541()) && SymOf(Rfc7541(), k) == Sym(cod, len, k)
  }

  lemma HasSym(k: byte)
    ensures var y := SymAt(EncAt(k), k); Has(k, y.cod, y.len)
  {
    Rfc7541IsCode();
    ChrOfEnc(k);
    hide ChrAt; hide EncAt; hide RowOf; hide WfCode;
  }

  lemma AppendixB00To1f()
    ensures Has(0x00, 0x1ff8, 13) && Has(0x01, 0x7fffd8, 23) && Has(0x02, 0xfffffe2, 28) && Has(0x03, 0xfffffe3, 28)
    ensures Has(0x04, 0xfffffe4, 28) && Has(0x05, 0xfffffe5, 28) && Has(0x06, 0xfffffe6, 28) && Has(0x07, 0xfffffe7, 28)
    ensures Has(0x08, 0xfffffe8, 28) && Has(0x09, 0xffffea, 24) && Has(0x0a, 0x3ffffffc, 30) && Has(0x0b, 0xfffffe9, 28)
    ensures Has(0x0c, 0xfffffea, 28) && Has(0x0d, 0x3ffffffd, 30) && Has(0x0e, 0xfffffeb, 28) && Has(0x0f, 0xfffffec, 28)
    ensures Has(0x10, 0xfffffed, 28) && Has(0x11, 0xfffffee, 28) && Has(0x12, 0xfffffef, 28) && Has(0x13, 0xffffff0, 28)
    ensures Has(0x14, 0xffffff1, 28) && Has(0x15, 0xffffff2, 28) && Has(0x16, 0x3ffffffe, 30) && Has(0x17, 0xffffff3, 28)
    ensures Has(0x18, 0xffffff4, 28) && Has(0x19, 0xffffff5, 28) && Has(0x1a, 0xffffff6, 28) && Has(0x1b, 0xffffff7, 28)
    ensures Has(0x1c, 0xffffff8, 28) && Has(0x1d, 0xffffff9, 28) && Has(0x1e, 0xffffffa, 28) && Has(0x1f, 0xffffffb, 28)
  {
    hide Has; hide Rfc7541;
    HasSym(0x00); HasSym(0x01); HasSym(0x02); HasSym(0x03); HasSym(0x04); HasSym(0x05); HasSym(0x06); HasSym(0x07);
    HasSym(0x08); HasSym(0x09); HasSym(0x0a); HasSym(0x0b); HasSym(0x0c); HasSym(0x0d); HasSym(0x0e); HasSym(0x0f);
    HasSym(0x10); HasSym(0x11); HasSym(0x12); HasSym(0x13); HasSym(0x14); HasSym(0x15); HasSym(0x16); HasSym(0x17);
    HasSym(0x18); HasSym(0x19); HasSym(0x1a); HasSym(0x1b); HasSym(0x1c); HasSym(0x1d); HasSym(0x1e); HasSym(0x1f);
  }

  lemma AppendixB20To3f()
    ensures Has(0x20, 0x14, 6) && Has(0x21, 0x3f8, 10) && Has(0x22, 0x3f9, 10) && Has(0x23, 0xffa, 12)
    ensures Has(0x24, 0x1ff9, 13) && Has(0x25, 0x15, 6) && Has(0x26, 0xf8, 8) && Has(0x27, 0x7fa, 11)
    ensures Has(0x28, 0x3fa, 10) && Has(0x29, 0x3fb, 10) && Has(0x2a, 0xf9, 8) && Has(0x2b, 0x7fb, 11)
    ensures Has(0x2c, 0xfa, 8) && Has(0x2d, 0x16, 6) && Has(0x2e, 0x17, 6) && Has(0x2f, 0x18, 6)
    ensures Has(0x30, 0x0, 5) && Has(0x31, 0x1, 5) && Has(0x32, 0x2, 5) && Has(0x33, 0x19, 6)
    ensures Has(0x34, 0x1a, 6) && Has(0x35, 0x1b, 6) && Has(0x36, 0x1c, 6) && Has(0x37, 0x1d, 6)
    ensures Has(0x38, 0x1e, 6) && Has(0x39, 0x1f, 6) && Has(0x3a, 0x5c, 7) && Has(0x3b, 0xfb, 8)
    ensures Has(0x3c, 0x7ffc, 15) && Has(0x3d, 0x20, 6) && Has(0x3e, 0xffb, 12) && Has(0x3f, 0x3fc, 10)
  {
    hide Has; hide Rfc7541;
    HasSym(0x20); HasSym(0x21); HasSym(0x22); HasSym(0x23); HasSym(0x24); HasSym(0x25); HasSym(0x26); HasSym(0x27);
    HasSym(0x28); HasSym(0x29); HasSym(0x2a); HasSym(0x2b); HasSym(0x2c); HasSym(0x2d); HasSym(0x2e); HasSym(0x2f);
    HasSym(0x30); HasSym(0x31); HasSym(0x32); HasSym(0x33); HasSym(0x34); HasSym(0x35); HasSym(0x36); HasSym(0x37);
    HasSym(0x38); HasSym(0x39); HasSym(0x3a); HasSym(0x3b); HasSym(0x3c); HasSym(0x3d); HasSym(0x3e); HasSym(0x3f);
  }

  lemma AppendixB40To5f()
    ensures Has(0x40, 0x1ffa, 13) && Has(0x41, 0x21, 6) && Has(0x42, 0x5d, 7) && Has(0x43, 0x5e, 7)
    ensures Has(0x44, 0x5f, 7) && Has(0x45, 0x60, 7) && Has(0x46, 0x61, 7) && Has(0x47, 0x62, 7)
    ensures Has(0x48, 0x63, 7) && Has(0x49, 0x64, 7) && Has(0x4a, 0x65, 7) && Has(0x4b, 0x66, 7)
    ensures Has(0x4c, 0x67, 7) && Has(0x4d, 0x68, 7) && Has(0x4e, 0x69, 7) && Has(0x4f, 0x6a, 7)
    ensures Has(0x50, 0x6b, 7) && Has(0x51, 0x6c, 7) && Has(0x52, 0x6d, 7) && Has(0x53, 0x6e, 7)
    ensures Has(0x54, 0x6f, 7) && Has(0x55, 0x70, 7) && Has(0x56, 0x71, 7) && Has(0x57, 0x72, 7)
    ensures Has(0x58, 0xfc, 8) && Has(0x59, 0x73, 7) && Has(0x5a, 0xfd, 8) && Has(0x5b, 0x1ffb, 13)
    ensures Has(0x5c, 0x7fff0, 19) && Has(0x5d, 0x1ffc, 13) && Has(0x5e, 0x3ffc, 14) && Has(0x5f, 0x22, 6)
  {
    hide Has; hide Rfc7541;
    HasSym(0x40); HasSym(0x41); HasSym(0x42); HasSym(0x43); HasSym(0x44); HasSym(0x45); HasSym(0x46); HasSym(0x47);
    HasSym(0x48); HasSym(0x49); HasSym(0x4a); HasSym(0x4b); HasSym(0x4c); HasSym(0x4d); HasSym(0x4e); HasSym(0x4f);
    HasSym(0x50); HasSym(0x51); HasSym(0x52); HasSym(0x53); HasSym(0x54); HasSym(0x55); HasSym(0x56); HasSym(0x57);
    HasSym(0x58); HasSym(0x59); HasSym(0x5a); HasSym(0x5b); HasSym(0x5c); HasSym(0x5d); HasSym(0x5e); HasSym(0x5f);
  }

  lemma AppendixB60To7f()
    ensures Has(0x60, 0x7ffd, 15) && Has(0x61, 0x3, 5) && Has(0x62, 0x23, 6) && Has(0x63, 0x4, 5)
    ensures Has(0x64, 0x24, 6) && Has(0x65, 0x5, 5) && Has(0x66, 0x25, 6) && Has(0x67, 0x26, 6)
    ensures Has(0x68, 0x27, 6) && Has(0x69, 0x6, 5) && Has(0x6a, 0x74, 7) && Has(0x6b, 0x75, 7)
    ensures Has(0x6c, 0x28, 6) && Has(0x6d, 0x29, 6) && Has(0x6e, 0x2a, 6) && Has(0x6f, 0x7, 5)
    ensures Has(0x70, 0x2b, 6) && Has(0x71, 0x76, 7) && Has(0x72, 0x2c, 6) && Has(0x73, 0x8, 5)
    ensures Has(0x74, 0x9, 5) && Has(0x75, 0x2d, 6) && Has(0x76, 0x77, 7) && Has(0x77, 0x78, 7)
    ensures Has(0x78, 0x79, 7) && Has(0x79, 0x7a, 7) && Has(0x7a, 0x7b, 7) && Has(0x7b, 0x7ffe, 15)
    ensures Has(0x7c, 0x7fc, 11) && Has(0x7d, 0x3ffd, 14) && Has(0x7e, 0x1ffd, 13) && Has(0x7f, 0xffffffc, 28)
  {
    hide Has; hide Rfc7541;
    HasSym(0x60); HasSym(0x61); HasSym(0x62); HasSym(0x63); HasSym(0x64); HasSym(0x65); HasSym(0x66); HasSym(0x67);
    HasSym(0x68); HasSym(0x69); HasSym(0x6a); HasSym(0x6b); HasSym(0x6c); HasSym(0x6d); HasSym(0x6e); HasSym(0x6f);
    HasSym(0x70); HasSym(0x71); HasSym(0x72); HasSym(0x73); HasSym(0x74); HasSym(0x75); HasSym(0x76); HasSym(0x77);
    HasSym(0x78); HasSym(0x79); HasSym(0x7a); HasSym(0x7b); HasSym(0x7c); HasSym(0x7d); HasSym(0x7e); HasSym(0x7f);
  }

  lemma AppendixB80To9f()
    ensures Has(0x80, 0xfffe6, 20) && Has(0x81, 0x3fffd2, 22) && Has(0x82, 0xfffe7, 20) && Has(0x83, 0xfffe8, 20)
    ensures Has(0x84, 0x3fffd3, 22) && Has(0x85, 0x3fffd4, 22) && Has(0x86, 0x3fffd5, 22) && Has(0x87, 0x7fffd9, 23)
    ensures Has(0x88, 0x3fffd6, 22) && Has(0x89, 0x7fffda, 23) && Has(0x8a, 0x7fffdb, 23) && Has(0x8b, 0x7fffdc, 23)
    ensures Has(0x8c, 0x7fffdd, 23) && Has(0x8d, 0x7fffde, 23) && Has(0x8e, 0xffffeb, 24) && Has(0x8f, 0x7fffdf, 23)
    ensures Has(0x90, 0xffffec, 24) && Has(0x91, 0xffffed, 24) && Has(0x92, 0x3fffd7, 22) && Has(0x93, 0x7fffe0, 23)
    ensures Has(0x94, 0xffffee, 24) && Has(0x95, 0x7fffe1, 23) && Has(0x96, 0x7fffe2, 23) && Has(0x97, 0x7fffe3, 23)
    ensures Has(0x98, 0x7fffe4, 23) && Has(0x99, 0x1fffdc, 21) && Has(0x9a, 0x3fffd8, 22) && Has(0x9b, 0x7fffe5, 23)
    ensures Has(0x9c, 0x3fffd9, 22) && Has(0x9d, 0x7fffe6, 23) && Has(0x9e, 0x7fffe7, 23) && Has(0x9f, 0xffffef, 24)
  {
    hide Has; hide Rfc7541;
    HasSym(0x80); HasSym(0x81); HasSym(0x82); HasSym(0x83); HasSym(0x84); HasSym(0x85); HasSym(0x86); HasSym(0x87);
    HasSym(0x88); HasSym(0x89); HasSym(0x8a); HasSym(0x8b); HasSym(0x8c); HasSym(0x8d); HasSym(0x8e); HasSym(0x8f);
    HasSym(0x90); HasSym(0x91); HasSym(0x92); HasSym(0x93); HasSym(0x94); HasSym(0x95); HasSym(0x96); HasSym(0x97);
    HasSym(0x98); HasSym(0x99); HasSym(0x9a); HasSym(0x9b); HasSym(0x9c); HasSym(0x9d); HasSym(0x9e); HasSym(0x9f);
  }

  lemma AppendixBa0Tobf()
    ensures Has(0xa0, 0x3fffda, 22) && Has(0xa1, 0x1fffdd, 21) && Has(0xa2, 0xfffe9, 20) && Has(0xa3, 0x3fffdb, 22)
    ensures Has(0xa4, 0x3fffdc, 22) && Has(0xa5, 0x7fffe8, 23) && Has(0xa6, 0x7fffe9, 23) && Has(0xa7, 0x1fffde, 21)
    ensures Has(0xa8, 0x7fffea, 23) && Has(0xa9, 0x3fffdd, 22) && Has(0xaa, 0x3fffde, 22) && Has(0xab, 0xfffff0, 24)
    ensures Has(0xac, 0x1fffdf, 21) && Has(0xad, 0x3fffdf, 22) && Has(0xae, 0x7fffeb, 23) && Has(0xaf, 0x7fffec, 23)
    ensures Has(0xb0, 0x1fffe0, 21) && Has(0xb1, 0x1fffe1, 21) && Has(0xb2, 0x3fffe0, 22) && Has(0xb3, 0x1fffe2, 21)
    ensures Has(0xb4, 0x7fffed, 23) && Has(0xb5, 0x3fffe1, 22) && Has(0xb6, 0x7fffee, 23) && Has(0xb7, 0x7fffef, 23)
    ensures Has(0xb8, 0xfffea, 20) && Has(0xb9, 0x3fffe2, 22) && Has(0xba, 0x3fffe3, 22) && Has(0xbb, 0x3fffe4, 22)
    ensures Has(0xbc, 0x7ffff0, 23) && Has(0xbd, 0x3fffe5, 22) && Has(0xbe, 0x3fffe6, 22) && Has(0xbf, 0x7ffff1, 23)
  {
    hide Has; hide Rfc7541;
    HasSym(0xa0); HasSym(0xa1); HasSym(0xa2); HasSym(0xa3); HasSym(0xa4); HasSym(0xa5); HasSym(0xa6); HasSym(0xa7);
    HasSym(0xa8); HasSym(0xa9); HasSym(0xaa); HasSym(0xab); HasSym(0xac); HasSym(0xad); HasSym(0xae); HasSym(0xaf);
    HasSym(0xb0); HasSym(0xb1); HasSym(0xb2); HasSym(0xb3); HasSym(0xb4); HasSym(0xb5); HasSym(0xb6); HasSym(0xb7);
    HasSym(0xb8); HasSym(0xb9); HasSym(0xba); HasSym(0xbb); HasSym(0xbc); HasSym(0xbd); HasSym(0xbe); HasSym(0xbf);
  }

  lemma AppendixBc0Todf()
    ensures Has(0xc0, 0x3ffffe0, 26) && Has(0xc1, 0x3ffffe1, 26) && Has(0xc2, 0xfffeb, 20) && Has(0xc3, 0x7fff1, 19)
    ensures Has(0xc4, 0x3fffe7, 22) && Has(0xc5, 0x7ffff2, 23) && Has(0xc6, 0x3fffe8, 22) && Has(0xc7, 0x1ffffec, 25)
    ensures Has(0xc8, 0x3ffffe2, 26) && Has(0xc9, 0x3ffffe3, 26) && Has(0xca, 0x3ffffe4, 26) && Has(0xcb, 0x7ffffde, 27)
    ensures Has(0xcc, 0x7ffffdf, 27) && Has(0xcd, 0x3ffffe5, 26) && Has(0xce, 0xfffff1, 24) && Has(0xcf, 0x1ffffed, 25)
    ensures Has(0xd0, 0x7fff2, 19) && Has(0xd1, 0x1fffe3, 21) && Has(0xd2, 0x3ffffe6, 26) && Has(0xd3, 0x7ffffe0, 27)
    ensures Has(0xd4, 0x7ffffe1, 27) && Has(0xd5, 0x3ffffe7, 26) && Has(0xd6, 0x7ffffe2, 27) && Has(0xd7, 0xfffff2, 24)
    ensures Has(0xd8, 0x1fffe4, 21) && Has(0xd9, 0x1fffe5, 21) && Has(0xda, 0x3ffffe8, 26) && Has(0xdb, 0x3ffffe9, 26)
    ensures Has(0xdc, 0xffffffd, 28) && Has(0xdd, 0x7ffffe3, 27) && Has(0xde, 0x7ffffe4, 27) && Has(0xdf, 0x7ffffe5, 27)
  {
    hide Has; hide Rfc7541;
    HasSym(0xc0); HasSym(0xc1); HasSym(0xc2); HasSym(0xc3); HasSym(0xc4); HasSym(0xc5); HasSym(0xc6); HasSym(0xc7);
    HasSym(0xc8); HasSym(0xc9); HasSym(0xca); HasSym(0xcb); HasSym(0xcc); HasSym(0xcd); HasSym(0xce); HasSym(0xcf);
    HasSym(0xd0); HasSym(0xd1); HasSym(0xd2); HasSym(0xd3); HasSym(0xd4); HasSym(0xd5); HasSym(0xd6); HasSym(0xd7);
    HasSym(0xd8); HasSym(0xd9); HasSym(0xda); HasSym(0xdb); HasSym(0xdc); HasSym(0xdd); HasSym(0xde); HasSym(0xdf);
  }

  lemma AppendixBe0Toff()
    ensures Has(0xe0, 0xfffec, 20) && Has(0xe1, 0xfffff3, 24) && Has(0xe2, 0xfffed, 20) && Has(0xe3, 0x1fffe6, 21)
    ensures Has(0xe4, 0x3fffe9, 22) && Has(0xe5, 0x1fffe7, 21) && Has(0xe6, 0x1fffe8, 21) && Has(0xe7, 0x7ffff3, 23)
    ensures Has(0xe8, 0x3fffea, 22) && Has(0xe9, 0x3fffeb, 22) && Has(0xea, 0x1ffffee, 25) && Has(0xeb, 0x1ffffef, 25)
    ensures Has(0xec, 0xfffff4, 24) && Has(0xed, 0xfffff5, 24) && Has(0xee, 0x3ffffea, 26) && Has(0xef, 0x7ffff4, 23)
    ensures Has(0xf0, 0x3ffffeb, 26) && Has(0xf1, 0x7ffffe6, 27) && Has(0xf2, 0x3ffffec, 26) && Has(0xf3, 0x3ffffed, 26)
    ensures Has(0xf4, 0x7ffffe7, 27) && Has(0xf5, 0x7ffffe8, 27) && Has(0xf6, 0x7ffffe9, 27) && Has(0xf7, 0x7ffffea, 27)
    ensures Has(0xf8, 0x7ffffeb, 27) && Has(0xf9, 0xffffffe, 28) && Has(0xfa, 0x7ffffec, 27) && Has(0xfb, 0x7ffffed, 27)
    ensures Has(0xfc, 0x7ffffee, 27) && Has(0xfd, 0x7ffffef, 27) && Has(0xfe, 0x7fffff0, 27) && Has(0xff, 0x3ffffee, 26)
  {
    hide Has; hide Rfc7541;
    HasSym(0xe0); HasSym(0xe1); HasSym(0xe2); HasSym(0xe3); HasSym(0xe4); HasSym(0xe5); HasSym(0xe6); HasSym(0xe7);
    HasSym(0xe8); HasSym(0xe9); HasSym(0xea); HasSym(0xeb); HasSym(0xec); HasSym(0xed); HasSym(0xee); HasSym(0xef);
    HasSym(0xf0); HasSym(0xf1); HasSym(0xf2); HasSym(0xf3); HasSym(0xf4); HasSym(0xf5); HasSym(0xf6); HasSym(0xf7);
    HasSym(0xf8); HasSym(0xf9); HasSym(0xfa); HasSym(0xfb); HasSym(0xfc); HasSym(0xfd); HasSym(0xfe); HasSym(0xff);
  }
}
