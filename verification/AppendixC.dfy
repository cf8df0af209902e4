/** The examples of appendix C of RFC 7541: octets, what a decoder of the library reports of them, and its table afterwards. */
module AppendixC {
  import opened Common
  import opened Validate
  import opened HuffmanCode
  import opened TableSpec
  import opened DecoderSpec
  import opened DecoderBlock
  import opened EncoderSpec
  import opened StaticTable
  import opened RfcCode
  import opened HuffmanWords
  import opened HuffmanExamples
  import opened Appendices
  import opened BlockExamples
  import opened BlockPatterns

  const COOKIE: string := "foo=ASDJKHQKBZXOQWEOPIUAXQWEOIU;" + " max-age=3600; version=1"

  /** The octets of a text. */
  function Latin(s: string): (o: seq<byte>)
    ensures |o| == |s|
  {
    seq(|s|, i requires 0 <= i < |s| => s[i] as int % 0x100)
  }

  function En(nam: string, val: string): Entry {
    Entry(Latin(nam), Latin(val))
  }

  lemma LatinAscii(s: string)
    requires IsAscii(s)
    ensures Latin(s) == Ascii(s)
  {
  }

  /** Appendix A at work. */
  lemma FixedIs(i: u16, nam: string, val: string)
    requires 1 <= i <= 61 && Resolves(i, nam, val) && |nam| + |val| <= 198
    ensures Fixed(Library(), i, En(nam, val)) && Static(Library(), i, Latin(nam), Latin(val))
  {
    hide Rfc7541; hide At; hide AllGood;
    var e := Library().stat[i - 1];
    assert e.nam == Latin(nam) && e.val == Latin(val);
  }

  lemma Nothing()
    ensures Latin("") == []
  {
  }

  lemma SizeIs(nam: string, val: string)
    ensures EntrySize(En(nam, val)) == 32 + |nam| + |val|
  {
    hide Latin;
  }

  lemma LibraryHas()
    ensures WfEnv(Library()) && Library().code == Rfc7541()
  {
    LibraryIsWf();
    hide Rfc7541; hide WfEnv;
  }

  lemma Texts(val: string)
    requires forall i :: 0 <= i < |val| ==> Printable(val[i])
    ensures IsAscii(val) && Latin(val) == Ascii(val) && ValueOk(Latin(val))
  {
    ValueIsOk(val);
    LatinAscii(val);
    hide ValueOk; hide Latin; hide Ascii; hide Printable;
  }

  /** A string as it is. */
  lemma RawIs(s: string)
    requires |s| < 127 && forall i :: 0 <= i < |s| ==> Printable(s[i])
    ensures WfEnv(Library()) && Coded(Library().code, false, Latin(s), Latin(s))
  {
    LibraryHas();
    Texts(s);
    hide Rfc7541; hide WfCode; hide WfEnv; hide Library; hide ValueOk; hide Latin; hide Ascii; hide Printable;
  }

  /** A string in the code of appendix B. */
  lemma HuffmanIs(s: string, o: seq<byte>)
    requires |o| < 127 && Spells(s, o) && forall i :: 0 <= i < |s| ==> Printable(s[i])
    ensures WfEnv(Library()) && Coded(Library().code, true, Latin(s), o)
  {
    LibraryHas();
    Texts(s);
    hide Rfc7541; hide WfCode; hide WfEnv; hide Library; hide ValueOk; hide Latin; hide Ascii; hide Printable; hide HufEnc;
  }

  lemma GivenIs(j: u16, nam: string, other: string, val: string, huf: bool, o: seq<byte>)
    requires 1 <= j <= 61 && Resolves(j, nam, other) && |nam| + |other| <= 198 && |nam| + |val| <= 166 && |o| < 127
    requires WfEnv(Library()) && Coded(Library().code, huf, Latin(val), o)
    ensures Given(Library(), j, Latin(other), En(nam, val), huf, o)
  {
    FixedIs(j, nam, other);
    hide Rfc7541; hide WfCode; hide WfEnv; hide Library; hide Latin; hide Coded; hide Static; hide Resolves;
  }

  lemma NameIs(nam: string)
    requires 0 < |nam| && forall i :: 0 <= i < |nam| ==> NameLetter(nam[i])
    ensures Latin(nam) != [] && Token(Latin(nam)) == OK
  {
    NameIsToken(nam);
    LatinAscii(nam);
    hide Latin; hide Token; hide Ascii; hide NameLetter;
  }

  lemma NewIs(nam: string, val: string, huf: bool, m: seq<byte>, o: seq<byte>)
    requires WfEnv(Library()) && Coded(Library().code, huf, Latin(nam), m) && Coded(Library().code, huf, Latin(val), o)
    requires 0 < |nam| && (forall i :: 0 <= i < |nam| ==> NameLetter(nam[i])) && |nam| + |val| <= 166 && |m| < 127 && |o| < 127
    ensures NewGiven(Library(), En(nam, val), huf, m, o)
  {
    NameIs(nam);
    hide Rfc7541; hide WfCode; hide WfEnv; hide Library; hide Latin; hide Coded; hide Token; hide Ascii; hide NameLetter;
  }

  // ---- section C.2: one field ----

  /** Section C.2.1 */
  lemma C21(d: Dec) returns (d': Dec)
    requires Idle(d, 4096, [])
    ensures Example(Library(), d, 4096,
                    [Lit(Dyn, ByName(Str(false, Latin("custom-key"))), Str(false, Latin("custom-header")))],
                    [0x40, 0x0a] + Latin("custom-key") + [0x0d] + Latin("custom-header"),
                    [FieldEvt(0), NameEvt(Latin("custom-key")), ValueEvt(Latin("custom-header")), IndexEvt(55)],
                    [En("custom-key", "custom-header")], d')
  {
    hide Latin; hide Coded; hide NewGiven; hide Idle; hide On; hide Example; hide WfEnv; hide WfCode; hide Makes; hide Total;
    hide EntrySize; hide Library; hide Rfc7541;
    RawIs("custom-key");
    RawIs("custom-header");
    NewIs("custom-key", "custom-header", false, Latin("custom-key"), Latin("custom-header"));
    SizeIs("custom-key", "custom-header");
    TotalIs([]);
    NoneGoes([], 55, 4096);
    var t := Begins(Library(), d, 4096, []);
    t := EntersNew(Library(), Start(d, BUFFER), 4096, [], t, En("custom-key", "custom-header"), false, Latin("custom-key"),
                   Latin("custom-header"));
    assert [En("custom-key", "custom-header")] + [] == [En("custom-key", "custom-header")];
    assert t.l == [Lit(Dyn, ByName(Str(false, Latin("custom-key"))), Str(false, Latin("custom-header")))];
    assert t.w == [0x40, 0x0a] + Latin("custom-key") + [0x0d] + Latin("custom-header");
    assert t.evs == [FieldEvt(0), NameEvt(Latin("custom-key")), ValueEvt(Latin("custom-header")), IndexEvt(55)];
    Ends(Library(), d, 4096, [En("custom-key", "custom-header")], t);
    d' := t.d;
  }

  /** Section C.2.2 */
  lemma C22(d: Dec) returns (d': Dec)
    requires Idle(d, 4096, [])
    ensures Example(Library(), d, 4096,
                    [Lit(Plain, ByIndex(4), Str(false, Latin("/sample/path")))],
                    [0x04, 0x0c] + Latin("/sample/path"),
                    [FieldEvt(0), NameEvt(Latin(":path")), ValueEvt(Latin("/sample/path"))],
                    [], d')
  {
    hide Latin; hide Coded; hide Static; hide Idle; hide On; hide Example; hide WfEnv; hide WfCode; hide Written; hide Library;
    hide Rfc7541; hide Resolves; hide Lookup;
    AppendixA1To16();
    RawIs("/sample/path");
    FixedIs(4, ":path", "/");
    StaticFacts(Library(), [], 4, Latin(":path"), Latin("/"));
    IndexWritten(Library(), [], Plain, 4, En(":path", "/"), false, Latin("/sample/path"), Latin("/sample/path"));
    var t := Begins(Library(), d, 4096, []);
    t := PlainField(Library(), Start(d, BUFFER), 4096, [], t, false, ByIndex(4), Latin(":path"), Str(false, Latin("/sample/path")),
                    [0x04, 0x0c] + Latin("/sample/path"));
    assert t.l == [Lit(Plain, ByIndex(4), Str(false, Latin("/sample/path")))];
    assert t.w == [0x04, 0x0c] + Latin("/sample/path");
    assert t.evs == [FieldEvt(0), NameEvt(Latin(":path")), ValueEvt(Latin("/sample/path"))];
    Ends(Library(), d, 4096, [], t);
    d' := t.d;
  }

  /** Section C.2.3: a field that is never indexed */
  lemma C23(d: Dec) returns (d': Dec)
    requires Idle(d, 4096, [])
    ensures Example(Library(), d, 4096,
                    [Lit(Nvr, ByName(Str(false, Latin("password"))), Str(false, Latin("secret")))],
                    [0x10, 0x08] + Latin("password") + [0x06] + Latin("secret"),
                    [FieldEvt(0), NeverEvt, NameEvt(Latin("password")), ValueEvt(Latin("secret"))],
                    [], d')
  {
    hide Latin; hide Coded; hide Idle; hide On; hide Example; hide WfEnv; hide WfCode; hide Written; hide Library; hide Rfc7541;
    hide Token;
    RawIs("password");
    RawIs("secret");
    NameIs("password");
    NameWritten(Library(), [], Nvr, false, Latin("password"), Latin("password"), Latin("secret"), Latin("secret"));
    var t := Begins(Library(), d, 4096, []);
    t := PlainField(Library(), Start(d, BUFFER), 4096, [], t, true, ByName(Str(false, Latin("password"))), Latin("password"),
                    Str(false, Latin("secret")), [0x10, 0x08] + Latin("password") + [0x06] + Latin("secret"));
    assert t.l == [Lit(Nvr, ByName(Str(false, Latin("password"))), Str(false, Latin("secret")))];
    assert t.w == [0x10, 0x08] + Latin("password") + [0x06] + Latin("secret");
    assert t.evs == [FieldEvt(0), NeverEvt, NameEvt(Latin("password")), ValueEvt(Latin("secret"))];
    Ends(Library(), d, 4096, [], t);
    d' := t.d;
  }

  /** Section C.2.4 */
  lemma C24(d: Dec) returns (d': Dec)
    requires Idle(d, 4096, [])
    ensures Example(Library(), d, 4096,
                    [Idx(2)],
                    [0x82],
                    [FieldEvt(2), NameEvt(Latin(":method")), ValueEvt(Latin("GET"))],
                    [], d')
  {
    hide Latin; hide Static; hide Idle; hide On; hide Example; hide WfEnv; hide Library; hide Rfc7541; hide Resolves;
    AppendixA1To16();
    LibraryHas();
    FixedIs(2, ":method", "GET");
    var t := Begins(Library(), d, 4096, []);
    t := FixedField(Library(), Start(d, BUFFER), 4096, [], t, 2, Latin(":method"), Latin("GET"));
    assert t.l == [Idx(2)];
    assert t.w == [0x82];
    assert t.evs == [FieldEvt(2), NameEvt(Latin(":method")), ValueEvt(Latin("GET"))];
    Ends(Library(), d, 4096, [], t);
    d' := t.d;
  }

  // ---- sections C.3 and C.4: requests; sections C.5 and C.6: responses ----

  /** Section C.3.1 */
  lemma C31(d: Dec) returns (d': Dec)
    requires Idle(d, 4096, [])
    ensures Example(Library(), d, 4096,
                    [Idx(2), Idx(6), Idx(4), Lit(Dyn, ByIndex(1), Str(false, Latin("www.example.com")))],
                    [0x82] + [0x86] + [0x84] + ([0x41, 0x0f] + Latin("www.example.com")),
                    [FieldEvt(2), NameEvt(Latin(":method")), ValueEvt(Latin("GET"))] +
                    [FieldEvt(6), NameEvt(Latin(":scheme")), ValueEvt(Latin("http"))] +
                    [FieldEvt(4), NameEvt(Latin(":path")), ValueEvt(Latin("/"))] +
                    [FieldEvt(0), NameEvt(Latin(":authority")), ValueEvt(Latin("www.example.com")), IndexEvt(57)],
                    [En(":authority", "www.example.com")], d')
  {
    hide Latin; hide Coded; hide Static; hide Given; hide NewGiven; hide Fixed; hide Idle; hide Example; hide WfEnv; hide WfCode;
    hide EntrySize; hide Library; hide Rfc7541; hide Resolves; hide Spells;
    AppendixA1To16(); Nothing();
    FixedIs(2, ":method", "GET");
    FixedIs(6, ":scheme", "http");
    FixedIs(4, ":path", "/");
    RawIs("www.example.com");
    GivenIs(1, ":authority", "", "www.example.com", false, Latin("www.example.com"));
    SizeIs(":authority", "www.example.com");
    d' := Request1(Library(), d, En(":method", "GET"), En(":scheme", "http"), En(":path", "/"), En(":authority",
      "www.example.com"), false, Latin("www.example.com"));
  }

  /** Section C.3.2 */
  lemma C32(d: Dec) returns (d': Dec)
    requires Idle(d, 4096, [En(":authority", "www.example.com")])
    ensures Example(Library(), d, 4096,
                    [Idx(2), Idx(6), Idx(4), Idx(62), Lit(Dyn, ByIndex(24), Str(false, Latin("no-cache")))],
                    [0x82] + [0x86] + [0x84] + [0xbe] + ([0x58, 0x08] + Latin("no-cache")),
                    [FieldEvt(2), NameEvt(Latin(":method")), ValueEvt(Latin("GET"))] +
                    [FieldEvt(6), NameEvt(Latin(":scheme")), ValueEvt(Latin("http"))] +
                    [FieldEvt(4), NameEvt(Latin(":path")), ValueEvt(Latin("/"))] +
                    [FieldEvt(62), NameEvt(Latin(":authority")), ValueEvt(Latin("www.example.com"))] +
                    [FieldEvt(0), NameEvt(Latin("cache-control")), ValueEvt(Latin("no-cache")), IndexEvt(53)],
                    [En("cache-control", "no-cache"), En(":authority", "www.example.com")], d')
  {
    hide Latin; hide Coded; hide Static; hide Given; hide NewGiven; hide Fixed; hide Idle; hide Example; hide WfEnv; hide WfCode;
    hide EntrySize; hide Library; hide Rfc7541; hide Resolves; hide Spells;
    AppendixA1To16(); AppendixA17To32(); Nothing();
    FixedIs(2, ":method", "GET");
    FixedIs(6, ":scheme", "http");
    FixedIs(4, ":path", "/");
    RawIs("no-cache");
    GivenIs(24, "cache-control", "", "no-cache", false, Latin("no-cache"));
    SizeIs(":authority", "www.example.com"); SizeIs("cache-control", "no-cache");
    d' := Request2(Library(), d, En(":method", "GET"), En(":scheme", "http"), En(":path", "/"), En(":authority",
      "www.example.com"), En("cache-control", "no-cache"), false, Latin("no-cache"));
  }

  /** Section C.3.3 */
  lemma C33(d: Dec) returns (d': Dec)
    requires Idle(d, 4096, [En("cache-control", "no-cache"), En(":authority", "www.example.com")])
    ensures Example(Library(), d, 4096,
                    [Idx(2), Idx(7), Idx(5), Idx(63), Lit(Dyn, ByName(Str(false, Latin("custom-key"))), Str(false,
                     Latin("custom-value")))],
                    [0x82] + [0x87] + [0x85] + [0xbf] + ([0x40, 0x0a] + Latin("custom-key") + [0x0c] + Latin("custom-value")),
                    [FieldEvt(2), NameEvt(Latin(":method")), ValueEvt(Latin("GET"))] +
                    [FieldEvt(7), NameEvt(Latin(":scheme")), ValueEvt(Latin("https"))] +
                    [FieldEvt(5), NameEvt(Latin(":path")), ValueEvt(Latin("/index.html"))] +
                    [FieldEvt(63), NameEvt(Latin(":authority")), ValueEvt(Latin("www.example.com"))] +
                    [FieldEvt(0), NameEvt(Latin("custom-key")), ValueEvt(Latin("custom-value")), IndexEvt(54)],
                    [En("custom-key", "custom-value"), En("cache-control", "no-cache"), En(":authority", "www.example.com")],
                     d')
  {
    hide Latin; hide Coded; hide Static; hide Given; hide NewGiven; hide Fixed; hide Idle; hide Example; hide WfEnv; hide WfCode;
    hide EntrySize; hide Library; hide Rfc7541; hide Resolves; hide Spells;
    AppendixA1To16(); Nothing();
    FixedIs(2, ":method", "GET");
    FixedIs(7, ":scheme", "https");
    FixedIs(5, ":path", "/index.html");
    RawIs("custom-key");
    RawIs("custom-value");
    NewIs("custom-key", "custom-value", false, Latin("custom-key"), Latin("custom-value"));
    SizeIs(":authority", "www.example.com"); SizeIs("cache-control", "no-cache"); SizeIs("custom-key", "custom-value");
    d' := Request3(Library(), d, En(":method", "GET"), En(":scheme", "https"), En(":path", "/index.html"), En("cache-control",
      "no-cache"), En(":authority", "www.example.com"), En("custom-key", "custom-value"), false, Latin("custom-key"),
      Latin("custom-value"));
  }

  /** Section C.4.1 */
  lemma C41(d: Dec) returns (d': Dec)
    requires Idle(d, 4096, [])
    ensures Example(Library(), d, 4096,
                    [Idx(2), Idx(6), Idx(4), Lit(Dyn, ByIndex(1), Str(true, Latin("www.example.com")))],
                    [0x82] + [0x86] + [0x84] + ([0x41, 0x8c] + [0xf1, 0xe3, 0xc2, 0xe5, 0xf2, 0x3a, 0x6b, 0xa0, 0xab, 0x90,
                    0xf4, 0xff]),
                    [FieldEvt(2), NameEvt(Latin(":method")), ValueEvt(Latin("GET"))] +
                    [FieldEvt(6), NameEvt(Latin(":scheme")), ValueEvt(Latin("http"))] +
                    [FieldEvt(4), NameEvt(Latin(":path")), ValueEvt(Latin("/"))] +
                    [FieldEvt(0), NameEvt(Latin(":authority")), ValueEvt(Latin("www.example.com")), IndexEvt(57)],
                    [En(":authority", "www.example.com")], d')
  {
    hide Latin; hide Coded; hide Static; hide Given; hide NewGiven; hide Fixed; hide Idle; hide Example; hide WfEnv; hide WfCode;
    hide EntrySize; hide Library; hide Rfc7541; hide Resolves; hide Spells;
    AppendixA1To16(); Nothing();
    FixedIs(2, ":method", "GET");
    FixedIs(6, ":scheme", "http");
    FixedIs(4, ":path", "/");
    Www();
    HuffmanIs("www.example.com", [0xf1, 0xe3, 0xc2, 0xe5, 0xf2, 0x3a, 0x6b, 0xa0, 0xab, 0x90, 0xf4, 0xff]);
    GivenIs(1, ":authority", "", "www.example.com", true, [0xf1, 0xe3, 0xc2, 0xe5, 0xf2, 0x3a, 0x6b, 0xa0, 0xab, 0x90, 0xf4,
      0xff]);
    SizeIs(":authority", "www.example.com");
    d' := Request1(Library(), d, En(":method", "GET"), En(":scheme", "http"), En(":path", "/"), En(":authority",
      "www.example.com"), true, [0xf1, 0xe3, 0xc2, 0xe5, 0xf2, 0x3a, 0x6b, 0xa0, 0xab, 0x90, 0xf4, 0xff]);
  }

  /** Section C.4.2 */
  lemma C42(d: Dec) returns (d': Dec)
    requires Idle(d, 4096, [En(":authority", "www.example.com")])
    ensures Example(Library(), d, 4096,
                    [Idx(2), Idx(6), Idx(4), Idx(62), Lit(Dyn, ByIndex(24), Str(true, Latin("no-cache")))],
                    [0x82] + [0x86] + [0x84] + [0xbe] + ([0x58, 0x86] + [0xa8, 0xeb, 0x10, 0x64, 0x9c, 0xbf]),
                    [FieldEvt(2), NameEvt(Latin(":method")), ValueEvt(Latin("GET"))] +
                    [FieldEvt(6), NameEvt(Latin(":scheme")), ValueEvt(Latin("http"))] +
                    [FieldEvt(4), NameEvt(Latin(":path")), ValueEvt(Latin("/"))] +
                    [FieldEvt(62), NameEvt(Latin(":authority")), ValueEvt(Latin("www.example.com"))] +
                    [FieldEvt(0), NameEvt(Latin("cache-control")), ValueEvt(Latin("no-cache")), IndexEvt(53)],
                    [En("cache-control", "no-cache"), En(":authority", "www.example.com")], d')
  {
    hide Latin; hide Coded; hide Static; hide Given; hide NewGiven; hide Fixed; hide Idle; hide Example; hide WfEnv; hide WfCode;
    hide EntrySize; hide Library; hide Rfc7541; hide Resolves; hide Spells;
    AppendixA1To16(); AppendixA17To32(); Nothing();
    FixedIs(2, ":method", "GET");
    FixedIs(6, ":scheme", "http");
    FixedIs(4, ":path", "/");
    NoCache();
    HuffmanIs("no-cache", [0xa8, 0xeb, 0x10, 0x64, 0x9c, 0xbf]);
    GivenIs(24, "cache-control", "", "no-cache", true, [0xa8, 0xeb, 0x10, 0x64, 0x9c, 0xbf]);
    SizeIs(":authority", "www.example.com"); SizeIs("cache-control", "no-cache");
    d' := Request2(Library(), d, En(":method", "GET"), En(":scheme", "http"), En(":path", "/"), En(":authority",
      "www.example.com"), En("cache-control", "no-cache"), true, [0xa8, 0xeb, 0x10, 0x64, 0x9c, 0xbf]);
  }

  /** Section C.4.3 */
  lemma C43(d: Dec) returns (d': Dec)
    requires Idle(d, 4096, [En("cache-control", "no-cache"), En(":authority", "www.example.com")])
    ensures Example(Library(), d, 4096,
                    [Idx(2), Idx(7), Idx(5), Idx(63), Lit(Dyn, ByName(Str(true, Latin("custom-key"))), Str(true,
                     Latin("custom-value")))],
                    [0x82] + [0x87] + [0x85] + [0xbf] + ([0x40, 0x88] + [0x25, 0xa8, 0x49, 0xe9, 0x5b, 0xa9, 0x7d, 0x7f] +
                    [0x89] + [0x25, 0xa8, 0x49, 0xe9, 0x5b, 0xb8, 0xe8, 0xb4, 0xbf]),
                    [FieldEvt(2), NameEvt(Latin(":method")), ValueEvt(Latin("GET"))] +
                    [FieldEvt(7), NameEvt(Latin(":scheme")), ValueEvt(Latin("https"))] +
                    [FieldEvt(5), NameEvt(Latin(":path")), ValueEvt(Latin("/index.html"))] +
                    [FieldEvt(63), NameEvt(Latin(":authority")), ValueEvt(Latin("www.example.com"))] +
                    [FieldEvt(0), NameEvt(Latin("custom-key")), ValueEvt(Latin("custom-value")), IndexEvt(54)],
                    [En("custom-key", "custom-value"), En("cache-control", "no-cache"), En(":authority", "www.example.com")],
                     d')
  {
    hide Latin; hide Coded; hide Static; hide Given; hide NewGiven; hide Fixed; hide Idle; hide Example; hide WfEnv; hide WfCode;
    hide EntrySize; hide Library; hide Rfc7541; hide Resolves; hide Spells;
    AppendixA1To16(); Nothing();
    FixedIs(2, ":method", "GET");
    FixedIs(7, ":scheme", "https");
    FixedIs(5, ":path", "/index.html");
    CustomKey();
    HuffmanIs("custom-key", [0x25, 0xa8, 0x49, 0xe9, 0x5b, 0xa9, 0x7d, 0x7f]);
    CustomValue();
    HuffmanIs("custom-value", [0x25, 0xa8, 0x49, 0xe9, 0x5b, 0xb8, 0xe8, 0xb4, 0xbf]);
    NewIs("custom-key", "custom-value", true, [0x25, 0xa8, 0x49, 0xe9, 0x5b, 0xa9, 0x7d, 0x7f], [0x25, 0xa8, 0x49, 0xe9, 0x5b,
      0xb8, 0xe8, 0xb4, 0xbf]);
    SizeIs(":authority", "www.example.com"); SizeIs("cache-control", "no-cache"); SizeIs("custom-key", "custom-value");
    d' := Request3(Library(), d, En(":method", "GET"), En(":scheme", "https"), En(":path", "/index.html"), En("cache-control",
      "no-cache"), En(":authority", "www.example.com"), En("custom-key", "custom-value"), true, [0x25, 0xa8, 0x49, 0xe9, 0x5b,
      0xa9, 0x7d, 0x7f], [0x25, 0xa8, 0x49, 0xe9, 0x5b, 0xb8, 0xe8, 0xb4, 0xbf]);
  }

  /** Section C.5.1 */
  lemma C51(d: Dec) returns (d': Dec)
    requires Idle(d, 256, [])
    ensures Example(Library(), d, 256,
                    [Lit(Dyn, ByIndex(8), Str(false, Latin("302"))), Lit(Dyn, ByIndex(24), Str(false, Latin("private"))),
                     Lit(Dyn, ByIndex(33), Str(false, Latin("Mon, 21 Oct 2013 20:13:21 GMT"))), Lit(Dyn, ByIndex(46), Str(false,
                     Latin("https://www.example.com")))],
                    ([0x48, 0x03] + Latin("302")) + ([0x58, 0x07] + Latin("private")) + ([0x61, 0x1d] +
                    Latin("Mon, 21 Oct 2013 20:13:21 GMT")) + ([0x6e, 0x17] + Latin("https://www.example.com")),
                    [FieldEvt(0), NameEvt(Latin(":status")), ValueEvt(Latin("302")), IndexEvt(42)] +
                    [FieldEvt(0), NameEvt(Latin("cache-control")), ValueEvt(Latin("private")), IndexEvt(52)] +
                    [FieldEvt(0), NameEvt(Latin("date")), ValueEvt(Latin("Mon, 21 Oct 2013 20:13:21 GMT")), IndexEvt(65)] +
                    [FieldEvt(0), NameEvt(Latin("location")), ValueEvt(Latin("https://www.example.com")), IndexEvt(63)],
                    [En("location", "https://www.example.com"), En("date", "Mon, 21 Oct 2013 20:13:21 GMT"), En("cache-control",
                     "private"), En(":status", "302")], d')
  {
    hide Latin; hide Coded; hide Static; hide Given; hide NewGiven; hide Fixed; hide Idle; hide Example; hide WfEnv; hide WfCode;
    hide EntrySize; hide Library; hide Rfc7541; hide Resolves; hide Spells;
    AppendixA1To16(); AppendixA17To32(); AppendixA33To48(); Nothing();
    RawIs("302");
    GivenIs(8, ":status", "200", "302", false, Latin("302"));
    RawIs("private");
    GivenIs(24, "cache-control", "", "private", false, Latin("private"));
    RawIs("Mon, 21 Oct 2013 20:13:21 GMT");
    GivenIs(33, "date", "", "Mon, 21 Oct 2013 20:13:21 GMT", false, Latin("Mon, 21 Oct 2013 20:13:21 GMT"));
    RawIs("https://www.example.com");
    GivenIs(46, "location", "", "https://www.example.com", false, Latin("https://www.example.com"));
    SizeIs(":status", "302"); SizeIs("cache-control", "private"); SizeIs("date", "Mon, 21 Oct 2013 20:13:21 GMT");
    SizeIs("location", "https://www.example.com");
    d' := Response1(Library(), d, Latin("200"), En(":status", "302"), En("cache-control", "private"), En("date",
      "Mon, 21 Oct 2013 20:13:21 GMT"), En("location", "https://www.example.com"), false, Latin("302"), Latin("private"),
      Latin("Mon, 21 Oct 2013 20:13:21 GMT"), Latin("https://www.example.com"));
  }

  /** Section C.5.2 */
  lemma C52(d: Dec) returns (d': Dec)
    requires Idle(d, 256, [En("location", "https://www.example.com"), En("date", "Mon, 21 Oct 2013 20:13:21 GMT"),
      En("cache-control", "private"), En(":status", "302")])
    ensures Example(Library(), d, 256,
                    [Lit(Dyn, ByIndex(8), Str(false, Latin("307"))), Idx(65), Idx(64), Idx(63)],
                    ([0x48, 0x03] + Latin("307")) + [0xc1] + [0xc0] + [0xbf],
                    [FieldEvt(0), NameEvt(Latin(":status")), ValueEvt(Latin("307")), EvictEvt(1), IndexEvt(42)] +
                    [FieldEvt(65), NameEvt(Latin("cache-control")), ValueEvt(Latin("private"))] +
                    [FieldEvt(64), NameEvt(Latin("date")), ValueEvt(Latin("Mon, 21 Oct 2013 20:13:21 GMT"))] +
                    [FieldEvt(63), NameEvt(Latin("location")), ValueEvt(Latin("https://www.example.com"))],
                    [En(":status", "307"), En("location", "https://www.example.com"), En("date",
                     "Mon, 21 Oct 2013 20:13:21 GMT"), En("cache-control", "private")], d')
  {
    hide Latin; hide Coded; hide Static; hide Given; hide NewGiven; hide Fixed; hide Idle; hide Example; hide WfEnv; hide WfCode;
    hide EntrySize; hide Library; hide Rfc7541; hide Resolves; hide Spells;
    AppendixA1To16(); Nothing();
    RawIs("307");
    GivenIs(8, ":status", "200", "307", false, Latin("307"));
    SizeIs(":status", "307"); SizeIs(":status", "302"); SizeIs("cache-control", "private"); SizeIs("date",
    "Mon, 21 Oct 2013 20:13:21 GMT"); SizeIs("location", "https://www.example.com");
    d' := Response2(Library(), d, Latin("200"), En(":status", "307"), En("location", "https://www.example.com"), En("date",
      "Mon, 21 Oct 2013 20:13:21 GMT"), En("cache-control", "private"), En(":status", "302"), false, Latin("307"));
  }

  /** Section C.5.3 */
  lemma C53(d: Dec) returns (d': Dec)
    requires Idle(d, 256, [En(":status", "307"), En("location", "https://www.example.com"), En("date",
      "Mon, 21 Oct 2013 20:13:21 GMT"), En("cache-control", "private")])
    ensures Example(Library(), d, 256,
                    [Idx(8), Idx(65), Lit(Dyn, ByIndex(33), Str(false, Latin("Mon, 21 Oct 2013 20:13:22 GMT"))), Idx(64),
                     Lit(Dyn, ByIndex(26), Str(false, Latin("gzip"))), Lit(Dyn, ByIndex(55), Str(false, Latin(COOKIE)))],
                    [0x88] + [0xc1] + ([0x61, 0x1d] + Latin("Mon, 21 Oct 2013 20:13:22 GMT")) + [0xc0] + ([0x5a, 0x04] +
                    Latin("gzip")) + ([0x77, 0x38] + Latin(COOKIE)),
                    [FieldEvt(8), NameEvt(Latin(":status")), ValueEvt(Latin("200"))] +
                    [FieldEvt(65), NameEvt(Latin("cache-control")), ValueEvt(Latin("private"))] +
                    [FieldEvt(0), NameEvt(Latin("date")), ValueEvt(Latin("Mon, 21 Oct 2013 20:13:22 GMT")), EvictEvt(1),
                      IndexEvt(65)] +
                    [FieldEvt(64), NameEvt(Latin("location")), ValueEvt(Latin("https://www.example.com"))] +
                    [FieldEvt(0), NameEvt(Latin("content-encoding")), ValueEvt(Latin("gzip")), EvictEvt(1), IndexEvt(52)] +
                    [FieldEvt(0), NameEvt(Latin("set-cookie")), ValueEvt(Latin(COOKIE)), EvictEvt(2), IndexEvt(98)],
                    [En("set-cookie", COOKIE), En("content-encoding", "gzip"), En("date", "Mon, 21 Oct 2013 20:13:22 GMT")], d')
  {
    hide Latin; hide Coded; hide Static; hide Given; hide NewGiven; hide Fixed; hide Idle; hide Example; hide WfEnv; hide WfCode;
    hide EntrySize; hide Library; hide Rfc7541; hide Resolves; hide Spells;
    AppendixA1To16(); AppendixA17To32(); AppendixA33To48(); AppendixA49To61(); Nothing();
    FixedIs(8, ":status", "200");
    RawIs("Mon, 21 Oct 2013 20:13:22 GMT");
    GivenIs(33, "date", "", "Mon, 21 Oct 2013 20:13:22 GMT", false, Latin("Mon, 21 Oct 2013 20:13:22 GMT"));
    RawIs("gzip");
    GivenIs(26, "content-encoding", "", "gzip", false, Latin("gzip"));
    RawIs(COOKIE);
    GivenIs(55, "set-cookie", "", COOKIE, false, Latin(COOKIE));
    SizeIs(":status", "307"); SizeIs("location", "https://www.example.com"); SizeIs("date", "Mon, 21 Oct 2013 20:13:21 GMT");
    SizeIs("cache-control", "private"); SizeIs("date", "Mon, 21 Oct 2013 20:13:22 GMT"); SizeIs("content-encoding", "gzip");
    SizeIs("set-cookie", COOKIE);
    d' := Response3(Library(), d, En(":status", "200"), En(":status", "307"), En("location", "https://www.example.com"),
      En("date", "Mon, 21 Oct 2013 20:13:21 GMT"), En("cache-control", "private"), En("date", "Mon, 21 Oct 2013 20:13:22 GMT"),
      En("content-encoding", "gzip"), En("set-cookie", COOKIE), false, Latin("Mon, 21 Oct 2013 20:13:22 GMT"), Latin("gzip"),
      Latin(COOKIE));
  }

  /** Section C.6.1 */
  lemma C61(d: Dec) returns (d': Dec)
    requires Idle(d, 256, [])
    ensures Example(Library(), d, 256,
                    [Lit(Dyn, ByIndex(8), Str(true, Latin("302"))), Lit(Dyn, ByIndex(24), Str(true, Latin("private"))), Lit(Dyn,
                     ByIndex(33), Str(true, Latin("Mon, 21 Oct 2013 20:13:21 GMT"))), Lit(Dyn, ByIndex(46), Str(true,
                     Latin("https://www.example.com")))],
                    ([0x48, 0x82] + [0x64, 0x02]) + ([0x58, 0x85] + [0xae, 0xc3, 0x77, 0x1a, 0x4b]) + ([0x61, 0x96] + [0xd0,
                    0x7a, 0xbe, 0x94, 0x10, 0x54, 0xd4, 0x44, 0xa8, 0x20, 0x05, 0x95, 0x04, 0x0b, 0x81, 0x66, 0xe0, 0x82, 0xa6,
                    0x2d, 0x1b, 0xff]) + ([0x6e, 0x91] + [0x9d, 0x29, 0xad, 0x17, 0x18, 0x63, 0xc7, 0x8f, 0x0b, 0x97, 0xc8,
                    0xe9, 0xae, 0x82, 0xae, 0x43, 0xd3]),
                    [FieldEvt(0), NameEvt(Latin(":status")), ValueEvt(Latin("302")), IndexEvt(42)] +
                    [FieldEvt(0), NameEvt(Latin("cache-control")), ValueEvt(Latin("private")), IndexEvt(52)] +
                    [FieldEvt(0), NameEvt(Latin("date")), ValueEvt(Latin("Mon, 21 Oct 2013 20:13:21 GMT")), IndexEvt(65)] +
                    [FieldEvt(0), NameEvt(Latin("location")), ValueEvt(Latin("https://www.example.com")), IndexEvt(63)],
                    [En("location", "https://www.example.com"), En("date", "Mon, 21 Oct 2013 20:13:21 GMT"), En("cache-control",
                     "private"), En(":status", "302")], d')
  {
    hide Latin; hide Coded; hide Static; hide Given; hide NewGiven; hide Fixed; hide Idle; hide Example; hide WfEnv; hide WfCode;
    hide EntrySize; hide Library; hide Rfc7541; hide Resolves; hide Spells;
    AppendixA1To16(); AppendixA17To32(); AppendixA33To48(); Nothing();
    Code302();
    HuffmanIs("302", [0x64, 0x02]);
    GivenIs(8, ":status", "200", "302", true, [0x64, 0x02]);
    Private();
    HuffmanIs("private", [0xae, 0xc3, 0x77, 0x1a, 0x4b]);
    GivenIs(24, "cache-control", "", "private", true, [0xae, 0xc3, 0x77, 0x1a, 0x4b]);
    Date21();
    HuffmanIs("Mon, 21 Oct 2013 20:13:21 GMT", [0xd0, 0x7a, 0xbe, 0x94, 0x10, 0x54, 0xd4, 0x44, 0xa8, 0x20, 0x05, 0x95, 0x04,
      0x0b, 0x81, 0x66, 0xe0, 0x82, 0xa6, 0x2d, 0x1b, 0xff]);
    GivenIs(33, "date", "", "Mon, 21 Oct 2013 20:13:21 GMT", true, [0xd0, 0x7a, 0xbe, 0x94, 0x10, 0x54, 0xd4, 0x44, 0xa8, 0x20,
      0x05, 0x95, 0x04, 0x0b, 0x81, 0x66, 0xe0, 0x82, 0xa6, 0x2d, 0x1b, 0xff]);
    Https();
    HuffmanIs("https://www.example.com", [0x9d, 0x29, 0xad, 0x17, 0x18, 0x63, 0xc7, 0x8f, 0x0b, 0x97, 0xc8, 0xe9, 0xae, 0x82,
      0xae, 0x43, 0xd3]);
    GivenIs(46, "location", "", "https://www.example.com", true, [0x9d, 0x29, 0xad, 0x17, 0x18, 0x63, 0xc7, 0x8f, 0x0b, 0x97,
      0xc8, 0xe9, 0xae, 0x82, 0xae, 0x43, 0xd3]);
    SizeIs(":status", "302"); SizeIs("cache-control", "private"); SizeIs("date", "Mon, 21 Oct 2013 20:13:21 GMT");
    SizeIs("location", "https://www.example.com");
    d' := Response1(Library(), d, Latin("200"), En(":status", "302"), En("cache-control", "private"), En("date",
      "Mon, 21 Oct 2013 20:13:21 GMT"), En("location", "https://www.example.com"), true, [0x64, 0x02], [0xae, 0xc3, 0x77, 0x1a,
      0x4b], [0xd0, 0x7a, 0xbe, 0x94, 0x10, 0x54, 0xd4, 0x44, 0xa8, 0x20, 0x05, 0x95, 0x04, 0x0b, 0x81, 0x66, 0xe0, 0x82, 0xa6,
      0x2d, 0x1b, 0xff], [0x9d, 0x29, 0xad, 0x17, 0x18, 0x63, 0xc7, 0x8f, 0x0b, 0x97, 0xc8, 0xe9, 0xae, 0x82, 0xae, 0x43,
      0xd3]);
  }

  /** Section C.6.2 */
  lemma C62(d: Dec) returns (d': Dec)
    requires Idle(d, 256, [En("location", "https://www.example.com"), En("date", "Mon, 21 Oct 2013 20:13:21 GMT"),
      En("cache-control", "private"), En(":status", "302")])
    ensures Example(Library(), d, 256,
                    [Lit(Dyn, ByIndex(8), Str(true, Latin("307"))), Idx(65), Idx(64), Idx(63)],
                    ([0x48, 0x83] + [0x64, 0x0e, 0xff]) + [0xc1] + [0xc0] + [0xbf],
                    [FieldEvt(0), NameEvt(Latin(":status")), ValueEvt(Latin("307")), EvictEvt(1), IndexEvt(42)] +
                    [FieldEvt(65), NameEvt(Latin("cache-control")), ValueEvt(Latin("private"))] +
                    [FieldEvt(64), NameEvt(Latin("date")), ValueEvt(Latin("Mon, 21 Oct 2013 20:13:21 GMT"))] +
                    [FieldEvt(63), NameEvt(Latin("location")), ValueEvt(Latin("https://www.example.com"))],
                    [En(":status", "307"), En("location", "https://www.example.com"), En("date",
                     "Mon, 21 Oct 2013 20:13:21 GMT"), En("cache-control", "private")], d')
  {
    hide Latin; hide Coded; hide Static; hide Given; hide NewGiven; hide Fixed; hide Idle; hide Example; hide WfEnv; hide WfCode;
    hide EntrySize; hide Library; hide Rfc7541; hide Resolves; hide Spells;
    AppendixA1To16(); Nothing();
    Code307();
    HuffmanIs("307", [0x64, 0x0e, 0xff]);
    GivenIs(8, ":status", "200", "307", true, [0x64, 0x0e, 0xff]);
    SizeIs(":status", "307"); SizeIs(":status", "302"); SizeIs("cache-control", "private"); SizeIs("date",
    "Mon, 21 Oct 2013 20:13:21 GMT"); SizeIs("location", "https://www.example.com");
    d' := Response2(Library(), d, Latin("200"), En(":status", "307"), En("location", "https://www.example.com"), En("date",
      "Mon, 21 Oct 2013 20:13:21 GMT"), En("cache-control", "private"), En(":status", "302"), true, [0x64, 0x0e, 0xff]);
  }

  /** Section C.6.3 */
  lemma C63(d: Dec) returns (d': Dec)
    requires Idle(d, 256, [En(":status", "307"), En("location", "https://www.example.com"), En("date",
      "Mon, 21 Oct 2013 20:13:21 GMT"), En("cache-control", "private")])
    ensures Example(Library(), d, 256,
                    [Idx(8), Idx(65), Lit(Dyn, ByIndex(33), Str(true, Latin("Mon, 21 Oct 2013 20:13:22 GMT"))), Idx(64),
                     Lit(Dyn, ByIndex(26), Str(true, Latin("gzip"))), Lit(Dyn, ByIndex(55), Str(true, Latin(COOKIE)))],
                    [0x88] + [0xc1] + ([0x61, 0x96] + [0xd0, 0x7a, 0xbe, 0x94, 0x10, 0x54, 0xd4, 0x44, 0xa8, 0x20, 0x05, 0x95,
                    0x04, 0x0b, 0x81, 0x66, 0xe0, 0x84, 0xa6, 0x2d, 0x1b, 0xff]) + [0xc0] + ([0x5a, 0x83] + [0x9b, 0xd9, 0xab])
                    + ([0x77, 0xad] + ([0x94, 0xe7, 0x82, 0x1d, 0xd7, 0xf2, 0xe6, 0xc7, 0xb3, 0x35, 0xdf, 0xdf, 0xcd, 0x5b,
                    0x39, 0x60, 0xd5, 0xaf, 0x27, 0x08, 0x7f, 0x36, 0x72, 0xc1, 0xab, 0x27, 0x0f] + [0xb5, 0x29, 0x1f, 0x95,
                    0x87, 0x31, 0x60, 0x65, 0xc0, 0x03, 0xed, 0x4e, 0xe5, 0xb1, 0x06, 0x3d, 0x50, 0x07])),
                    [FieldEvt(8), NameEvt(Latin(":status")), ValueEvt(Latin("200"))] +
                    [FieldEvt(65), NameEvt(Latin("cache-control")), ValueEvt(Latin("private"))] +
                    [FieldEvt(0), NameEvt(Latin("date")), ValueEvt(Latin("Mon, 21 Oct 2013 20:13:22 GMT")), EvictEvt(1),
                      IndexEvt(65)] +
                    [FieldEvt(64), NameEvt(Latin("location")), ValueEvt(Latin("https://www.example.com"))] +
                    [FieldEvt(0), NameEvt(Latin("content-encoding")), ValueEvt(Latin("gzip")), EvictEvt(1), IndexEvt(52)] +
                    [FieldEvt(0), NameEvt(Latin("set-cookie")), ValueEvt(Latin(COOKIE)), EvictEvt(2), IndexEvt(98)],
                    [En("set-cookie", COOKIE), En("content-encoding", "gzip"), En("date", "Mon, 21 Oct 2013 20:13:22 GMT")], d')
  {
    hide Latin; hide Coded; hide Static; hide Given; hide NewGiven; hide Fixed; hide Idle; hide Example; hide WfEnv; hide WfCode;
    hide EntrySize; hide Library; hide Rfc7541; hide Resolves; hide Spells;
    AppendixA1To16(); AppendixA17To32(); AppendixA33To48(); AppendixA49To61(); Nothing();
    FixedIs(8, ":status", "200");
    Date22();
    HuffmanIs("Mon, 21 Oct 2013 20:13:22 GMT", [0xd0, 0x7a, 0xbe, 0x94, 0x10, 0x54, 0xd4, 0x44, 0xa8, 0x20, 0x05, 0x95, 0x04,
      0x0b, 0x81, 0x66, 0xe0, 0x84, 0xa6, 0x2d, 0x1b, 0xff]);
    GivenIs(33, "date", "", "Mon, 21 Oct 2013 20:13:22 GMT", true, [0xd0, 0x7a, 0xbe, 0x94, 0x10, 0x54, 0xd4, 0x44, 0xa8, 0x20,
      0x05, 0x95, 0x04, 0x0b, 0x81, 0x66, 0xe0, 0x84, 0xa6, 0x2d, 0x1b, 0xff]);
    Gzip();
    HuffmanIs("gzip", [0x9b, 0xd9, 0xab]);
    GivenIs(26, "content-encoding", "", "gzip", true, [0x9b, 0xd9, 0xab]);
    Cookie();
    HuffmanIs(COOKIE, ([0x94, 0xe7, 0x82, 0x1d, 0xd7, 0xf2, 0xe6, 0xc7, 0xb3, 0x35, 0xdf, 0xdf, 0xcd, 0x5b, 0x39, 0x60, 0xd5,
      0xaf, 0x27, 0x08, 0x7f, 0x36, 0x72, 0xc1, 0xab, 0x27, 0x0f] + [0xb5, 0x29, 0x1f, 0x95, 0x87, 0x31, 0x60, 0x65, 0xc0, 0x03,
      0xed, 0x4e, 0xe5, 0xb1, 0x06, 0x3d, 0x50, 0x07]));
    GivenIs(55, "set-cookie", "", COOKIE, true, ([0x94, 0xe7, 0x82, 0x1d, 0xd7, 0xf2, 0xe6, 0xc7, 0xb3, 0x35, 0xdf, 0xdf, 0xcd,
      0x5b, 0x39, 0x60, 0xd5, 0xaf, 0x27, 0x08, 0x7f, 0x36, 0x72, 0xc1, 0xab, 0x27, 0x0f] + [0xb5, 0x29, 0x1f, 0x95, 0x87, 0x31,
      0x60, 0x65, 0xc0, 0x03, 0xed, 0x4e, 0xe5, 0xb1, 0x06, 0x3d, 0x50, 0x07]));
    SizeIs(":status", "307"); SizeIs("location", "https://www.example.com"); SizeIs("date", "Mon, 21 Oct 2013 20:13:21 GMT");
    SizeIs("cache-control", "private"); SizeIs("date", "Mon, 21 Oct 2013 20:13:22 GMT"); SizeIs("content-encoding", "gzip");
    SizeIs("set-cookie", COOKIE);
    d' := Response3(Library(), d, En(":status", "200"), En(":status", "307"), En("location", "https://www.example.com"),
      En("date", "Mon, 21 Oct 2013 20:13:21 GMT"), En("cache-control", "private"), En("date", "Mon, 21 Oct 2013 20:13:22 GMT"),
      En("content-encoding", "gzip"), En("set-cookie", COOKIE), true, [0xd0, 0x7a, 0xbe, 0x94, 0x10, 0x54, 0xd4, 0x44, 0xa8,
      0x20, 0x05, 0x95, 0x04, 0x0b, 0x81, 0x66, 0xe0, 0x84, 0xa6, 0x2d, 0x1b, 0xff], [0x9b, 0xd9, 0xab], ([0x94, 0xe7, 0x82,
      0x1d, 0xd7, 0xf2, 0xe6, 0xc7, 0xb3, 0x35, 0xdf, 0xdf, 0xcd, 0x5b, 0x39, 0x60, 0xd5, 0xaf, 0x27, 0x08, 0x7f, 0x36, 0x72,
      0xc1, 0xab, 0x27, 0x0f] + [0xb5, 0x29, 0x1f, 0x95, 0x87, 0x31, 0x60, 0x65, 0xc0, 0x03, 0xed, 0x4e, 0xe5, 0xb1, 0x06, 0x3d,
      0x50, 0x07]));
  }
}
