/** The Huffman-coded strings of appendix C of RFC 7541, octet by octet. */
module HuffmanExamples {
  import opened Common
  import opened Bits
  import opened Validate
  import opened HuffmanCode
  import opened EncoderSpec
  import opened RfcCode
  import opened Appendices
  import opened HuffmanWords
  import opened HpackEncoder

  /** A text and what HPH_encode writes of it. */
  ghost predicate Spells(s: string, o: seq<byte>) {
    IsAscii(s) && WfCode(Rfc7541()) && HufEnc(Rfc7541(), Ascii(s)) == o
  }

  lemma PartAscii(p: nat, n: nat, s: string, o: seq<byte>, q: nat, m: nat)
    requires Part(p, n, s, o, q, m)
    ensures IsAscii(s)
  {
  }

  lemma InHalves(s: string, a: seq<byte>, q: nat, m: nat, t: string, b: seq<byte>, r: nat, k: nat, last: seq<byte>)
    requires Part(0, 0, s, a, q, m) && Part(q, m, t, b, r, k)
    requires if k == 0 then last == [] else |last| == 1 && last[0] == r * Pow2(8 - k) + Pow2(8 - k) - 1
    ensures Spells(s + t, a + (b + last))
  {
    hide Rfc7541; hide WfCode; hide Ascii; hide IsAscii; hide HufEnc; hide Part; hide Pow2;
    PartsJoin(0, 0, s, a, q, m, t, b, r, k);
    PartAscii(0, 0, s + t, a + b, r, k);
    Word(s + t, a + b, r, k, last);
    Joined(a, b, last);
  }

  lemma Www0()
    ensures Part(0, 0, "www.exam", [0xf1, 0xe3, 0xc2, 0xe5, 0xf2, 0x3a], 1, 2)
  {
    hide Rfc7541; hide WfCode; hide SymOf; hide Part;
    Pow2Table();
    AppendixB20To3f(); AppendixB60To7f();
    PartIs(0, 0, "www.exam", [0xf1, 0xe3, 0xc2, 0xe5, 0xf2, 0x3a], 1, 2);
  }

  lemma Www1()
    ensures Part(1, 2, "ple.com", [0x6b, 0xa0, 0xab, 0x90, 0xf4], 1, 1)
  {
    hide Rfc7541; hide WfCode; hide SymOf; hide Part;
    Pow2Table();
    AppendixB20To3f(); AppendixB60To7f();
    PartIs(1, 2, "ple.com", [0x6b, 0xa0, 0xab, 0x90, 0xf4], 1, 1);
  }

  lemma Www()
    ensures Spells("www.example.com", [0xf1, 0xe3, 0xc2, 0xe5, 0xf2, 0x3a, 0x6b, 0xa0, 0xab, 0x90, 0xf4, 0xff])
  {
    hide Rfc7541; hide WfCode; hide Part; hide HufEnc;
    Pow2Table();
    Www0();
    Www1();
    PartsJoin(0, 0, "www.exam", [0xf1, 0xe3, 0xc2, 0xe5, 0xf2, 0x3a], 1, 2, "ple.com", [0x6b, 0xa0, 0xab, 0x90, 0xf4], 1, 1);
    assert "www.exam" + "ple.com" == "www.example.com" && [0xf1, 0xe3, 0xc2, 0xe5, 0xf2, 0x3a] + [0x6b, 0xa0, 0xab, 0x90, 0xf4]
      == [0xf1, 0xe3, 0xc2, 0xe5, 0xf2, 0x3a, 0x6b, 0xa0, 0xab, 0x90, 0xf4];
    Word("www.example.com", [0xf1, 0xe3, 0xc2, 0xe5, 0xf2, 0x3a, 0x6b, 0xa0, 0xab, 0x90, 0xf4], 1, 1, [0xff]);
    assert [0xf1, 0xe3, 0xc2, 0xe5, 0xf2, 0x3a, 0x6b, 0xa0, 0xab, 0x90, 0xf4] + [0xff] == [0xf1, 0xe3, 0xc2, 0xe5, 0xf2, 0x3a,
      0x6b, 0xa0, 0xab, 0x90, 0xf4, 0xff];
  }

  lemma NoCachePart()
    ensures Part(0, 0, "no-cache", [0xa8, 0xeb, 0x10, 0x64, 0x9c], 5, 3)
  {
    hide Rfc7541; hide WfCode; hide SymOf; hide Part;
    Pow2Table();
    AppendixB20To3f(); AppendixB60To7f();
    PartIs(0, 0, "no-cache", [0xa8, 0xeb, 0x10, 0x64, 0x9c], 5, 3);
  }

  lemma NoCache()
    ensures Spells("no-cache", [0xa8, 0xeb, 0x10, 0x64, 0x9c, 0xbf])
  {
    hide Rfc7541; hide WfCode; hide Part; hide HufEnc;
    Pow2Table();
    NoCachePart();
    Word("no-cache", [0xa8, 0xeb, 0x10, 0x64, 0x9c], 5, 3, [0xbf]);
    assert [0xa8, 0xeb, 0x10, 0x64, 0x9c] + [0xbf] == [0xa8, 0xeb, 0x10, 0x64, 0x9c, 0xbf];
  }

  lemma CustomKey0()
    ensures Part(0, 0, "custom-", [0x25, 0xa8, 0x49, 0xe9], 22, 6)
  {
    hide Rfc7541; hide WfCode; hide SymOf; hide Part;
    Pow2Table();
    AppendixB20To3f(); AppendixB60To7f();
    PartIs(0, 0, "custom-", [0x25, 0xa8, 0x49, 0xe9], 22, 6);
  }

  lemma CustomKey1()
    ensures Part(22, 6, "key", [0x5b, 0xa9, 0x7d], 0, 1)
  {
    hide Rfc7541; hide WfCode; hide SymOf; hide Part;
    Pow2Table();
    AppendixB60To7f();
    PartIs(22, 6, "key", [0x5b, 0xa9, 0x7d], 0, 1);
  }

  lemma CustomKey()
    ensures Spells("custom-key", [0x25, 0xa8, 0x49, 0xe9, 0x5b, 0xa9, 0x7d, 0x7f])
  {
    hide Rfc7541; hide WfCode; hide Part; hide HufEnc;
    Pow2Table();
    CustomKey0();
    CustomKey1();
    PartsJoin(0, 0, "custom-", [0x25, 0xa8, 0x49, 0xe9], 22, 6, "key", [0x5b, 0xa9, 0x7d], 0, 1);
    assert "custom-" + "key" == "custom-key" && [0x25, 0xa8, 0x49, 0xe9] + [0x5b, 0xa9, 0x7d] == [0x25, 0xa8, 0x49, 0xe9, 0x5b,
      0xa9, 0x7d];
    Word("custom-key", [0x25, 0xa8, 0x49, 0xe9, 0x5b, 0xa9, 0x7d], 0, 1, [0x7f]);
    assert [0x25, 0xa8, 0x49, 0xe9, 0x5b, 0xa9, 0x7d] + [0x7f] == [0x25, 0xa8, 0x49, 0xe9, 0x5b, 0xa9, 0x7d, 0x7f];
  }

  lemma CustomValue1()
    ensures Part(22, 6, "value", [0x5b, 0xb8, 0xe8, 0xb4], 5, 3)
  {
    hide Rfc7541; hide WfCode; hide SymOf; hide Part;
    Pow2Table();
    AppendixB60To7f();
    PartIs(22, 6, "value", [0x5b, 0xb8, 0xe8, 0xb4], 5, 3);
  }

  lemma CustomValue()
    ensures Spells("custom-value", [0x25, 0xa8, 0x49, 0xe9, 0x5b, 0xb8, 0xe8, 0xb4, 0xbf])
  {
    hide Rfc7541; hide WfCode; hide Part; hide HufEnc;
    Pow2Table();
    CustomKey0();
    CustomValue1();
    PartsJoin(0, 0, "custom-", [0x25, 0xa8, 0x49, 0xe9], 22, 6, "value", [0x5b, 0xb8, 0xe8, 0xb4], 5, 3);
    assert "custom-" + "value" == "custom-value" && [0x25, 0xa8, 0x49, 0xe9] + [0x5b, 0xb8, 0xe8, 0xb4] == [0x25, 0xa8, 0x49,
      0xe9, 0x5b, 0xb8, 0xe8, 0xb4];
    Word("custom-value", [0x25, 0xa8, 0x49, 0xe9, 0x5b, 0xb8, 0xe8, 0xb4], 5, 3, [0xbf]);
    assert [0x25, 0xa8, 0x49, 0xe9, 0x5b, 0xb8, 0xe8, 0xb4] + [0xbf] == [0x25, 0xa8, 0x49, 0xe9, 0x5b, 0xb8, 0xe8, 0xb4, 0xbf];
  }

  lemma Code302Part()
    ensures Part(0, 0, "302", [0x64, 0x02], 0, 0)
  {
    hide Rfc7541; hide WfCode; hide SymOf; hide Part;
    Pow2Table();
    AppendixB20To3f();
    PartIs(0, 0, "302", [0x64, 0x02], 0, 0);
  }

  lemma Code302()
    ensures Spells("302", [0x64, 0x02])
  {
    hide Rfc7541; hide WfCode; hide Part; hide HufEnc;
    Pow2Table();
    Code302Part();
    Word("302", [0x64, 0x02], 0, 0, []);
  }

  lemma Code307Part()
    ensures Part(0, 0, "307", [0x64, 0x0e], 1, 1)
  {
    hide Rfc7541; hide WfCode; hide SymOf; hide Part;
    Pow2Table();
    AppendixB20To3f();
    PartIs(0, 0, "307", [0x64, 0x0e], 1, 1);
  }

  lemma Code307()
    ensures Spells("307", [0x64, 0x0e, 0xff])
  {
    hide Rfc7541; hide WfCode; hide Part; hide HufEnc;
    Pow2Table();
    Code307Part();
    Word("307", [0x64, 0x0e], 1, 1, [0xff]);
    assert [0x64, 0x0e] + [0xff] == [0x64, 0x0e, 0xff];
  }

  lemma PrivatePart()
    ensures Part(0, 0, "private", [0xae, 0xc3, 0x77, 0x1a], 37, 7)
  {
    hide Rfc7541; hide WfCode; hide SymOf; hide Part;
    Pow2Table();
    AppendixB60To7f();
    PartIs(0, 0, "private", [0xae, 0xc3, 0x77, 0x1a], 37, 7);
  }

  lemma Private()
    ensures Spells("private", [0xae, 0xc3, 0x77, 0x1a, 0x4b])
  {
    hide Rfc7541; hide WfCode; hide Part; hide HufEnc;
    Pow2Table();
    PrivatePart();
    Word("private", [0xae, 0xc3, 0x77, 0x1a], 37, 7, [0x4b]);
    assert [0xae, 0xc3, 0x77, 0x1a] + [0x4b] == [0xae, 0xc3, 0x77, 0x1a, 0x4b];
  }

  lemma Date210()
    ensures Part(0, 0, "Mon, 21 ", [0xd0, 0x7a, 0xbe, 0x94, 0x10, 0x54], 0, 0)
  {
    hide Rfc7541; hide WfCode; hide SymOf; hide Part;
    Pow2Table();
    AppendixB20To3f(); AppendixB40To5f(); AppendixB60To7f();
    PartIs(0, 0, "Mon, 21 ", [0xd0, 0x7a, 0xbe, 0x94, 0x10, 0x54], 0, 0);
  }

  lemma Date211()
    ensures Part(0, 0, "Oct 2013", [0xd4, 0x44, 0xa8, 0x20, 0x05], 9, 4)
  {
    hide Rfc7541; hide WfCode; hide SymOf; hide Part;
    Pow2Table();
    AppendixB20To3f(); AppendixB40To5f(); AppendixB60To7f();
    PartIs(0, 0, "Oct 2013", [0xd4, 0x44, 0xa8, 0x20, 0x05], 9, 4);
  }

  lemma Date212()
    ensures Part(9, 4, " 20:13:2", [0x95, 0x04, 0x0b, 0x81, 0x66, 0xe0], 2, 2)
  {
    hide Rfc7541; hide WfCode; hide SymOf; hide Part;
    Pow2Table();
    AppendixB20To3f();
    PartIs(9, 4, " 20:13:2", [0x95, 0x04, 0x0b, 0x81, 0x66, 0xe0], 2, 2);
  }

  lemma Date213()
    ensures Part(2, 2, "1 GMT", [0x82, 0xa6, 0x2d, 0x1b], 3, 2)
  {
    hide Rfc7541; hide WfCode; hide SymOf; hide Part;
    Pow2Table();
    AppendixB20To3f(); AppendixB40To5f();
    PartIs(2, 2, "1 GMT", [0x82, 0xa6, 0x2d, 0x1b], 3, 2);
  }

  lemma Date21()
    ensures Spells("Mon, 21 Oct 2013 20:13:21 GMT", [0xd0, 0x7a, 0xbe, 0x94, 0x10, 0x54, 0xd4, 0x44, 0xa8, 0x20, 0x05, 0x95,
      0x04, 0x0b, 0x81, 0x66, 0xe0, 0x82, 0xa6, 0x2d, 0x1b, 0xff])
  {
    hide Rfc7541; hide WfCode; hide Part; hide HufEnc;
    Pow2Table();
    Date210();
    Date211();
    Date212();
    Date213();
    PartsJoin(0, 0, "Mon, 21 ", [0xd0, 0x7a, 0xbe, 0x94, 0x10, 0x54], 0, 0, "Oct 2013", [0xd4, 0x44, 0xa8, 0x20, 0x05], 9, 4);
    assert "Mon, 21 " + "Oct 2013" == "Mon, 21 Oct 2013" && [0xd0, 0x7a, 0xbe, 0x94, 0x10, 0x54] + [0xd4, 0x44, 0xa8, 0x20,
      0x05] == [0xd0, 0x7a, 0xbe, 0x94, 0x10, 0x54, 0xd4, 0x44, 0xa8, 0x20, 0x05];
    PartsJoin(0, 0, "Mon, 21 Oct 2013", [0xd0, 0x7a, 0xbe, 0x94, 0x10, 0x54, 0xd4, 0x44, 0xa8, 0x20, 0x05], 9, 4, " 20:13:2",
      [0x95, 0x04, 0x0b, 0x81, 0x66, 0xe0], 2, 2);
    assert "Mon, 21 Oct 2013" + " 20:13:2" == "Mon, 21 Oct 2013 20:13:2" && [0xd0, 0x7a, 0xbe, 0x94, 0x10, 0x54, 0xd4, 0x44,
      0xa8, 0x20, 0x05] + [0x95, 0x04, 0x0b, 0x81, 0x66, 0xe0] == [0xd0, 0x7a, 0xbe, 0x94, 0x10, 0x54, 0xd4, 0x44, 0xa8, 0x20,
      0x05, 0x95, 0x04, 0x0b, 0x81, 0x66, 0xe0];
    PartsJoin(0, 0, "Mon, 21 Oct 2013 20:13:2", [0xd0, 0x7a, 0xbe, 0x94, 0x10, 0x54, 0xd4, 0x44, 0xa8, 0x20, 0x05, 0x95, 0x04,
      0x0b, 0x81, 0x66, 0xe0], 2, 2, "1 GMT", [0x82, 0xa6, 0x2d, 0x1b], 3, 2);
    assert "Mon, 21 Oct 2013 20:13:2" + "1 GMT" == "Mon, 21 Oct 2013 20:13:21 GMT" && [0xd0, 0x7a, 0xbe, 0x94, 0x10, 0x54,
      0xd4, 0x44, 0xa8, 0x20, 0x05, 0x95, 0x04, 0x0b, 0x81, 0x66, 0xe0] + [0x82, 0xa6, 0x2d, 0x1b] == [0xd0, 0x7a, 0xbe, 0x94,
      0x10, 0x54, 0xd4, 0x44, 0xa8, 0x20, 0x05, 0x95, 0x04, 0x0b, 0x81, 0x66, 0xe0, 0x82, 0xa6, 0x2d, 0x1b];
    Word("Mon, 21 Oct 2013 20:13:21 GMT", [0xd0, 0x7a, 0xbe, 0x94, 0x10, 0x54, 0xd4, 0x44, 0xa8, 0x20, 0x05, 0x95, 0x04, 0x0b,
      0x81, 0x66, 0xe0, 0x82, 0xa6, 0x2d, 0x1b], 3, 2, [0xff]);
    assert [0xd0, 0x7a, 0xbe, 0x94, 0x10, 0x54, 0xd4, 0x44, 0xa8, 0x20, 0x05, 0x95, 0x04, 0x0b, 0x81, 0x66, 0xe0, 0x82, 0xa6,
      0x2d, 0x1b] + [0xff] == [0xd0, 0x7a, 0xbe, 0x94, 0x10, 0x54, 0xd4, 0x44, 0xa8, 0x20, 0x05, 0x95, 0x04, 0x0b, 0x81, 0x66,
      0xe0, 0x82, 0xa6, 0x2d, 0x1b, 0xff];
  }

  lemma Date223()
    ensures Part(2, 2, "2 GMT", [0x84, 0xa6, 0x2d, 0x1b], 3, 2)
  {
    hide Rfc7541; hide WfCode; hide SymOf; hide Part;
    Pow2Table();
    AppendixB20To3f(); AppendixB40To5f();
    PartIs(2, 2, "2 GMT", [0x84, 0xa6, 0x2d, 0x1b], 3, 2);
  }

  lemma Date22()
    ensures Spells("Mon, 21 Oct 2013 20:13:22 GMT", [0xd0, 0x7a, 0xbe, 0x94, 0x10, 0x54, 0xd4, 0x44, 0xa8, 0x20, 0x05, 0x95,
      0x04, 0x0b, 0x81, 0x66, 0xe0, 0x84, 0xa6, 0x2d, 0x1b, 0xff])
  {
    hide Rfc7541; hide WfCode; hide Part; hide HufEnc;
    Pow2Table();
    Date210();
    Date211();
    Date212();
    Date223();
    PartsJoin(0, 0, "Mon, 21 ", [0xd0, 0x7a, 0xbe, 0x94, 0x10, 0x54], 0, 0, "Oct 2013", [0xd4, 0x44, 0xa8, 0x20, 0x05], 9, 4);
    assert "Mon, 21 " + "Oct 2013" == "Mon, 21 Oct 2013" && [0xd0, 0x7a, 0xbe, 0x94, 0x10, 0x54] + [0xd4, 0x44, 0xa8, 0x20,
      0x05] == [0xd0, 0x7a, 0xbe, 0x94, 0x10, 0x54, 0xd4, 0x44, 0xa8, 0x20, 0x05];
    PartsJoin(0, 0, "Mon, 21 Oct 2013", [0xd0, 0x7a, 0xbe, 0x94, 0x10, 0x54, 0xd4, 0x44, 0xa8, 0x20, 0x05], 9, 4, " 20:13:2",
      [0x95, 0x04, 0x0b, 0x81, 0x66, 0xe0], 2, 2);
    assert "Mon, 21 Oct 2013" + " 20:13:2" == "Mon, 21 Oct 2013 20:13:2" && [0xd0, 0x7a, 0xbe, 0x94, 0x10, 0x54, 0xd4, 0x44,
      0xa8, 0x20, 0x05] + [0x95, 0x04, 0x0b, 0x81, 0x66, 0xe0] == [0xd0, 0x7a, 0xbe, 0x94, 0x10, 0x54, 0xd4, 0x44, 0xa8, 0x20,
      0x05, 0x95, 0x04, 0x0b, 0x81, 0x66, 0xe0];
    PartsJoin(0, 0, "Mon, 21 Oct 2013 20:13:2", [0xd0, 0x7a, 0xbe, 0x94, 0x10, 0x54, 0xd4, 0x44, 0xa8, 0x20, 0x05, 0x95, 0x04,
      0x0b, 0x81, 0x66, 0xe0], 2, 2, "2 GMT", [0x84, 0xa6, 0x2d, 0x1b], 3, 2);
    assert "Mon, 21 Oct 2013 20:13:2" + "2 GMT" == "Mon, 21 Oct 2013 20:13:22 GMT" && [0xd0, 0x7a, 0xbe, 0x94, 0x10, 0x54,
      0xd4, 0x44, 0xa8, 0x20, 0x05, 0x95, 0x04, 0x0b, 0x81, 0x66, 0xe0] + [0x84, 0xa6, 0x2d, 0x1b] == [0xd0, 0x7a, 0xbe, 0x94,
      0x10, 0x54, 0xd4, 0x44, 0xa8, 0x20, 0x05, 0x95, 0x04, 0x0b, 0x81, 0x66, 0xe0, 0x84, 0xa6, 0x2d, 0x1b];
    Word("Mon, 21 Oct 2013 20:13:22 GMT", [0xd0, 0x7a, 0xbe, 0x94, 0x10, 0x54, 0xd4, 0x44, 0xa8, 0x20, 0x05, 0x95, 0x04, 0x0b,
      0x81, 0x66, 0xe0, 0x84, 0xa6, 0x2d, 0x1b], 3, 2, [0xff]);
    assert [0xd0, 0x7a, 0xbe, 0x94, 0x10, 0x54, 0xd4, 0x44, 0xa8, 0x20, 0x05, 0x95, 0x04, 0x0b, 0x81, 0x66, 0xe0, 0x84, 0xa6,
      0x2d, 0x1b] + [0xff] == [0xd0, 0x7a, 0xbe, 0x94, 0x10, 0x54, 0xd4, 0x44, 0xa8, 0x20, 0x05, 0x95, 0x04, 0x0b, 0x81, 0x66,
      0xe0, 0x84, 0xa6, 0x2d, 0x1b, 0xff];
  }

  lemma Https0()
    ensures Part(0, 0, "https://", [0x9d, 0x29, 0xad, 0x17, 0x18], 24, 6)
  {
    hide Rfc7541; hide WfCode; hide SymOf; hide Part;
    Pow2Table();
    AppendixB20To3f(); AppendixB60To7f();
    PartIs(0, 0, "https://", [0x9d, 0x29, 0xad, 0x17, 0x18], 24, 6);
  }

  lemma Https1()
    ensures Part(24, 6, "www.exam", [0x63, 0xc7, 0x8f, 0x0b, 0x97, 0xc8, 0xe9], 0, 0)
  {
    hide Rfc7541; hide WfCode; hide SymOf; hide Part;
    Pow2Table();
    AppendixB20To3f(); AppendixB60To7f();
    PartIs(24, 6, "www.exam", [0x63, 0xc7, 0x8f, 0x0b, 0x97, 0xc8, 0xe9], 0, 0);
  }

  lemma Https2()
    ensures Part(0, 0, "ple.com", [0xae, 0x82, 0xae, 0x43], 105, 7)
  {
    hide Rfc7541; hide WfCode; hide SymOf; hide Part;
    Pow2Table();
    AppendixB20To3f(); AppendixB60To7f();
    PartIs(0, 0, "ple.com", [0xae, 0x82, 0xae, 0x43], 105, 7);
  }

  lemma Https()
    ensures Spells("https://www.example.com", [0x9d, 0x29, 0xad, 0x17, 0x18, 0x63, 0xc7, 0x8f, 0x0b, 0x97, 0xc8, 0xe9, 0xae,
      0x82, 0xae, 0x43, 0xd3])
  {
    hide Rfc7541; hide WfCode; hide Part; hide HufEnc;
    Pow2Table();
    Https0();
    Https1();
    Https2();
    PartsJoin(0, 0, "https://", [0x9d, 0x29, 0xad, 0x17, 0x18], 24, 6, "www.exam", [0x63, 0xc7, 0x8f, 0x0b, 0x97, 0xc8, 0xe9],
      0, 0);
    assert "https://" + "www.exam" == "https://www.exam" && [0x9d, 0x29, 0xad, 0x17, 0x18] + [0x63, 0xc7, 0x8f, 0x0b, 0x97,
      0xc8, 0xe9] == [0x9d, 0x29, 0xad, 0x17, 0x18, 0x63, 0xc7, 0x8f, 0x0b, 0x97, 0xc8, 0xe9];
    PartsJoin(0, 0, "https://www.exam", [0x9d, 0x29, 0xad, 0x17, 0x18, 0x63, 0xc7, 0x8f, 0x0b, 0x97, 0xc8, 0xe9], 0, 0,
      "ple.com", [0xae, 0x82, 0xae, 0x43], 105, 7);
    assert "https://www.exam" + "ple.com" == "https://www.example.com" && [0x9d, 0x29, 0xad, 0x17, 0x18, 0x63, 0xc7, 0x8f,
      0x0b, 0x97, 0xc8, 0xe9] + [0xae, 0x82, 0xae, 0x43] == [0x9d, 0x29, 0xad, 0x17, 0x18, 0x63, 0xc7, 0x8f, 0x0b, 0x97, 0xc8,
      0xe9, 0xae, 0x82, 0xae, 0x43];
    Word("https://www.example.com", [0x9d, 0x29, 0xad, 0x17, 0x18, 0x63, 0xc7, 0x8f, 0x0b, 0x97, 0xc8, 0xe9, 0xae, 0x82, 0xae,
      0x43], 105, 7, [0xd3]);
    assert [0x9d, 0x29, 0xad, 0x17, 0x18, 0x63, 0xc7, 0x8f, 0x0b, 0x97, 0xc8, 0xe9, 0xae, 0x82, 0xae, 0x43] + [0xd3] == [0x9d,
      0x29, 0xad, 0x17, 0x18, 0x63, 0xc7, 0x8f, 0x0b, 0x97, 0xc8, 0xe9, 0xae, 0x82, 0xae, 0x43, 0xd3];
  }

  lemma GzipPart()
    ensures Part(0, 0, "gzip", [0x9b, 0xd9, 0xab], 0, 0)
  {
    hide Rfc7541; hide WfCode; hide SymOf; hide Part;
    Pow2Table();
    AppendixB60To7f();
    PartIs(0, 0, "gzip", [0x9b, 0xd9, 0xab], 0, 0);
  }

  lemma Gzip()
    ensures Spells("gzip", [0x9b, 0xd9, 0xab])
  {
    hide Rfc7541; hide WfCode; hide Part; hide HufEnc;
    Pow2Table();
    GzipPart();
    Word("gzip", [0x9b, 0xd9, 0xab], 0, 0, []);
  }

  lemma Cookie0()
    ensures Part(0, 0, "foo=ASDJ", [0x94, 0xe7, 0x82, 0x1d, 0xd7, 0xf2], 1, 1)
  {
    hide Rfc7541; hide WfCode; hide SymOf; hide Part;
    Pow2Table();
    AppendixB20To3f(); AppendixB40To5f(); AppendixB60To7f();
    PartIs(0, 0, "foo=ASDJ", [0x94, 0xe7, 0x82, 0x1d, 0xd7, 0xf2], 1, 1);
  }

  lemma Cookie1()
    ensures Part(1, 1, "KHQKBZXO", [0xe6, 0xc7, 0xb3, 0x35, 0xdf, 0xdf, 0xcd], 2, 3)
  {
    hide Rfc7541; hide WfCode; hide SymOf; hide Part;
    Pow2Table();
    AppendixB40To5f();
    PartIs(1, 1, "KHQKBZXO", [0xe6, 0xc7, 0xb3, 0x35, 0xdf, 0xdf, 0xcd], 2, 3);
  }

  lemma Cookie2()
    ensures Part(2, 3, "QWEOPIUA", [0x5b, 0x39, 0x60, 0xd5, 0xaf, 0x27, 0x08], 1, 2)
  {
    hide Rfc7541; hide WfCode; hide SymOf; hide Part;
    Pow2Table();
    AppendixB40To5f();
    PartIs(2, 3, "QWEOPIUA", [0x5b, 0x39, 0x60, 0xd5, 0xaf, 0x27, 0x08], 1, 2);
  }

  lemma Cookie3()
    ensures Part(1, 2, "XQWEOIU;", [0x7f, 0x36, 0x72, 0xc1, 0xab, 0x27, 0x0f], 11, 4)
  {
    hide Rfc7541; hide WfCode; hide SymOf; hide Part;
    Pow2Table();
    AppendixB20To3f(); AppendixB40To5f();
    PartIs(1, 2, "XQWEOIU;", [0x7f, 0x36, 0x72, 0xc1, 0xab, 0x27, 0x0f], 11, 4);
  }

  lemma Cookie4()
    ensures Part(11, 4, " max-age", [0xb5, 0x29, 0x1f, 0x95, 0x87, 0x31], 1, 2)
  {
    hide Rfc7541; hide WfCode; hide SymOf; hide Part;
    Pow2Table();
    AppendixB20To3f(); AppendixB60To7f();
    PartIs(11, 4, " max-age", [0xb5, 0x29, 0x1f, 0x95, 0x87, 0x31], 1, 2);
  }

  lemma Cookie5()
    ensures Part(1, 2, "=3600; ", [0x60, 0x65, 0xc0, 0x03, 0xed], 4, 4)
  {
    hide Rfc7541; hide WfCode; hide SymOf; hide Part;
    Pow2Table();
    AppendixB20To3f();
    PartIs(1, 2, "=3600; ", [0x60, 0x65, 0xc0, 0x03, 0xed], 4, 4);
  }

  lemma Cookie6()
    ensures Part(4, 4, "version=", [0x4e, 0xe5, 0xb1, 0x06, 0x3d, 0x50], 0, 1)
  {
    hide Rfc7541; hide WfCode; hide SymOf; hide Part;
    Pow2Table();
    AppendixB20To3f(); AppendixB60To7f();
    PartIs(4, 4, "version=", [0x4e, 0xe5, 0xb1, 0x06, 0x3d, 0x50], 0, 1);
  }

  lemma Cookie7()
    ensures Part(0, 1, "1", [], 1, 6)
  {
    hide Rfc7541; hide WfCode; hide SymOf; hide Part;
    Pow2Table();
    AppendixB20To3f();
    PartIs(0, 1, "1", [], 1, 6);
  }

  lemma CookieStart()
    ensures Part(0, 0, "foo=ASDJKHQKBZXOQWEOPIUAXQWEOIU;", [0x94, 0xe7, 0x82, 0x1d, 0xd7, 0xf2, 0xe6, 0xc7, 0xb3, 0x35, 0xdf,
      0xdf, 0xcd, 0x5b, 0x39, 0x60, 0xd5, 0xaf, 0x27, 0x08, 0x7f, 0x36, 0x72, 0xc1, 0xab, 0x27, 0x0f], 11, 4)
  {
    hide Part;
    Cookie0();
    Cookie1();
    Cookie2();
    Cookie3();
    PartsJoin(0, 0, "foo=ASDJ", [0x94, 0xe7, 0x82, 0x1d, 0xd7, 0xf2], 1, 1, "KHQKBZXO", [0xe6, 0xc7, 0xb3, 0x35, 0xdf, 0xdf,
      0xcd], 2, 3);
    assert "foo=ASDJ" + "KHQKBZXO" == "foo=ASDJKHQKBZXO" && [0x94, 0xe7, 0x82, 0x1d, 0xd7, 0xf2] + [0xe6, 0xc7, 0xb3, 0x35,
      0xdf, 0xdf, 0xcd] == [0x94, 0xe7, 0x82, 0x1d, 0xd7, 0xf2, 0xe6, 0xc7, 0xb3, 0x35, 0xdf, 0xdf, 0xcd];
    PartsJoin(0, 0, "foo=ASDJKHQKBZXO", [0x94, 0xe7, 0x82, 0x1d, 0xd7, 0xf2, 0xe6, 0xc7, 0xb3, 0x35, 0xdf, 0xdf, 0xcd], 2, 3,
      "QWEOPIUA", [0x5b, 0x39, 0x60, 0xd5, 0xaf, 0x27, 0x08], 1, 2);
    assert "foo=ASDJKHQKBZXO" + "QWEOPIUA" == "foo=ASDJKHQKBZXOQWEOPIUA" && [0x94, 0xe7, 0x82, 0x1d, 0xd7, 0xf2, 0xe6, 0xc7,
      0xb3, 0x35, 0xdf, 0xdf, 0xcd] + [0x5b, 0x39, 0x60, 0xd5, 0xaf, 0x27, 0x08] == [0x94, 0xe7, 0x82, 0x1d, 0xd7, 0xf2, 0xe6,
      0xc7, 0xb3, 0x35, 0xdf, 0xdf, 0xcd, 0x5b, 0x39, 0x60, 0xd5, 0xaf, 0x27, 0x08];
    PartsJoin(0, 0, "foo=ASDJKHQKBZXOQWEOPIUA", [0x94, 0xe7, 0x82, 0x1d, 0xd7, 0xf2, 0xe6, 0xc7, 0xb3, 0x35, 0xdf, 0xdf, 0xcd,
      0x5b, 0x39, 0x60, 0xd5, 0xaf, 0x27, 0x08], 1, 2, "XQWEOIU;", [0x7f, 0x36, 0x72, 0xc1, 0xab, 0x27, 0x0f], 11, 4);
    assert "foo=ASDJKHQKBZXOQWEOPIUA" + "XQWEOIU;" == "foo=ASDJKHQKBZXOQWEOPIUAXQWEOIU;" && [0x94, 0xe7, 0x82, 0x1d, 0xd7,
      0xf2, 0xe6, 0xc7, 0xb3, 0x35, 0xdf, 0xdf, 0xcd, 0x5b, 0x39, 0x60, 0xd5, 0xaf, 0x27, 0x08] + [0x7f, 0x36, 0x72, 0xc1,
      0xab, 0x27, 0x0f] == [0x94, 0xe7, 0x82, 0x1d, 0xd7, 0xf2, 0xe6, 0xc7, 0xb3, 0x35, 0xdf, 0xdf, 0xcd, 0x5b, 0x39, 0x60,
      0xd5, 0xaf, 0x27, 0x08, 0x7f, 0x36, 0x72, 0xc1, 0xab, 0x27, 0x0f];
  }

  lemma CookieEnd()
    ensures Part(11, 4, " max-age=3600; version=1", [0xb5, 0x29, 0x1f, 0x95, 0x87, 0x31, 0x60, 0x65, 0xc0, 0x03, 0xed, 0x4e,
      0xe5, 0xb1, 0x06, 0x3d, 0x50], 1, 6)
  {
    hide Part;
    Cookie4();
    Cookie5();
    Cookie6();
    Cookie7();
    PartsJoin(11, 4, " max-age", [0xb5, 0x29, 0x1f, 0x95, 0x87, 0x31], 1, 2, "=3600; ", [0x60, 0x65, 0xc0, 0x03, 0xed], 4, 4);
    assert " max-age" + "=3600; " == " max-age=3600; " && [0xb5, 0x29, 0x1f, 0x95, 0x87, 0x31] + [0x60, 0x65, 0xc0, 0x03, 0xed]
      == [0xb5, 0x29, 0x1f, 0x95, 0x87, 0x31, 0x60, 0x65, 0xc0, 0x03, 0xed];
    PartsJoin(11, 4, " max-age=3600; ", [0xb5, 0x29, 0x1f, 0x95, 0x87, 0x31, 0x60, 0x65, 0xc0, 0x03, 0xed], 4, 4, "version=",
      [0x4e, 0xe5, 0xb1, 0x06, 0x3d, 0x50], 0, 1);
    assert " max-age=3600; " + "version=" == " max-age=3600; version=" && [0xb5, 0x29, 0x1f, 0x95, 0x87, 0x31, 0x60, 0x65,
      0xc0, 0x03, 0xed] + [0x4e, 0xe5, 0xb1, 0x06, 0x3d, 0x50] == [0xb5, 0x29, 0x1f, 0x95, 0x87, 0x31, 0x60, 0x65, 0xc0, 0x03,
      0xed, 0x4e, 0xe5, 0xb1, 0x06, 0x3d, 0x50];
    PartsJoin(11, 4, " max-age=3600; version=", [0xb5, 0x29, 0x1f, 0x95, 0x87, 0x31, 0x60, 0x65, 0xc0, 0x03, 0xed, 0x4e, 0xe5,
      0xb1, 0x06, 0x3d, 0x50], 0, 1, "1", [], 1, 6);
    assert " max-age=3600; version=" + "1" == " max-age=3600; version=1" && [0xb5, 0x29, 0x1f, 0x95, 0x87, 0x31, 0x60, 0x65,
      0xc0, 0x03, 0xed, 0x4e, 0xe5, 0xb1, 0x06, 0x3d, 0x50] + [] == [0xb5, 0x29, 0x1f, 0x95, 0x87, 0x31, 0x60, 0x65, 0xc0,
      0x03, 0xed, 0x4e, 0xe5, 0xb1, 0x06, 0x3d, 0x50];
  }

  lemma Cookie()
    ensures Spells("foo=ASDJKHQKBZXOQWEOPIUAXQWEOIU;" + " max-age=3600; version=1", [0x94, 0xe7, 0x82, 0x1d, 0xd7, 0xf2, 0xe6,
      0xc7, 0xb3, 0x35, 0xdf, 0xdf, 0xcd, 0x5b, 0x39, 0x60, 0xd5, 0xaf, 0x27, 0x08, 0x7f, 0x36, 0x72, 0xc1, 0xab, 0x27, 0x0f] +
      [0xb5, 0x29, 0x1f, 0x95, 0x87, 0x31, 0x60, 0x65, 0xc0, 0x03, 0xed, 0x4e, 0xe5, 0xb1, 0x06, 0x3d, 0x50, 0x07])
  {
    hide Rfc7541; hide WfCode; hide Part; hide HufEnc; hide Spells; hide IsAscii; hide Ascii;
    Pow2Table();
    CookieStart();
    CookieEnd();
    InHalves("foo=ASDJKHQKBZXOQWEOPIUAXQWEOIU;", [0x94, 0xe7, 0x82, 0x1d, 0xd7, 0xf2, 0xe6, 0xc7, 0xb3, 0x35, 0xdf, 0xdf, 0xcd,
      0x5b, 0x39, 0x60, 0xd5, 0xaf, 0x27, 0x08, 0x7f, 0x36, 0x72, 0xc1, 0xab, 0x27, 0x0f], 11, 4, " max-age=3600; version=1",
      [0xb5, 0x29, 0x1f, 0x95, 0x87, 0x31, 0x60, 0x65, 0xc0, 0x03, 0xed, 0x4e, 0xe5, 0xb1, 0x06, 0x3d, 0x50], 1, 6, [0x07]);
    assert [0xb5, 0x29, 0x1f, 0x95, 0x87, 0x31, 0x60, 0x65, 0xc0, 0x03, 0xed, 0x4e, 0xe5, 0xb1, 0x06, 0x3d, 0x50] + [0x07] ==
      [0xb5, 0x29, 0x1f, 0x95, 0x87, 0x31, 0x60, 0x65, 0xc0, 0x03, 0xed, 0x4e, 0xe5, 0xb1, 0x06, 0x3d, 0x50, 0x07];
  }
}
