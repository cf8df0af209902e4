/**
 An encoder and its decoder at work together: from the fields given to one to the fields reported by the other, over any
 number of resizes and blocks.
 */
module Session {
  import opened Common
  import opened Bits
  import opened HuffmanCode
  import opened Validate
  import opened TableSpec
  import opened TableSearch
  import opened HpackTbl
  import opened DecoderSpec
  import opened DecoderBlock
  import opened EncoderSpec
  import opened WireScan
  import opened Lockstep
  import opened Protocol
  import opened EncoderFields
  import opened FieldMeaning
  import opened DecoderEvents
  import opened HpackEncoder
  import opened HpackDecoder
  import opened HuffmanTables
  import opened RfcCode
  import opened StaticTable

  // ---- both ends ----

  /** Both ends are between blocks, and their tables are equal under equal limits. */
  ghost predicate Joined(enc: Encoder, dec: Decoder)
    reads enc, enc.hp, enc.hp.tbl, dec, dec.hp, dec.hp.tbl, dec.buf
  {
    && enc.hp != dec.hp && enc.hp.tbl != dec.hp.tbl && enc.hp.tbl != enc.buf && dec.buf != enc.hp.tbl
    && enc.env == dec.env && enc.Ready() && enc.res == OK && dec.Ready() && dec.res == OK
    && InStep(enc.State(), dec.S())
  }

  /** The buffers are different blocks of memory. */
  ghost predicate Apart(enc: Encoder, dec: Decoder, eb: array<byte>, db: array<byte>)
    reads enc`buf, dec`buf, enc.hp`tbl, dec.hp`tbl
  {
    && eb.Length > 0 && db.Length > 0 && eb != db && dec.buf != eb
    && enc.hp.tbl != eb && enc.hp.tbl != db && dec.hp.tbl != eb && dec.hp.tbl != db
  }

  /** A block that an encoder may be asked for: valid or not, its names do not break the table, and the decoder has room for it. */
  ghost predicate Askable(env: Env, e: Enc, cap: nat, fs: seq<Field>)
    requires WfEnv(env) && WfSize(e.sz)
  {
    && fs != [] && (forall f :: f in fs ==> WfField(f) && Fits(env.code, f)) && SafeRun(env.stat, Settled(e), fs)
    && Acceptable(e.sz) && Sizes(Meanings(env.stat, Settled(e), fs)) <= cap
  }

  lemma ReceiverFacts(e: Enc, dec: Decoder)
    requires dec.Ready() && dec.res == OK && InStep(e, dec.S())
    ensures Inv(dec.S()) && !MidField(dec.S()) && dec.S().t == dec.hp.State() && !dec.hp.tooBig && !dec.defunct
  {
    hide Inv; hide WfCode; hide AllGood;
  }

  lemma JoinedFacts(enc: Encoder, dec: Decoder)
    requires Joined(enc, dec)
    ensures WfEnv(enc.env) && WfSize(enc.hp.sz)
    ensures WfCode(enc.env.code) && Inv(dec.S()) && !MidField(dec.S()) && dec.S().t == dec.hp.State()
    ensures !dec.hp.tooBig && !dec.defunct && !enc.defunct
  {
    hide Inv; hide WfCode; hide AllGood;
  }

  /** hpack_encode, and the octets of its payloads. */
  method Pack(enc: Encoder, fs: seq<Field>, eb: array<byte>) returns (r: Res, w: seq<byte>, ghost l: seq<Instr>)
    requires enc.Ready() && enc.res == OK && WfEnv(enc.env) && WfSize(enc.hp.sz) && enc.hp.tbl != eb && eb.Length > 0
    requires fs != [] && SafeRun(enc.env.stat, Settled(enc.State()), fs) && forall f :: f in fs ==> WfField(f)
    modifies enc, enc.hp, enc.hp.tbl, eb
    ensures var e := old(enc.State());
            && r == Rulings(enc.env.stat, Settled(e), fs)
            && if r == OK then
                 && enc.Ready() && enc.res == OK && w == BlockWire(enc.env, e, l)
                 && Represents(enc.env.stat, Settled(e), fs, l) && enc.State() == Sent(enc.env.stat, e, l)
                 && Told(enc.hp.evs) == old(Told(enc.hp.evs)) + AllCalls(BlockItems(enc.env.stat, e, l))
               else enc.defunct
    ensures enc.hp.tbl == old(enc.hp.tbl) && (enc.buf == old(enc.buf) || enc.buf == eb)
  {
    hide Encoder.Ready; hide WfEnv; hide SafeRun; hide WfField; hide Represents; hide Sent; hide BlockWire; hide Payload;
    hide Chunked;
    hide Rulings; hide Settled; hide Told; hide AllCalls; hide BlockItems;
    enc.ReadyFacts();
    ghost var e := enc.State();
    ghost var was := Payload(enc.hp.evs);
    var n := |Payload(enc.hp.evs)|;
    r, l := enc.Encode(fs, eb, false);
    w := [];
    if r == OK {
      RepresentsIs(enc.env.stat, Settled(e), fs, l);
      w := Payload(enc.hp.evs)[n..];
      AppendTake(was, BlockWire(enc.env, e, l));
    } else {
      RefusedIs(enc.env.stat, Settled(e), fs, l, r);
    }
  }

  /** hpack_decode of a block that the octet machine accepts. */
  method Unpack(dec: Decoder, w: seq<byte>, db: array<byte>, ghost d: Dec)
    requires dec.Ready() && dec.res == OK && !dec.hp.tooBig && dec.hp.tbl != db && db.Length > 0
    requires w != [] && Called(dec.env, dec.S(), false, db.Length, w) == Run(d) && !MidField(d) && !d.t.tooBig
    modifies dec, dec.hp, dec.hp.tbl, dec.buf, db
    ensures dec.Ready() && dec.res == OK && dec.S() == d && dec.hp.tbl == old(dec.hp.tbl) && dec.buf == db
  {
    hide Called; hide MidField; hide Decoder.Valid; hide Decoder.S;
    var r := dec.Decode(w, db, false);
  }

  lemma Both(env: Env, dec: Decoder, e: Enc, cap: nat, fs: seq<Field>, l: seq<Instr>) returns (d: Dec, xs: seq<Item>)
    requires WfEnv(env) && WfSize(e.sz) && Inv(dec.S()) && !MidField(dec.S()) && InStep(e, dec.S())
    requires Askable(env, e, cap, fs) && Represents(env.stat, Settled(e), fs, l)
    ensures var w := BlockWire(env, e, l); w != [] && Called(env, dec.S(), false, cap, w) == Run(d)
    ensures !MidField(d) && !d.t.tooBig && InStep(Sent(env.stat, e, l), d)
    ensures Reported(d.t.evs) == Reported(dec.S().t.evs) + Meanings(env.stat, Settled(e), fs)
    ensures Sent(env.stat, e, l) == AfterFields(env.stat, Settled(e), fs)
    ensures AllWritten(env.stat, Settled(e), fs, l) && AllTold(env.stat, Settled(e), fs, xs)
    ensures d.t.evs == dec.S().t.evs + Events(AnnouncedItems(e) + xs) && BlockItems(env.stat, e, l) == AnnouncedItems(e) + xs
  {
    hide Inv; hide Called; hide MidField; hide Represents; hide Reported; hide Sizes; hide WfCode; hide AllGood;
    hide Decoder.S; hide Settled; hide BlockWire; hide Fits; hide WfField; hide Meanings; hide MeantAll; hide AfterFields;
    hide Events;
    hide AnnouncedItems; hide AllWritten; hide AllTold; hide Spelt;
    d, xs := FieldsInStep(env, dec.S(), e, cap, fs, l);
  }

  /** hpack_decode of what an encoder in step has written for `fs`. */
  method Receive(dec: Decoder, w: seq<byte>, db: array<byte>, ghost e: Enc, ghost fs: seq<Field>, ghost l: seq<Instr>)
    returns (ghost xs: seq<Item>)
    requires dec.Ready() && dec.res == OK && dec.hp.tbl != db && db.Length > 0
    requires WfEnv(dec.env) && WfSize(e.sz) && InStep(e, dec.S())
    requires Askable(dec.env, e, db.Length, fs) && Represents(dec.env.stat, Settled(e), fs, l) && w == BlockWire(dec.env, e, l)
    modifies dec, dec.hp, dec.hp.tbl, dec.buf, db
    ensures dec.Ready() && dec.res == OK && dec.hp.tbl == old(dec.hp.tbl) && dec.buf == db
    ensures Sent(dec.env.stat, e, l) == AfterFields(dec.env.stat, Settled(e), fs)
    ensures InStep(Sent(dec.env.stat, e, l), dec.S()) && !dec.hp.tooBig
    ensures Reported(dec.hp.evs) == old(Reported(dec.hp.evs)) + Meanings(dec.env.stat, Settled(e), fs)
    ensures AllWritten(dec.env.stat, Settled(e), fs, l) && AllTold(dec.env.stat, Settled(e), fs, xs)
    ensures dec.hp.evs == old(dec.hp.evs) + Events(AnnouncedItems(e) + xs)
    ensures BlockItems(dec.env.stat, e, l) == AnnouncedItems(e) + xs
  {
    hide Decoder.Ready; hide WfEnv; hide Represents; hide Sent; hide BlockWire; hide Called; hide Settled; hide Inv; hide MidField;
    hide Decoder.S; hide Reported; hide AfterFields; hide Meanings; hide WfSize; hide InStep; hide Events; hide AnnouncedItems;
    hide AllWritten; hide AllTold; hide BlockItems; hide WfCode; hide Hpack.Valid; hide Askable;
    ReceiverFacts(e, dec);
    ghost var d;
    d, xs := Both(dec.env, dec, e, db.Length, fs, l);
    Unpack(dec, w, db, d);
    ReceiverFacts(Sent(dec.env.stat, e, l), dec);
  }

  /** What a block does, seen from both ends: `l` is what was written of the fields and `xs` what is told of them. */
  ghost predicate Transferred(env: Env, e: Enc, fs: seq<Field>, l: seq<Instr>, xs: seq<Item>, w: seq<byte>,
                              calls: seq<Event>, evs: seq<Event>)
    requires WfCode(env.code) && WfSize(e.sz)
  {
    && AllWritten(env.stat, Settled(e), fs, l) && AllTold(env.stat, Settled(e), fs, xs)
    && w == Wires(env.code, Announced(e.sz)) + Wires(env.code, l)
    && calls == AllCalls(AnnouncedItems(e) + xs)
    && evs == Events(AnnouncedItems(e) + xs)
  }

  lemma TransferIs(env: Env, e: Enc, fs: seq<Field>, l: seq<Instr>, xs: seq<Item>, w: seq<byte>, told: seq<Event>, calls: seq<Event>,
                   was: seq<Event>, evs: seq<Event>)
    requires WfCode(env.code) && WfSize(e.sz)
    requires AllWritten(env.stat, Settled(e), fs, l) && AllTold(env.stat, Settled(e), fs, xs) && w == BlockWire(env, e, l)
    requires calls == told + AllCalls(AnnouncedItems(e) + xs) && evs == was + Events(AnnouncedItems(e) + xs)
    ensures Transferred(env, e, fs, l, xs, w, calls[|told|..], evs[|was|..])
    ensures calls == told + calls[|told|..] && evs == was + evs[|was|..]
  {
    hide WfCode; hide Settled; hide AllWritten; hide AllTold; hide Wires; hide AllCalls; hide Events; hide AnnouncedItems;
  }

  /**
   hpack_encode on one end, and hpack_decode of its payloads on the other. Each field is written as it asks for, and told by
   the decoder as what it is; both ends tell the same updates, evictions and insertions.
   */
  method Transfer(enc: Encoder, dec: Decoder, fs: seq<Field>, eb: array<byte>, db: array<byte>)
    returns (r: Res, w: seq<byte>, ghost l: seq<Instr>, ghost xs: seq<Item>)
    requires Joined(enc, dec) && WfEnv(enc.env) && WfSize(enc.hp.sz) && Askable(enc.env, enc.State(), db.Length, fs)
    requires Apart(enc, dec, eb, db)
    modifies enc, enc.hp, enc.hp.tbl, eb, dec, dec.hp, dec.hp.tbl, dec.buf, db
    ensures var e := Settled(old(enc.State()));
            && r == Rulings(enc.env.stat, e, fs)
            && if r == OK then
                 && Joined(enc, dec) && enc.State() == AfterFields(enc.env.stat, e, fs)
                 && Reported(dec.hp.evs) == old(Reported(dec.hp.evs)) + Meanings(enc.env.stat, e, fs)
               else enc.defunct
    ensures r == OK ==>
              var told, was := old(Told(enc.hp.evs)), old(dec.hp.evs);
              && told <= Told(enc.hp.evs) && was <= dec.hp.evs
              && Transferred(enc.env, old(enc.State()), fs, l, xs, w, Told(enc.hp.evs)[|told|..], dec.hp.evs[|was|..])
    ensures enc.hp.tbl == old(enc.hp.tbl) && dec.hp.tbl == old(dec.hp.tbl) && (dec.buf == old(dec.buf) || dec.buf == db)
  {
    ghost var e := enc.State();
    hide Encoder.Ready; hide Decoder.Ready; hide WfEnv; hide SafeRun; hide WfField; hide Represents; hide Sent; hide BlockWire;
    hide Called;
    hide Rulings; hide Settled; hide Inv; hide MidField; hide Decoder.S; hide Reported; hide AfterFields; hide Meanings;
    hide Sizes; hide Fits;
    hide WfSize; hide Acceptable; hide InStep; hide Told; hide AllCalls; hide Events; hide AnnouncedItems; hide AllWritten;
    hide AllTold;
    hide BlockItems; hide Transferred; hide WfCode; hide Hpack.Valid;
    JoinedFacts(enc, dec);
    xs := [];
    r, w, l := Pack(enc, fs, eb);
    if r != OK { return; }
    xs := Receive(dec, w, db, e, fs, l);
    JoinedIs(enc, dec);
    hide Joined;
    TransferIs(enc.env, e, fs, l, xs, w, old(Told(enc.hp.evs)), Told(enc.hp.evs), old(dec.hp.evs), dec.hp.evs);
  }

  lemma JoinedIs(enc: Encoder, dec: Decoder)
    requires enc.hp != dec.hp && enc.hp.tbl != dec.hp.tbl && enc.hp.tbl != enc.buf && dec.buf != enc.hp.tbl && enc.env == dec.env
    requires enc.Ready() && enc.res == OK && dec.Ready() && dec.res == OK && InStep(enc.State(), dec.S())
    ensures Joined(enc, dec)
  {
  }

  lemma JoinedAgain(enc: Encoder, dec: Decoder)
    requires enc.Ready() && dec.Ready() && InStep(enc.State(), dec.S())
    ensures dec.S().t == dec.hp.State()
  {
  }

  // ---- whole runs ----

  /** hpack_resize on both ends, or a block of fields from one to the other. */
  datatype Deed = ResizeEnds(len: u16) | SendFields(fs: seq<Field>)

  lemma {:induction false} FieldsSize(stat: seq<Entry>, e: Enc, fs: seq<Field>)
    ensures AfterFields(stat, e, fs).sz == e.sz
    decreases |fs|
  {
    if fs != [] {
      hide Whole; hide Insert; hide Meaning;
      FieldsSize(stat, AfterField(stat, e, fs[0]), fs[1..]);
    }
  }

  /** The encoder past a block. */
  function AfterBlock(stat: seq<Entry>, e: Enc, fs: seq<Field>): (r: Enc)
    requires WfSize(e.sz)
    ensures WfSize(r.sz)
  {
    FieldsSize(stat, Settled(e), fs);
    AfterFields(stat, Settled(e), fs)
  }

  function AfterResize(e: Enc, len: u16): Enc {
    e.(sz := Resized(e.sz, len))
  }

  function AfterDeeds(stat: seq<Entry>, e: Enc, deeds: seq<Deed>): Enc
    requires WfSize(e.sz)
    decreases |deeds|
  {
    if deeds == [] then e
    else match deeds[0]
      case ResizeEnds(len) => AfterDeeds(stat, AfterResize(e, len), deeds[1..])
      case SendFields(fs) => AfterDeeds(stat, AfterBlock(stat, e, fs), deeds[1..])
  }

  /** The names and values of all the fields. */
  function DeedMeanings(stat: seq<Entry>, e: Enc, deeds: seq<Deed>): seq<Entry>
    requires WfSize(e.sz)
    decreases |deeds|
  {
    if deeds == [] then []
    else match deeds[0]
      case ResizeEnds(len) => DeedMeanings(stat, AfterResize(e, len), deeds[1..])
      case SendFields(fs) => Meanings(stat, Settled(e), fs) + DeedMeanings(stat, AfterBlock(stat, e, fs), deeds[1..])
  }

  /** OK, or why the first refused field of the run is. */
  function DeedRulings(stat: seq<Entry>, e: Enc, deeds: seq<Deed>): Res
    requires WfSize(e.sz)
    decreases |deeds|
  {
    if deeds == [] then OK
    else match deeds[0]
      case ResizeEnds(len) => DeedRulings(stat, AfterResize(e, len), deeds[1..])
      case SendFields(fs) =>
        var r := Rulings(stat, Settled(e), fs);
        if r != OK then r else DeedRulings(stat, AfterBlock(stat, e, fs), deeds[1..])
  }

  ghost predicate DeedsAskable(env: Env, e: Enc, cap: nat, deeds: seq<Deed>)
    requires WfEnv(env) && WfSize(e.sz)
    decreases |deeds|
  {
    deeds == [] || match deeds[0]
      case ResizeEnds(len) => DeedsAskable(env, AfterResize(e, len), cap, deeds[1..])
      case SendFields(fs) =>
        Askable(env, e, cap, fs)
        && (Rulings(env.stat, Settled(e), fs) == OK ==> DeedsAskable(env, AfterBlock(env.stat, e, fs), cap, deeds[1..]))
  }

  /** hpack_resize on both ends. */
  method ResizeOnce(enc: Encoder, dec: Decoder, len: u16)
    requires Joined(enc, dec)
    modifies enc`defunct, enc.hp`mem, enc.hp`tbl, enc.hp`sz, dec`defunct, dec.hp`mem, dec.hp`tbl, dec.hp`sz
    ensures Joined(enc, dec) && enc.State() == AfterResize(old(enc.State()), len) && dec.hp.evs == old(dec.hp.evs)
    ensures (enc.hp.tbl == old(enc.hp.tbl) || fresh(enc.hp.tbl)) && (dec.hp.tbl == old(dec.hp.tbl) || fresh(dec.hp.tbl))
  {
    hide Encoder.Ready; hide Decoder.Ready; hide Decoder.S; hide WfEnv; hide Inv; hide MidField; hide Hpack.Valid;
    JoinedFacts(enc, dec);
    var r := enc.Resize(len);
    var q := dec.Resize(len);
  }

  /**
   Over any run, as long as the encoder accepts the fields, the decoder reports exactly the names and values that they stand
   for, in order, and both tables are equal under equal limits. It stops at the first field that is to be refused.
   */
  method Play(enc: Encoder, dec: Decoder, deeds: seq<Deed>, eb: array<byte>, db: array<byte>) returns (r: Res)
    requires Joined(enc, dec) && WfEnv(enc.env) && WfSize(enc.hp.sz) && DeedsAskable(enc.env, enc.State(), db.Length, deeds)
    requires Apart(enc, dec, eb, db)
    modifies enc, enc.hp, enc.hp.tbl, eb, dec, dec.hp, dec.hp.tbl, dec.buf, db
    ensures r == DeedRulings(enc.env.stat, old(enc.State()), deeds)
    ensures r == OK ==>
              && Joined(enc, dec) && enc.State() == AfterDeeds(enc.env.stat, old(enc.State()), deeds)
              && Reported(dec.hp.evs) == old(Reported(dec.hp.evs)) + DeedMeanings(enc.env.stat, old(enc.State()), deeds)
    decreases |deeds|
  {
    hide Joined; hide WfEnv; hide Askable; hide Settled; hide AfterResize; hide AfterFields; hide Meanings; hide Rulings;
    hide Reported;
    hide AfterBlock; hide WfSize; hide Transferred; hide Told; hide WfCode;
    if deeds == [] {
      assert Reported(dec.hp.evs) + [] == Reported(dec.hp.evs);
      return OK;
    }
    match deeds[0] {
      case ResizeEnds(len) =>
        ResizeOnce(enc, dec, len);
        JoinedFacts(enc, dec);
        r := Play(enc, dec, deeds[1..], eb, db);
      case SendFields(fs) =>
        ghost var e := enc.State();
        var w;
        ghost var l, xs;
        r, w, l, xs := Transfer(enc, dec, fs, eb, db);
        if r != OK { return; }
        JoinedFacts(enc, dec);
        ghost var was, m := old(Reported(dec.hp.evs)), Meanings(enc.env.stat, Settled(e), fs);
        ghost var more := DeedMeanings(enc.env.stat, enc.State(), deeds[1..]);
        assert AfterBlock(enc.env.stat, e, fs) == enc.State() by { BlockIs(enc.env.stat, e, fs); }
        r := Play(enc, dec, deeds[1..], eb, db);
        assert was + m + more == was + (m + more);
    }
  }

  lemma BlockIs(stat: seq<Entry>, e: Enc, fs: seq<Field>)
    requires WfSize(e.sz)
    ensures AfterBlock(stat, e, fs) == AfterFields(stat, Settled(e), fs)
  {
  }

  lemma LibraryParts()
    ensures Library().code == Rfc7541() && Library().stat == Entries()
  {
  }

  /** hpack_encoder, as the library is built. */
  method NewEncoder(max: u16) returns (enc: Encoder)
    ensures fresh(enc) && fresh(enc.hp) && fresh(enc.hp.tbl) && fresh(enc.buf) && enc.hp.tbl != enc.buf
    ensures enc.Ready() && enc.res == OK && enc.env == Library() && enc.State() == Enc([], Size(max, -1, -1, -1))
  {
    LibraryIsWf();
    LibraryHdrs(Hdrs());
    LibraryParts();
    hide WfEnv; hide WfHdrs; hide Library; hide Hdrs; hide Entries; hide Hpack.Valid;
    var none := new byte[0](i => 0);
    var hp := new Hpack(max, max, false);
    enc := new Encoder(Library(), Hdrs(), hp, none);
  }

  /** hpack_decoder */
  method NewDecoder(max: u16) returns (dec: Decoder)
    ensures fresh(dec) && fresh(dec.hp) && fresh(dec.hp.tbl) && fresh(dec.buf) && dec.Ready() && dec.res == OK
    ensures dec.env == Library() && dec.S().t == Tab([], Size(max, -1, -1, -1), [], false)
  {
    LibraryIsWf();
    LibraryParts();
    hide WfEnv; hide WfTables; hide Library; hide Rfc7541; hide Entries; hide Hpack.Valid; hide Inv;
    var ts := DecodingTables();
    var none := new byte[0](i => 0);
    var hp := new Hpack(max, max, false);
    dec := new Decoder(Library(), ts, hp, none);
  }

  /** An encoder and a decoder with tables of at most `max` octets are joined. */
  method Connect(max: u16) returns (enc: Encoder, dec: Decoder)
    ensures fresh(enc) && fresh(dec) && fresh(enc.hp) && fresh(dec.hp) && fresh(enc.hp.tbl) && fresh(dec.hp.tbl)
    ensures Joined(enc, dec) && enc.env == Library() && enc.State() == Enc([], Size(max, -1, -1, -1)) && dec.hp.evs == []
  {
    hide Encoder.Ready; hide Decoder.Ready; hide Decoder.S;
    enc := NewEncoder(max);
    dec := NewDecoder(max);
    JoinedAgain(enc, dec);
  }
}
