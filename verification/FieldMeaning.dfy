/**
 What the fields given to hpack_encode mean: how each is written, what it does to the table, whether it is accepted, and what
 the decoder at the other end tells of it. All of it depends on the field and the table alone, whatever index is chosen.
 */
module FieldMeaning {
  import opened Common
  import opened HuffmanCode
  import opened Validate
  import opened TableSpec
  import opened TableSearch
  import opened DecoderSpec
  import opened DecoderBlock
  import opened DecoderEvents
  import opened DecoderVerdicts
  import opened EncoderSpec
  import opened WireScan
  import opened Lockstep
  import opened Protocol
  import opened EncoderFields

  // ---- what a field does, whatever representation is chosen for it ----

  /** Automatic indexing finds the whole field. */
  predicate Whole(stat: seq<Entry>, es: seq<Entry>, f: Field) {
    f.typ != TIdx && f.typ != TNvr && f.aut && !f.namIdx && Entry(f.nam, f.val) in stat + es
  }

  /** The name and the value of a field. */
  function Meaning(stat: seq<Entry>, es: seq<Entry>, f: Field): Entry {
    if f.typ == TIdx then match Lookup(stat, es, f.idx) case Some(e) => e case None => Entry([], [])
    else if f.namIdx then Entry(match Lookup(stat, es, f.nidx) case Some(e) => e.nam case None => [], f.val)
    else Entry(f.nam, f.val)
  }

  /** The table past a field. */
  function AfterField(stat: seq<Entry>, e: Enc, f: Field): Enc {
    if f.typ == TDyn && !Whole(stat, e.es, f) then e.(es := Insert(e.es, Meaning(stat, e.es, f), Limit(e.sz))) else e
  }

  /** OK, or why the field is refused. */
  function Ruling(stat: seq<Entry>, es: seq<Entry>, f: Field): Res {
    if f.typ == TIdx then (if Lookup(stat, es, f.idx).Some? then OK else IDX)
    else if Whole(stat, es, f) then OK
    else if f.typ == TNone then ARG
    else
      var r := if f.namIdx then (if Lookup(stat, es, f.nidx).Some? then OK else IDX)
               else if f.aut && HasName(stat, es, f.nam) then OK
               else CheckString(true, f.nam);
      if r != OK then r else CheckString(false, f.val)
  }

  lemma ChoiceRuled(stat: seq<Entry>, es: seq<Entry>, f: Field, i: Option<Instr>)
    requires Chosen(stat, es, f, i)
    ensures Check(stat, es, i) == Ruling(stat, es, f)
  {
    hide Lookup; hide CheckString; hide HasName;
  }

  /** The choice of a representation does not matter. */
  lemma ChoiceIs(stat: seq<Entry>, e: Enc, f: Field, i: Option<Instr>)
    requires Chosen(stat, e.es, f, i)
    ensures Check(stat, e.es, i) == Ruling(stat, e.es, f)
    ensures Check(stat, e.es, i) == OK ==>
              i.Some? && Meant(stat, e.es, i.value) == Meaning(stat, e.es, f) && Next(stat, e, i.value) == AfterField(stat, e, f)
  {
    ChoiceRuled(stat, e.es, f, i);
    if Check(stat, e.es, i) == OK { CheckSome(stat, e.es, i); }
    hide Lookup; hide Check; hide Ruling; hide Insert; hide HasName;
  }

  function AfterFields(stat: seq<Entry>, e: Enc, fs: seq<Field>): Enc
    decreases |fs|
  {
    if fs == [] then e else AfterFields(stat, AfterField(stat, e, fs[0]), fs[1..])
  }

  function Meanings(stat: seq<Entry>, e: Enc, fs: seq<Field>): seq<Entry>
    decreases |fs|
  {
    if fs == [] then [] else [Meaning(stat, e.es, fs[0])] + Meanings(stat, AfterField(stat, e, fs[0]), fs[1..])
  }

  /** The result of encoding the fields: the one of the first that is refused. */
  function Rulings(stat: seq<Entry>, e: Enc, fs: seq<Field>): Res
    decreases |fs|
  {
    if fs == [] then OK
    else
      var r := Ruling(stat, e.es, fs[0]);
      if r != OK then r else Rulings(stat, AfterField(stat, e, fs[0]), fs[1..])
  }

  lemma {:induction false} RepresentsIs(stat: seq<Entry>, e: Enc, fs: seq<Field>, l: seq<Instr>)
    requires Represents(stat, e, fs, l)
    ensures Rulings(stat, e, fs) == OK && AfterAll(stat, e, l) == AfterFields(stat, e, fs)
    ensures MeantAll(stat, e, l) == Meanings(stat, e, fs)
    decreases |l|
  {
    hide Chosen; hide Check; hide Next; hide Meant; hide Meaning; hide AfterField; hide Ruling;
    if l != [] {
      ChoiceIs(stat, e, fs[0], Some(l[0]));
      RepresentsIs(stat, Next(stat, e, l[0]), fs[1..], l[1..]);
    }
  }

  lemma {:induction false} RefusedIs(stat: seq<Entry>, e: Enc, fs: seq<Field>, l: seq<Instr>, r: Res)
    requires Refused(stat, e, fs, l, r)
    ensures Rulings(stat, e, fs) == r
    decreases |l|
  {
    if l == [] {
      assert fs[..0] == [];
      var i :| Chosen(stat, e.es, fs[0], i) && Check(stat, e.es, i) == r;
      ChoiceIs(stat, e, fs[0], i);
    } else {
      ChoiceIs(stat, e, fs[0], Some(l[0]));
      assert fs[..|l|][1..] == fs[1..][..|l| - 1] && fs[1..][|l| - 1] == fs[|l|];
      hide Chosen; hide Check; hide Next; hide Meant; hide Meaning; hide AfterField; hide Ruling;
      RefusedIs(stat, Next(stat, e, l[0]), fs[1..], l[1..], r);
    }
  }

  /** Fields that are given by their strings stand for them. */
  predicate Spelt(f: Field) {
    f.typ != TIdx && !f.namIdx
  }

  lemma {:induction false} SpeltMeanings(stat: seq<Entry>, e: Enc, fs: seq<Field>)
    requires forall f :: f in fs ==> Spelt(f)
    ensures var r := Meanings(stat, e, fs); |r| == |fs| && forall k :: 0 <= k < |fs| ==> r[k] == Entry(fs[k].nam, fs[k].val)
    decreases |fs|
  {
    if fs != [] {
      hide AfterField;
      var more := Meanings(stat, AfterField(stat, e, fs[0]), fs[1..]);
      SpeltMeanings(stat, AfterField(stat, e, fs[0]), fs[1..]);
      var r := Meanings(stat, e, fs);
      assert Spelt(fs[0]);
      assert r == [Entry(fs[0].nam, fs[0].val)] + more;
      hide Meanings;
      forall k | 0 <= k < |fs|
        ensures r[k] == Entry(fs[k].nam, fs[k].val)
      {
        if k > 0 { assert r[k] == more[k - 1] && fs[k] == fs[1..][k - 1]; }
      }
    }
  }

  // ---- how a field is written, and what is told of it ----

  /**
   The representation of a field: an index if it asks for one or if it is found as a whole, and otherwise a literal of its own
   type, with its value and its name, each with the H bit of its own flag. A name is an index if the field gives one, or if it
   asks for an index and some entry has this name.
   */
  ghost predicate WrittenAs(stat: seq<Entry>, es: seq<Entry>, f: Field, i: Instr) {
    && !i.Upd?
    && (i.Idx? <==> f.typ == TIdx || Whole(stat, es, f))
    && (f.typ == TIdx ==> i == Idx(f.idx))
    && (i.Idx? && f.typ != TIdx ==> ValidIndex(stat, es, i.idx) && (stat + es)[i.idx - 1] == Entry(f.nam, f.val))
    && (i.Lit? ==>
          && (i.kind == Dyn <==> f.typ == TDyn) && (i.kind == Plain <==> f.typ == TLit) && (i.kind == Nvr <==> f.typ == TNvr)
          && i.val == Str(f.valHuf, f.val)
          && if f.namIdx then i.nam == ByIndex(f.nidx)
             else if f.aut && exists e :: e in stat + es && e.nam == f.nam then
               i.nam.ByIndex? && ValidIndex(stat, es, i.nam.idx) && (stat + es)[i.nam.idx - 1].nam == f.nam
             else i.nam == ByName(Str(f.namHuf, f.nam)))
  }

  /** The item of a field: an indexed one, one that is inserted, one that must never be indexed, or a plain one. */
  ghost predicate Tells(stat: seq<Entry>, e: Enc, f: Field, x: Item) {
    && !x.UpdateItem?
    && StandsFor(stat, e.es, f, Entry(x.nam, x.val))
    && (x.IndexedItem? <==> f.typ == TIdx || Whole(stat, e.es, f))
    && (x.IndexedItem? ==>
          ValidIndex(stat, e.es, x.idx) && (stat + e.es)[x.idx - 1] == Entry(x.nam, x.val) && (f.typ == TIdx ==> x.idx == f.idx))
    && (x.PlainItem? ==> (f.typ == TLit || f.typ == TNvr) && (x.never <==> f.typ == TNvr))
    && (x.DynamicItem? ==>
          && f.typ == TDyn && (x.inserted <==> 32 + |x.nam| + |x.val| <= Limit(e.sz))
          && |AfterField(stat, e, f).es| == |e.es| - x.evicted + if x.inserted then 1 else 0)
  }

  lemma ChosenWritten(stat: seq<Entry>, es: seq<Entry>, f: Field, i: Instr)
    requires Chosen(stat, es, f, Some(i)) && Check(stat, es, Some(i)) == OK
    ensures WrittenAs(stat, es, f, i)
  {
    if i.Idx? { LookupExact(stat, es, i.idx); }
    if i.Lit? && i.nam.ByIndex? { LookupExact(stat, es, i.nam.idx); }
    hide Lookup; hide CheckString;
  }

  lemma InsertLength(es: seq<Entry>, e: Entry, lim: nat)
    ensures var n := |es| - |Evict(es, Total(es) + EntrySize(e), lim)|;
            0 <= n <= |es| && |Insert(es, e, lim)| == |es| - n + if EntrySize(e) <= lim then 1 else 0
  {
    hide Evict; hide Total;
  }

  lemma ChosenTells(stat: seq<Entry>, e: Enc, f: Field, i: Instr)
    requires Chosen(stat, e.es, f, Some(i)) && Check(stat, e.es, Some(i)) == OK
    ensures Tells(stat, e, f, ItemOf(stat, e.es, Limit(e.sz), i))
  {
    ChosenMeans(stat, e.es, f, i);
    ChosenWritten(stat, e.es, f, i);
    ChoiceIs(stat, e, f, Some(i));
    if i.Idx? { LookupExact(stat, e.es, i.idx); }
    InsertLength(e.es, Meant(stat, e.es, i), Limit(e.sz));
    hide Evict; hide Total; hide Insert; hide StandsFor; hide Chosen; hide Whole; hide Limit; hide Meaning;
  }

  /** The encoder before the field `k`. */
  function At(stat: seq<Entry>, e: Enc, fs: seq<Field>, k: nat): Enc
    requires k <= |fs|
  {
    AfterFields(stat, e, fs[..k])
  }

  ghost predicate AllWritten(stat: seq<Entry>, e: Enc, fs: seq<Field>, l: seq<Instr>) {
    |l| == |fs| && forall k :: 0 <= k < |fs| ==> WrittenAs(stat, At(stat, e, fs, k).es, fs[k], l[k])
  }

  ghost predicate AllTold(stat: seq<Entry>, e: Enc, fs: seq<Field>, xs: seq<Item>) {
    |xs| == |fs| && forall k :: 0 <= k < |fs| ==> Tells(stat, At(stat, e, fs, k), fs[k], xs[k])
  }

  lemma AtNext(stat: seq<Entry>, e: Enc, fs: seq<Field>, k: nat)
    requires 0 < k <= |fs|
    ensures At(stat, e, fs, k) == At(stat, AfterField(stat, e, fs[0]), fs[1..], k - 1)
    ensures At(stat, e, fs, 0) == e
  {
    assert fs[..k][1..] == fs[1..][..k - 1];
  }

  /** Every field is written as it says, and told as it was. */
  lemma {:induction false} RepresentsTells(stat: seq<Entry>, e: Enc, fs: seq<Field>, l: seq<Instr>)
    requires Represents(stat, e, fs, l)
    ensures AllWritten(stat, e, fs, l) && AllTold(stat, e, fs, ItemsOf(stat, e, l))
    decreases |l|
  {
    hide Chosen; hide Check; hide Next; hide AfterField; hide WrittenAs; hide Tells; hide ItemOf; hide Limit;
    if l != [] {
      var e' := Next(stat, e, l[0]);
      ChoiceIs(stat, e, fs[0], Some(l[0]));
      ChosenWritten(stat, e.es, fs[0], l[0]);
      ChosenTells(stat, e, fs[0], l[0]);
      RepresentsTells(stat, e', fs[1..], l[1..]);
      var xs := ItemsOf(stat, e, l);
      hide AfterFields; hide Meant; hide At;
      forall k | 0 <= k < |fs|
        ensures WrittenAs(stat, At(stat, e, fs, k).es, fs[k], l[k]) && Tells(stat, At(stat, e, fs, k), fs[k], xs[k])
      {
        AtNext(stat, e, fs, if k > 0 then k else 1);
        if k > 0 { assert fs[k] == fs[1..][k - 1] && l[k] == l[1..][k - 1] && xs[k] == xs[1..][k - 1]; }
      }
    }
  }

  // ---- from fields to fields ----

  lemma {:induction false} RepresentsWf(env: Env, e: Enc, fs: seq<Field>, l: seq<Instr>)
    requires WfEnv(env) && Represents(env.stat, e, fs, l)
    requires forall f :: f in fs ==> WfField(f) && Fits(env.code, f)
    ensures WfInstrs(env, e, l)
    decreases |l|
  {
    if l != [] {
      hide WfCode; hide Chosen; hide Check; hide WfInstr; hide Next; hide Fits; hide WfField; hide AllGood;
      ChosenFits(env, e.es, fs[0], l[0]);
      RepresentsWf(env, Next(env.stat, e, l[0]), fs[1..], l[1..]);
    }
  }

  /**
   What hpack_encode writes for valid fields, a decoder in step decodes to these fields: it tells each of them as it was given,
   with its strings, or what its indices stand for, in order, after the updates; and both tables are the same afterwards.
   */
  lemma FieldsInStep(env: Env, d: Dec, e: Enc, cap: nat, fs: seq<Field>, l: seq<Instr>) returns (d': Dec, xs: seq<Item>)
    requires WfEnv(env) && Inv(d) && !MidField(d) && InStep(e, d) && WfSize(e.sz) && Acceptable(e.sz)
    requires fs != [] && Represents(env.stat, Settled(e), fs, l) && (forall f :: f in fs ==> WfField(f) && Fits(env.code, f))
    requires Sizes(Meanings(env.stat, Settled(e), fs)) <= cap
    ensures var w := BlockWire(env, e, l); w != [] && Called(env, d, false, cap, w) == Run(d')
    ensures Inv(d') && !MidField(d') && InStep(AfterFields(env.stat, Settled(e), fs), d')
    ensures Sent(env.stat, e, l) == AfterFields(env.stat, Settled(e), fs)
    ensures AllWritten(env.stat, Settled(e), fs, l) && AllTold(env.stat, Settled(e), fs, xs)
    ensures d'.t.evs == d.t.evs + Events(AnnouncedItems(e) + xs) && BlockItems(env.stat, e, l) == AnnouncedItems(e) + xs
    ensures Reported(d'.t.evs) == Reported(d.t.evs) + Meanings(env.stat, Settled(e), fs)
    ensures (forall f :: f in fs ==> Spelt(f)) ==>
              |xs| == |fs| && forall k :: 0 <= k < |fs| ==> xs[k].nam == fs[k].nam && xs[k].val == fs[k].val
  {
    xs := ItemsOf(env.stat, Settled(e), l);
    RepresentsWf(env, Settled(e), fs, l);
    RepresentsIs(env.stat, Settled(e), fs, l);
    RepresentsTells(env.stat, Settled(e), fs, l);
    SentSize(env.stat, e, l);
    hide WfCode; hide Inv; hide Represents; hide MeantAll; hide WfInstrs; hide Settled; hide Called; hide BlockWire;
    hide AllGood; hide Reported; hide Fits; hide WfField; hide Meanings; hide AfterFields; hide Events; hide AnnouncedItems;
    hide ItemsOf;
    hide Tells; hide AllWritten; hide Spelt; hide At;
    assert l != [] by { RepresentsSize(env.stat, Settled(e), fs, l); }
    d' := BlockInStep(env, d, e, cap, l);
    if forall f :: f in fs ==> Spelt(f) { SpeltTold(env.stat, Settled(e), fs, xs); }
  }

  lemma SpeltTold(stat: seq<Entry>, e: Enc, fs: seq<Field>, xs: seq<Item>)
    requires AllTold(stat, e, fs, xs) && forall f :: f in fs ==> Spelt(f)
    ensures forall k :: 0 <= k < |fs| ==> !xs[k].UpdateItem? && xs[k].nam == fs[k].nam && xs[k].val == fs[k].val
  {
    hide AfterField; hide Whole; hide Limit; hide Lookup; hide At;
    forall k | 0 <= k < |fs|
      ensures !xs[k].UpdateItem? && xs[k].nam == fs[k].nam && xs[k].val == fs[k].val
    {
      assert Spelt(fs[k]) && Tells(stat, At(stat, e, fs, k), fs[k], xs[k]);
    }
  }

  lemma RepresentsSize(stat: seq<Entry>, e: Enc, fs: seq<Field>, l: seq<Instr>)
    requires Represents(stat, e, fs, l)
    ensures |l| == |fs|
  {
  }

  // ---- what is accepted ----

  /** The name is written out: no index is given, and none is found. */
  ghost predicate NameSpelt(stat: seq<Entry>, es: seq<Entry>, f: Field) {
    !f.namIdx && !(f.aut && exists e :: e in stat + es && e.nam == f.nam)
  }

  ghost predicate NameAccepted(stat: seq<Entry>, es: seq<Entry>, f: Field) {
    if f.namIdx then ValidIndex(stat, es, f.nidx) else NameSpelt(stat, es, f) ==> |f.nam| <= 65535 && ValidName(f.nam)
  }

  /**
   Which fields are accepted, and which error any other one is: a bad index, a string of more than 65535 octets, a bad
   pseudo-header, a bad character, or a field without a type; the name is looked at first, and only if it is written out.
   */
  lemma RulingExact(stat: seq<Entry>, es: seq<Entry>, f: Field)
    ensures f.typ == TIdx ==> Ruling(stat, es, f) == if ValidIndex(stat, es, f.idx) then OK else IDX
    ensures f.typ != TIdx && Whole(stat, es, f) ==> Ruling(stat, es, f) == OK
    ensures f.typ == TNone && !Whole(stat, es, f) ==> Ruling(stat, es, f) == ARG
    ensures f.typ != TIdx && f.typ != TNone && !Whole(stat, es, f) ==>
              var r, spelt := Ruling(stat, es, f), NameSpelt(stat, es, f);
              && (r == OK <==> NameAccepted(stat, es, f) && |f.val| <= 65535 && ValidValue(f.val))
              && (r == IDX <==> f.namIdx && !ValidIndex(stat, es, f.nidx))
              && (r == INT <==> if NameAccepted(stat, es, f) then |f.val| > 65535 else spelt && |f.nam| > 65535)
              && (r == HDR <==> spelt && |f.nam| <= 65535 && !ValidName(f.nam) && f.nam[0] == 0x3a)
              && (r == CHR <==> if NameAccepted(stat, es, f) then |f.val| <= 65535 && !ValidValue(f.val)
                                else spelt && |f.nam| <= 65535 && f.nam[0] != 0x3a)
  {
    TokenExact(f.nam);
    ValueExact(f.val);
    LookupExact(stat, es, f.idx);
    LookupExact(stat, es, f.nidx);
    assert ValidName([]);
    hide Token; hide ValueOk; hide ValidName; hide ValidValue; hide Lookup; hide KnownPseudo; hide LowerTchar; hide Whole;
  }

  /** A field that the encoder refuses, the decoder would refuse with the same error, and the other way round. */
  lemma SameVerdict(env: Env, es: seq<Entry>, i: Instr)
    requires WfEnv(env) && Writable(env.code, i)
    requires i.Lit? ==> |i.val.s| <= 65535 && (i.nam.ByName? ==> 0 < |i.nam.n.s| <= 65535)
    ensures Check(env.stat, es, Some(i)) == Fault(env.stat, es, i)
  {
    if i.Idx? { LookupExact(env.stat, es, i.idx); }
    if i.Lit? {
      ValueExact(i.val.s);
      match i.nam
      case ByName(t) => TokenExact(t.s);
      case ByIndex(j) => LookupExact(env.stat, es, j);
    }
    hide Token; hide ValueOk; hide ValidName; hide ValidValue; hide Lookup; hide WfStr; hide WfCode; hide KnownPseudo;
  }
}
