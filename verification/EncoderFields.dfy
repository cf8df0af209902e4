/** The fields given to hpack_encode, the representations it may choose for them, and what it checks. */
module EncoderFields {
  import opened Common
  import opened HuffmanCode
  import opened Validate
  import opened TableSpec
  import opened Aliasing
  import opened TableSearch
  import opened DecoderSpec
  import opened DecoderBlock
  import opened EncoderSpec
  import opened WireScan
  import opened Lockstep
  import opened Protocol

  /** The type flags of a field; a field may have none. */
  datatype Typ = TIdx | TDyn | TLit | TNvr | TNone

  /** `struct hpack_field`, its flags spelled out. The strings are the octets before the NUL. */
  datatype Field = Field(typ: Typ, aut: bool, namIdx: bool, namHuf: bool, valHuf: bool, idx: u16, nidx: u16, nam: seq<byte>, val: seq<byte>)

  /** What the callers of hpack_encode provide: C strings, and no empty name where a name is to be written. */
  predicate WfField(f: Field) {
    0 !in f.nam && 0 !in f.val && (f.typ != TIdx && !f.namIdx ==> f.nam != [])
  }

  /** A literal field of the type of `f`. */
  function Literal(f: Field, n: Name): Option<Instr> {
    match f.typ
    case TDyn => Some(Lit(Dyn, n, Str(f.valHuf, f.val)))
    case TLit => Some(Lit(Plain, n, Str(f.valHuf, f.val)))
    case TNvr => Some(Lit(Nvr, n, Str(f.valHuf, f.val)))
    case _ => None
  }

  predicate HasName(stat: seq<Entry>, es: seq<Entry>, nam: seq<byte>) {
    exists e :: e in stat + es && e.nam == nam
  }

  predicate NameAt(stat: seq<Entry>, es: seq<Entry>, nam: seq<byte>, idx: u16) {
    Lookup(stat, es, idx).Some? && Lookup(stat, es, idx).value.nam == nam
  }

  /** The representations of a field: as asked for, or with HPACK_FLG_AUT_IDX any index of the field or of its name. */
  ghost predicate Chosen(stat: seq<Entry>, es: seq<Entry>, f: Field, i: Option<Instr>) {
    if f.typ == TIdx then i == Some(Idx(f.idx))
    else if f.namIdx then i == Literal(f, ByIndex(f.nidx))
    else if !f.aut then i == Literal(f, ByName(Str(f.namHuf, f.nam)))
    else if Entry(f.nam, f.val) in stat + es && f.typ != TNvr then
      i.Some? && i.value.Idx? && Lookup(stat, es, i.value.idx) == Some(Entry(f.nam, f.val))
    else if HasName(stat, es, f.nam) then
      exists j: u16 :: NameAt(stat, es, f.nam, j) && i == Literal(f, ByIndex(j))
    else i == Literal(f, ByName(Str(f.namHuf, f.nam)))
  }

  /** hpack_encode_string: the length, then the grammar. */
  function CheckString(name: bool, s: seq<byte>): Res {
    if |s| >= 0x1_0000 then INT else if name then Token(s) else if ValueOk(s) then OK else CHR
  }

  /** What encoding gives; a field without a type is refused. */
  function Check(stat: seq<Entry>, es: seq<Entry>, i: Option<Instr>): Res {
    match i
    case None => ARG
    case Some(Upd(_)) => ARG
    case Some(Idx(v)) => if Lookup(stat, es, v).Some? then OK else IDX
    case Some(Lit(_, n, v)) =>
      var r := match n
               case ByIndex(j) => if Lookup(stat, es, j).Some? then OK else IDX
               case ByName(t) => CheckString(true, t.s);
      if r != OK then r else CheckString(false, v.s)
  }

  /** What HPT_index asks of a name that is in the dynamic table. */
  ghost predicate Safe(stat: seq<Entry>, e: Enc, i: Instr) {
    i.Lit? && i.kind == Dyn && i.nam.ByIndex? && i.nam.idx > STATIC ==>
      var f := Meant(stat, e.es, i);
      EntrySize(f) <= Limit(e.sz) ==> AliasSafe(f.nam, Evict(e.es, Total(e.es) + EntrySize(f), Limit(e.sz)))
  }

  /** Names of at most nine octets always are. */
  lemma ShortIsSafe(stat: seq<Entry>, e: Enc, i: Instr)
    requires |Meant(stat, e.es, i).nam| <= 9
    ensures Safe(stat, e, i)
  {
    hide Evict; hide Total; hide Lookup;
  }

  /** Whatever is chosen for the fields, no insertion breaks the table. */
  ghost predicate SafeRun(stat: seq<Entry>, e: Enc, fs: seq<Field>)
    decreases |fs|
  {
    fs == [] ||
    forall i :: Chosen(stat, e.es, fs[0], Some(i)) && Check(stat, e.es, Some(i)) == OK ==>
                  Safe(stat, e, i) && SafeRun(stat, Next(stat, e, i), fs[1..])
  }

  /**
   What a caller can look at beforehand: an inserted name is given by a static index, or it is written out, or it is looked
   up automatically and has at most nine octets.
   */
  predicate Harmless(f: Field) {
    f.typ == TDyn ==> if f.namIdx then f.nidx <= STATIC else !f.aut || |f.nam| <= 9
  }

  lemma HarmlessIsSafe(stat: seq<Entry>, e: Enc, f: Field, i: Instr)
    requires Harmless(f) && Chosen(stat, e.es, f, Some(i)) && Check(stat, e.es, Some(i)) == OK
    ensures Safe(stat, e, i)
  {
    if f.typ == TDyn && !f.namIdx && f.aut {
      ChosenMeans(stat, e.es, f, i);
      ShortIsSafe(stat, e, i);
    }
    hide Evict; hide Total; hide Lookup; hide AliasSafe; hide Meant; hide Check;
  }

  lemma {:induction false} HarmlessRun(stat: seq<Entry>, e: Enc, fs: seq<Field>)
    requires forall f :: f in fs ==> Harmless(f)
    ensures SafeRun(stat, e, fs)
    decreases |fs|
  {
    hide Harmless; hide Chosen; hide Check; hide Safe; hide Next;
    if fs != [] {
      forall i | Chosen(stat, e.es, fs[0], Some(i)) && Check(stat, e.es, Some(i)) == OK
        ensures Safe(stat, e, i) && SafeRun(stat, Next(stat, e, i), fs[1..])
      {
        HarmlessIsSafe(stat, e, fs[0], i);
        HarmlessRun(stat, Next(stat, e, i), fs[1..]);
      }
    }
  }

  predicate AllShort(es: seq<Entry>) {
    forall e :: e in es ==> |e.nam| <= 9
  }

  /** With explicit indices of the dynamic table, all that enters it has a short name. */
  predicate Short(stat: seq<Entry>, f: Field) {
    f.typ == TDyn ==> if f.namIdx then f.nidx == 0 || f.nidx > |stat| || |stat[f.nidx - 1].nam| <= 9 else |f.nam| <= 9
  }

  lemma ShortMeans(stat: seq<Entry>, e: Enc, f: Field, i: Instr)
    requires AllShort(e.es) && Short(stat, f) && Chosen(stat, e.es, f, Some(i)) && Check(stat, e.es, Some(i)) == OK
    ensures Safe(stat, e, i) && AllShort(Next(stat, e, i).es)
  {
    if f.typ == TDyn {
      ChosenMeans(stat, e.es, f, i);
      assert |Meant(stat, e.es, i).nam| <= 9 || i.Idx?;
      ShortIsSafe(stat, e, i);
    }
    hide Evict; hide Total; hide Check; hide AliasSafe; hide Meant; hide Lookup;
  }

  lemma {:induction false} ShortRun(stat: seq<Entry>, e: Enc, fs: seq<Field>)
    requires AllShort(e.es) && forall f :: f in fs ==> Short(stat, f)
    ensures SafeRun(stat, e, fs)
    decreases |fs|
  {
    hide Short; hide Chosen; hide Check; hide Safe; hide Next; hide AllShort;
    if fs != [] {
      forall i | Chosen(stat, e.es, fs[0], Some(i)) && Check(stat, e.es, Some(i)) == OK
        ensures Safe(stat, e, i) && SafeRun(stat, Next(stat, e, i), fs[1..])
      {
        ShortMeans(stat, e, fs[0], i);
        ShortRun(stat, Next(stat, e, i), fs[1..]);
      }
    }
  }

  /** `l` represents the fields `fs`, all of them valid. */
  ghost predicate Represents(stat: seq<Entry>, e: Enc, fs: seq<Field>, l: seq<Instr>)
    decreases |l|
  {
    && |l| == |fs|
    && (l != [] ==>
          && Chosen(stat, e.es, fs[0], Some(l[0])) && Check(stat, e.es, Some(l[0])) == OK
          && Represents(stat, Next(stat, e, l[0]), fs[1..], l[1..]))
  }

  /** The name and the value that a field stands for. */
  ghost predicate StandsFor(stat: seq<Entry>, es: seq<Entry>, f: Field, e: Entry) {
    if f.typ == TIdx then Lookup(stat, es, f.idx) == Some(e)
    else if f.namIdx then Lookup(stat, es, f.nidx).Some? && e == Entry(Lookup(stat, es, f.nidx).value.nam, f.val)
    else e == Entry(f.nam, f.val)
  }

  /** Whatever is chosen, it stands for the field that was given: automatic indexing is transparent. */
  lemma ChosenMeans(stat: seq<Entry>, es: seq<Entry>, f: Field, i: Instr)
    requires Chosen(stat, es, f, Some(i)) && Check(stat, es, Some(i)) == OK
    ensures StandsFor(stat, es, f, Meant(stat, es, i))
  {
    hide Lookup; hide CheckString;
  }

  /** A representation that passes the checks can be decoded, if its Huffman-coded strings are not too long. */
  lemma CheckedIsWf(env: Env, es: seq<Entry>, i: Instr)
    requires WfEnv(env) && Check(env.stat, es, Some(i)) == OK
    requires i.Lit? ==> WfStr(env.code, i.val) && (i.nam.ByName? ==> i.nam.n.s != [] && WfStr(env.code, i.nam.n))
    ensures WfInstr(env, es, i)
  {
    hide Lookup; hide Token; hide ValueOk; hide WfCode; hide WfStr;
  }

  /** One more field at the end. */
  lemma {:induction false} RepresentsMore(c: Code, stat: seq<Entry>, e: Enc, fs: seq<Field>, l: seq<Instr>, f: Field, i: Instr)
    requires WfCode(c) && Represents(stat, e, fs, l)
    requires var es := AfterAll(stat, e, l).es; Chosen(stat, es, f, Some(i)) && Check(stat, es, Some(i)) == OK
    ensures Represents(stat, e, fs + [f], l + [i])
    ensures AfterAll(stat, e, l + [i]) == Next(stat, AfterAll(stat, e, l), i)
    ensures Wires(c, l + [i]) == Wires(c, l) + Wire(c, i)
    decreases |l|
  {
    hide Chosen; hide Check; hide Next; hide WfCode; hide Wire;
    if l == [] {
      assert fs + [f] == [f] && l + [i] == [i] && [f][1..] == [] && [i][1..] == [];
    } else {
      assert (fs + [f])[1..] == fs[1..] + [f] && (l + [i])[1..] == l[1..] + [i];
      RepresentsMore(c, stat, Next(stat, e, l[0]), fs[1..], l[1..], f, i);
    }
  }

  /** The fields up to one that is refused. */
  ghost predicate Refused(stat: seq<Entry>, e: Enc, fs: seq<Field>, l: seq<Instr>, r: Res) {
    && r != OK && |l| < |fs| && Represents(stat, e, fs[..|l|], l)
    && var es := AfterAll(stat, e, l).es; exists i :: Chosen(stat, es, fs[|l|], i) && Check(stat, es, i) == r
  }

  /** The field `k` is encoded. */
  lemma Advance(c: Code, stat: seq<Entry>, e: Enc, fs: seq<Field>, k: nat, l: seq<Instr>, i: Option<Instr>, head: seq<byte>)
    requires WfCode(c) && k == |l| < |fs| && Represents(stat, e, fs[..k], l)
    requires var at := AfterAll(stat, e, l);
             SafeRun(stat, at, fs[k..]) && Chosen(stat, at.es, fs[k], i) && Check(stat, at.es, i) == OK
    ensures i.Some? && Represents(stat, e, fs[..k + 1], l + [i.value])
    ensures AfterAll(stat, e, l + [i.value]) == Next(stat, AfterAll(stat, e, l), i.value)
    ensures SafeRun(stat, Next(stat, AfterAll(stat, e, l), i.value), fs[k + 1..])
    ensures head + Wires(c, l) + Wire(c, i.value) == head + Wires(c, l + [i.value])
  {
    hide Chosen; hide Next; hide WfCode; hide Wire; hide Represents; hide AfterAll; hide Wires; hide Safe;
    var at := AfterAll(stat, e, l);
    CheckSome(stat, at.es, i);
    hide Check;
    SafeThen(stat, at, fs[k..], i.value);
    RepresentsMore(c, stat, e, fs[..k], l, fs[k], i.value);
    assert fs[..k] + [fs[k]] == fs[..k + 1] && fs[k..][1..] == fs[k + 1..];
    assert head + (Wires(c, l) + Wire(c, i.value)) == head + Wires(c, l) + Wire(c, i.value);
  }

  lemma SafeNext(stat: seq<Entry>, e: Enc, fs: seq<Field>)
    requires SafeRun(stat, e, fs) && fs != []
    ensures forall i :: Chosen(stat, e.es, fs[0], Some(i)) && Check(stat, e.es, Some(i)) == OK ==> Safe(stat, e, i)
  {
  }

  lemma SafeThen(stat: seq<Entry>, e: Enc, fs: seq<Field>, i: Instr)
    requires SafeRun(stat, e, fs) && fs != [] && Chosen(stat, e.es, fs[0], Some(i)) && Check(stat, e.es, Some(i)) == OK
    ensures SafeRun(stat, Next(stat, e, i), fs[1..])
  {
  }

  lemma CheckSome(stat: seq<Entry>, es: seq<Entry>, i: Option<Instr>)
    requires Check(stat, es, i) == OK
    ensures i.Some? && !i.value.Upd?
  {
  }

  lemma RefusedHere(stat: seq<Entry>, e: Enc, fs: seq<Field>, k: nat, l: seq<Instr>, i: Option<Instr>)
    requires k == |l| < |fs| && Represents(stat, e, fs[..k], l)
    requires var es := AfterAll(stat, e, l).es; Chosen(stat, es, fs[k], i) && Check(stat, es, i) != OK
    ensures Refused(stat, e, fs, l, Check(stat, AfterAll(stat, e, l).es, i))
  {
  }

  // ---- strings that can be written ----

  /** The strings of a field, coded as its flags ask, fit in 16-bit lengths. */
  ghost predicate Fits(c: Code, f: Field)
    requires WfCode(c)
  {
    (f.namHuf ==> |HufEnc(c, f.nam)| < 0x1_0000) && (f.valHuf ==> |HufEnc(c, f.val)| < 0x1_0000)
  }

  lemma ChosenFits(env: Env, es: seq<Entry>, f: Field, i: Instr)
    requires WfEnv(env) && Chosen(env.stat, es, f, Some(i)) && Check(env.stat, es, Some(i)) == OK && WfField(f) && Fits(env.code, f)
    ensures WfInstr(env, es, i)
  {
    hide WfCode; hide Lookup; hide HufEnc; hide Token; hide ValueOk;
    CheckedIsWf(env, es, i);
  }
}
