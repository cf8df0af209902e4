/**
 A monitor that starts in the middle of a stream, with an empty table. It follows the insertions and the evictions of the
 decoder it watches, and knows a newest-first part of its table.
 */
module Monitor {
  import opened Common
  import opened TableSpec
  import opened HuffmanCode
  import opened HpackTbl
  import opened DecoderSpec
  import opened DecoderBlock
  import opened EncoderSpec
  import opened Lockstep
  import opened Protocol

  /** What a stream does to a table: a field, or an update of its limit. */
  datatype Happening = FieldSeen(i: Instr) | LimitSet(lim: nat)

  datatype Watch = Watch(es: seq<Entry>, lim: nat)

  /** The name of a dynamic field, where an index may be unknown to a monitor. */
  function SeenName(mon: bool, stat: seq<Entry>, es: seq<Entry>, n: Name): seq<byte> {
    match n
    case ByName(t) => t.s
    case ByIndex(j) => match LookupMon(mon, stat, es, j) case Some(e) => e.nam case None => []
  }

  function Seen(mon: bool, stat: seq<Entry>, w: Watch, h: Happening): Watch {
    match h
    case LimitSet(lim) => Watch(Evict(w.es, Total(w.es), lim), lim)
    case FieldSeen(i) =>
      if i.Lit? && i.kind == Dyn then w.(es := Insert(w.es, Entry(SeenName(mon, stat, w.es, i.nam), i.val.s), w.lim)) else w
  }

  function AllSeen(mon: bool, stat: seq<Entry>, w: Watch, hs: seq<Happening>): Watch {
    if hs == [] then w else Seen(mon, stat, AllSeen(mon, stat, w, hs[..|hs| - 1]), hs[|hs| - 1])
  }

  /** Nothing is inserted with a name that the monitor does not know. */
  predicate Known(stat: seq<Entry>, m: seq<Entry>, h: Happening) {
    h.FieldSeen? && h.i.Lit? && h.i.kind == Dyn && h.i.nam.ByIndex? ==> h.i.nam.idx <= |stat| + |m|
  }

  predicate AllKnown(stat: seq<Entry>, w: Watch, hs: seq<Happening>) {
    hs == [] || (AllKnown(stat, w, hs[..|hs| - 1]) && Known(stat, AllSeen(true, stat, w, hs[..|hs| - 1]).es, hs[|hs| - 1]))
  }

  /** Oldest entries go first: eviction reaches `m` only when nothing is left of `past`. */
  lemma {:induction false} EvictBoth(m: seq<Entry>, past: seq<Entry>, more: nat, lim: nat) returns (j: nat)
    ensures j <= |past| && Evict(m + past, Total(m + past) + more, lim) == Evict(m, Total(m) + more, lim) + past[..j]
    ensures j > 0 ==> Evict(m, Total(m) + more, lim) == m
    decreases |past|
  {
    var all := m + past;
    TotalAppend(m, past);
    if past == [] {
      assert all == m;
      j := 0;
    } else if Total(all) + more <= lim {
      j := |past|;
    } else {
      var l := |past| - 1;
      TotalLast(all);
      assert all[..|all| - 1] == m + past[..l];
      j := EvictBoth(m, past[..l], more, lim);
      assert past[..l][..j] == past[..j];
    }
  }

  /** Indices that the monitor knows resolve as for the decoder. */
  lemma KnownResolves(stat: seq<Entry>, m: seq<Entry>, rest: seq<Entry>, idx: nat)
    requires idx <= |stat| + |m|
    ensures LookupMon(true, stat, m, idx) == Lookup(stat, m + rest, idx) == LookupMon(false, stat, m + rest, idx)
  {
  }

  /** One step. */
  lemma StepBoth(stat: seq<Entry>, m: Watch, t: Watch, past: seq<Entry>, h: Happening) returns (j: nat)
    requires t.es == m.es + past && t.lim == m.lim && Known(stat, m.es, h)
    ensures var m', t' := Seen(true, stat, m, h), Seen(false, stat, t, h);
            j <= |past| && t'.es == m'.es + past[..j] && t'.lim == m'.lim
  {
    hide Evict; hide Total;
    j := |past|;
    match h
    case LimitSet(lim) => j := EvictBoth(m.es, past, 0, lim);
    case FieldSeen(i) =>
      if i.Lit? && i.kind == Dyn {
        if i.nam.ByIndex? { KnownResolves(stat, m.es, past, i.nam.idx); }
        var e := Entry(SeenName(true, stat, m.es, i.nam), i.val.s);
        j := EvictBoth(m.es, past, EntrySize(e), m.lim);
        var r := Evict(m.es, Total(m.es) + EntrySize(e), m.lim);
        if EntrySize(e) > m.lim {
          Emptied(m.es + past, EntrySize(e), m.lim);
        } else {
          assert [e] + (r + past[..j]) == [e] + r + past[..j];
        }
      }
  }

  lemma Emptied(es: seq<Entry>, n: nat, lim: nat)
    requires n > lim
    ensures Evict(es, Total(es) + n, lim) == []
  {
    EvictMinimal(es, Total(es) + n, lim);
  }

  /**
   The table of a monitor started with nothing, beside a decoder that had `past`, is what that decoder inserted since; the
   decoder has a part of `past` besides, which only shrinks. Both are equal as soon as that part is gone.
   */
  lemma {:induction false} MonitorConverges(stat: seq<Entry>, past: seq<Entry>, lim: nat, hs: seq<Happening>) returns (j: nat)
    requires AllKnown(stat, Watch([], lim), hs)
    ensures var m, t := AllSeen(true, stat, Watch([], lim), hs), AllSeen(false, stat, Watch(past, lim), hs);
            && j <= |past| && t.es == m.es + past[..j] && t.lim == m.lim
            && (t.es == m.es <==> j == 0)
            && (forall idx: nat :: idx <= |stat| + |m.es| ==> LookupMon(true, stat, m.es, idx) == Lookup(stat, t.es, idx))
  {
    hide Seen; hide LookupMon; hide Lookup; hide Known;
    var m, t := AllSeen(true, stat, Watch([], lim), hs), AllSeen(false, stat, Watch(past, lim), hs);
    if hs == [] {
      j := |past|;
      assert [] + past[..j] == past;
    } else {
      var n := |hs| - 1;
      var k := MonitorConverges(stat, past, lim, hs[..n]);
      j := StepBoth(stat, AllSeen(true, stat, Watch([], lim), hs[..n]), AllSeen(false, stat, Watch(past, lim), hs[..n]), past[..k], hs[n]);
      assert past[..k][..j] == past[..j];
    }
    forall idx: nat | idx <= |stat| + |m.es|
      ensures LookupMon(true, stat, m.es, idx) == Lookup(stat, t.es, idx)
    {
      KnownResolves(stat, m.es, past[..j], idx);
    }
    assert j > 0 ==> |t.es| > |m.es|;
  }

  // ---- on a stream of blocks ----

  /** What a representation does to a table. */
  function Happens(i: Instr): Happening {
    if i.Upd? then LimitSet(i.lim) else FieldSeen(i)
  }

  function AllHappen(l: seq<Instr>): (hs: seq<Happening>)
    ensures |hs| == |l|
  {
    seq(|l|, k requires 0 <= k < |l| => Happens(l[k]))
  }

  /** What the blocks of a run do to the table of their receiver. */
  function RunHappens(stat: seq<Entry>, e: Enc, acts: seq<Action>): seq<Happening>
    requires WfSize(e.sz)
    decreases |acts|
  {
    if acts == [] then []
    else match acts[0]
      case ResizeBoth(len) => RunHappens(stat, e.(sz := Resized(e.sz, len)), acts[1..])
      case SendBlock(l) =>
        SentSize(stat, e, l);
        AllHappen(Announced(e.sz)) + AllHappen(l) + RunHappens(stat, Sent(stat, e, l), acts[1..])
  }

  lemma {:induction false} SeenThen(mon: bool, stat: seq<Entry>, w: Watch, a: seq<Happening>, b: seq<Happening>)
    ensures AllSeen(mon, stat, w, a + b) == AllSeen(mon, stat, AllSeen(mon, stat, w, a), b)
    decreases |b|
  {
    if b == [] {
      assert a + b == a;
    } else {
      var n := |b| - 1;
      assert (a + b)[..|a| + n] == a + b[..n];
      SeenThen(mon, stat, w, a, b[..n]);
    }
  }

  lemma SeenOne(mon: bool, stat: seq<Entry>, w: Watch, h: Happening)
    ensures AllSeen(mon, stat, w, [h]) == Seen(mon, stat, w, h)
  {
    assert [h][..0] == [];
  }

  /** The table of an encoder without soft limit, as its receiver has it. */
  function WatchOf(e: Enc): Watch {
    Watch(e.es, Limit(e.sz))
  }

  lemma {:induction false} FieldsSeen(env: Env, e: Enc, l: seq<Instr>)
    requires WfEnv(env) && WfInstrs(env, e, l)
    ensures AllSeen(false, env.stat, WatchOf(e), AllHappen(l)) == WatchOf(AfterAll(env.stat, e, l))
    decreases |l|
  {
    hide Insert; hide Limit; hide WfCode; hide AllGood;
    if l != [] {
      var e1 := Next(env.stat, e, l[0]);
      FieldsSeen(env, e1, l[1..]);
      assert AllHappen(l) == [FieldSeen(l[0])] + AllHappen(l[1..]);
      SeenThen(false, env.stat, WatchOf(e), [FieldSeen(l[0])], AllHappen(l[1..]));
      SeenOne(false, env.stat, WatchOf(e), FieldSeen(l[0]));
      assert Seen(false, env.stat, WatchOf(e), FieldSeen(l[0])) == WatchOf(e1);
    }
  }

  lemma AnnouncedSeen(stat: seq<Entry>, e: Enc)
    requires WfSize(e.sz) && e.sz.lim < 0
    ensures AllSeen(false, stat, WatchOf(e), AllHappen(Announced(e.sz))) == WatchOf(Settled(e))
  {
    hide Evict; hide Total;
    var s, w := e.sz, WatchOf(e);
    if s.min < 0 {
      assert AllHappen([]) == [];
    } else if s.min < s.nxt {
      assert AllHappen(Announced(s)) == [LimitSet(s.min)] + [LimitSet(s.nxt)];
      SeenThen(false, stat, w, [LimitSet(s.min)], [LimitSet(s.nxt)]);
      SeenOne(false, stat, w, LimitSet(s.min));
      SeenOne(false, stat, Seen(false, stat, w, LimitSet(s.min)), LimitSet(s.nxt));
      EvictBounded(e.es, s.min);
      EvictNothing(Settled(e).es, Total(Settled(e).es), s.nxt);
    } else {
      assert AllHappen(Announced(s)) == [LimitSet(s.nxt)];
      SeenOne(false, stat, w, LimitSet(s.nxt));
    }
  }

  lemma {:induction false} RunSeen(env: Env, e: Enc, cap: nat, acts: seq<Action>)
    requires WfEnv(env) && WfSize(e.sz) && e.sz.lim < 0 && Admissible(env, e, cap, acts)
    ensures AllSeen(false, env.stat, WatchOf(e), RunHappens(env.stat, e, acts)) == WatchOf(EncRun(env.stat, e, acts))
    decreases |acts|
  {
    hide AllSeen; hide WfCode; hide AllGood; hide Settled; hide AllHappen; hide WfInstrs; hide AfterAll; hide Announced;
    hide Acceptable;
    hide MeantAll; hide Sizes;
    if acts == [] {
      assert AllSeen(false, env.stat, WatchOf(e), []) == WatchOf(e) by { NothingSeen(env.stat, WatchOf(e)); }
    } else {
      match acts[0]
      case ResizeBoth(len) => RunSeen(env, e.(sz := Resized(e.sz, len)), cap, acts[1..]);
      case SendBlock(l) =>
        SentSize(env.stat, e, l);
        var stat, e1 := env.stat, Sent(env.stat, e, l);
        var a, b, c := AllHappen(Announced(e.sz)), AllHappen(l), RunHappens(stat, e1, acts[1..]);
        SettledLimit(e);
        AnnouncedSeen(stat, e);
        FieldsSeen(env, Settled(e), l);
        SeenThen(false, stat, WatchOf(e), a, b);
        SeenThen(false, stat, WatchOf(e), a + b, c);
        RunSeen(env, e1, cap, acts[1..]);
    }
  }

  lemma NothingSeen(stat: seq<Entry>, w: Watch)
    ensures AllSeen(false, stat, w, []) == w
  {
  }

  lemma SettledLimit(e: Enc)
    requires WfSize(e.sz) && e.sz.lim < 0
    ensures Settled(e).sz.lim < 0
  {
  }

  /**
   Octets of any run go to a decoder, and what they stand for to a monitor started beside it: the table of the decoder
   is the one of the monitor and what is left of its table from before.
   */
  lemma MonitorBeside(env: Env, e: Enc, d: Dec, cap: nat, acts: seq<Action>) returns (d': Dec, j: nat)
    requires WfEnv(env) && WfSize(e.sz) && Inv(d) && !MidField(d) && InStep(e, d) && Admissible(env, e, cap, acts)
    requires AllKnown(env.stat, Watch([], Limit(d.t.sz)), RunHappens(env.stat, e, acts))
    ensures DecRun(env, e, d, cap, acts) == Run(d') && Inv(d') && !MidField(d')
    ensures var m := AllSeen(true, env.stat, Watch([], Limit(d.t.sz)), RunHappens(env.stat, e, acts));
            && j <= |d.t.es| && d'.t.es == m.es + d.t.es[..j] && m.lim == Limit(d'.t.sz)
            && (d'.t.es == m.es <==> j == 0)
            && (forall idx: nat :: idx <= |env.stat| + |m.es| ==> LookupMon(true, env.stat, m.es, idx) == Lookup(env.stat, d'.t.es, idx))
  {
    hide AllSeen; hide AllKnown; hide WfCode; hide AllGood; hide Inv; hide Admissible; hide RunHappens; hide EncRun;
    hide DecRun; hide Encoded;
    hide Lookup; hide LookupMon; hide MidField; hide Reported;
    d' := StayInStep(env, e, d, cap, acts);
    RunSeen(env, e, cap, acts);
    j := MonitorConverges(env.stat, d.t.es, Limit(d.t.sz), RunHappens(env.stat, e, acts));
  }
}
