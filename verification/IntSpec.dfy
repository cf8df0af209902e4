/** The integer representation of section 5.1 of RFC 7541, read octet by octet as lib/hpack_int.c does. */
module IntSpec {
  import opened Common

  /** `struct hpack_int_state`: the accumulator and the shift of the next octet, 16 and 8 bits wide. */
  datatype Hpi = Hpi(v: u16, m: byte)

  datatype IntRes = More(h: Hpi) | Done(v: u16) | Overflow

  type prefix = p: nat | 4 <= p <= 7 witness 4

  function Mask(pfx: prefix): (m: u16)
    ensures 15 <= m <= 127 && m + 1 == Pow2(pfx)
  {
    Pow2Table();
    Pow2(pfx) - 1
  }

  /** The first octet: the low `pfx` bits. */
  function IntFirst(pfx: prefix, b: byte): IntRes {
    var v := b % Pow2(pfx);
    if v < Mask(pfx) then Done(v) else More(Hpi(Mask(pfx), 0))
  }

  /** A continuation octet. Past 16 bits of shift only zero groups are accepted, and the sum must not go down. */
  function IntNext(h: Hpi, b: byte): IntRes {
    var n := if h.m <= 16 then (h.v + b % 128 * Pow2(h.m)) % 0x1_0000 else h.v;
    if h.m > 16 && b % 128 != 0 then Overflow
    else if h.v > n then Overflow
    else if b >= 128 then More(Hpi(n, (h.m + 7) % 256))
    else Done(n)
  }

  /** All the continuation octets `s`. */
  function Conts(h: Hpi, s: seq<byte>): IntRes
    decreases s
  {
    if s == [] then More(h)
    else match IntNext(h, s[0]) {
      case More(h') => Conts(h', s[1..])
      case r => r
    }
  }

  /** `s` is exactly one run of continuation octets. */
  predicate IsRun(s: seq<byte>) {
    s != [] && (if |s| == 1 then s[0] < 128 else s[0] >= 128 && IsRun(s[1..]))
  }

  /** The number the groups of 7 bits of `s` stand for, least significant first. */
  function RunValue(s: seq<byte>): nat {
    if s == [] then 0 else s[0] % 128 + 128 * RunValue(s[1..])
  }

  /** Encoding: HPI_encode as a value. */
  function Groups(v: nat): seq<byte> {
    if v >= 128 then [128 + v % 128] + Groups(v / 128) else [v]
  }

  function IntEnc(pfx: prefix, pat: byte, v: u16): seq<byte>
    requires pat + Mask(pfx) < 256
  {
    if v < Mask(pfx) then [pat + v] else [pat + Mask(pfx)] + Groups(v - Mask(pfx))
  }

  // ---- what decoding computes ----

  /** Groups of zeros change nothing, at any shift. */
  lemma {:induction false} ZeroRun(h: Hpi, s: seq<byte>)
    requires IsRun(s) && RunValue(s) == 0
    ensures Conts(h, s) == Done(h.v)
    decreases |s|
  {
    hide Pow2;
    assert IntNext(h, s[0]) == if s[0] >= 128 then More(Hpi(h.v, (h.m + 7) % 256)) else Done(h.v) by {
      assert 0 * Pow2(h.m) == 0;
    }
    if |s| > 1 { ZeroRun(Hpi(h.v, (h.m + 7) % 256), s[1..]); }
  }

  /** From the fourth group on, as long as the shift does not wrap, anything else is refused. */
  lemma {:induction false} RunPast(h: Hpi, k: nat, s: seq<byte>)
    requires IsRun(s) && RunValue(s) > 0 && h.m == 7 * k && k + |s| <= 37 && k >= 3
    ensures Conts(h, s) == Overflow
    decreases |s|
  {
    if s[0] % 128 == 0 {
      IdleStep(h);
      hide Pow2; hide IntNext;
      assert |s| > 1 && s[0] == 0x80;
      RunPast(Hpi(h.v, 7 * k + 7), k + 1, s[1..]);
    } else {
      hide Pow2;
    }
  }

  /** The third group is the only one whose carry out of 16 bits can be lost. */
  lemma Run14(v: u16, s: seq<byte>)
    requires IsRun(s) && v <= 127 + 0x3fff
    ensures var x := RunValue(s); x < 128 ==>
              Conts(Hpi(v, 14), s) == if x % 4 == 3 && v >= 0x4000 then Overflow else Done((v + x * 0x4000) % 0x1_0000)
    ensures RunValue(s) >= 128 && |s| <= 35 ==> Conts(Hpi(v, 14), s) == Overflow
  {
    Pow2Table();
    hide Pow2;
    var low: nat := s[0] % 128;
    var n := (v + low * 0x4000) % 0x1_0000;
    assert RunValue(s) == low + 128 * RunValue(s[1..]);
    assert n < v <==> low % 4 == 3 && v >= 0x4000 by { Carry(v, low); }
    assert s[0] >= 128 <==> |s| > 1;
    var r := IntNext(Hpi(v, 14), s[0]);
    assert r == if n < v then Overflow else if s[0] >= 128 then More(Hpi(n, 21)) else Done(n);
    hide IntNext;
    if r.More? {
      if RunValue(s[1..]) == 0 {
        ZeroRun(Hpi(n, 21), s[1..]);
      } else if |s| <= 35 {
        RunPast(Hpi(n, 21), 3, s[1..]);
      }
    }
  }

  lemma Carry(v: nat, low: nat)
    requires v < 0x8000
    ensures (v + low * 0x4000) % 0x1_0000 < v <==> low % 4 == 3 && v >= 0x4000
  {
    var k, q := low / 4, low % 4;
    assert v + low * 0x4000 == 0x1_0000 * k + (v + q * 0x4000);
    if q == 3 && v >= 0x4000 {
      DivUnique(k + 1, 0x1_0000, v - 0x4000);
    } else {
      DivUnique(k, 0x1_0000, v + q * 0x4000);
    }
  }

  /** The first two groups do not reach 16 bits. */
  lemma Run0(v: u16, s: seq<byte>)
    requires IsRun(s) && v <= 127
    ensures var low := v + RunValue(s) % 0x4000;
            if |s| <= 2 then RunValue(s) < 0x4000 && Conts(Hpi(v, 0), s) == Done(low)
            else && IsRun(s[1..][1..]) && RunValue(s) / 0x4000 == RunValue(s[1..][1..])
                 && Conts(Hpi(v, 0), s) == Conts(Hpi(low, 14), s[1..][1..])
  {
    hide IntNext;
    FirstStep(v, s[0]);
    if |s| == 1 {
      OneGroup(s);
    } else {
      var t := s[1..];
      assert s[0] >= 128 && IsRun(t);
      TwoGroups(s);
      SecondStep(v + s[0] % 128, t[0]);
      assert Conts(Hpi(v, 0), s) == Conts(Hpi(v + s[0] % 128, 7), t);
      hide RunValue;
    }
  }

  lemma OneGroup(s: seq<byte>)
    requires IsRun(s) && |s| == 1
    ensures RunValue(s) == s[0] == RunValue(s) % 0x4000
  {
    assert RunValue(s[1..]) == 0;
  }

  lemma TwoGroups(s: seq<byte>)
    requires |s| >= 2
    ensures RunValue(s) / 0x4000 == RunValue(s[1..][1..]) && RunValue(s) % 0x4000 == 128 * (s[1] as int % 128) + s[0] % 128
    ensures |s| == 2 ==> RunValue(s) < 0x4000
  {
    var t := s[1..];
    var a: int, b: int, y: int := s[0] % 128, t[0] % 128, RunValue(t[1..]);
    assert RunValue(s) == a + 128 * RunValue(t) && RunValue(t) == b + 128 * y;
    assert |s| == 2 ==> y == 0;
    hide RunValue;
    assert RunValue(s) == y * 0x4000 + (a + 128 * b);
    DivUnique(y, 0x4000, a + 128 * b);
  }

  lemma FirstStep(v: u16, b: byte)
    requires v <= 127
    ensures IntNext(Hpi(v, 0), b) == if b >= 128 then More(Hpi(v + b % 128, 7)) else Done(v + b % 128)
  {
  }

  lemma SecondStep(v: u16, b: byte)
    requires v <= 254
    ensures IntNext(Hpi(v, 7), b) == if b >= 128 then More(Hpi(v + 128 * (b % 128), 14)) else Done(v + 128 * (b % 128))
  {
    Pow2Table();
    hide Pow2;
  }

  /**
   When an integer is refused: more than three groups count, or the third group carries out of 16 bits and
   brings the sum below what it was.
   */
  predicate OverflowSeen(pfx: prefix, x: nat) {
    x >= 0x20_0000 || (x / 0x4000 % 4 == 3 && Mask(pfx) + x % 0x4000 >= 0x4000)
  }

  /**
   What decoding the value `Mask(pfx) + x` gives, for any representation of it with redundant zero groups. Values
   that fit in 16 bits are exact. The others are refused exactly as `OverflowSeen` says, and read modulo 65536 if not.
   */
  lemma DecodeExact(pfx: prefix, s: seq<byte>)
    requires IsRun(s)
    ensures var x, r := RunValue(s), Conts(Hpi(Mask(pfx), 0), s);
            && (Mask(pfx) + x < 0x1_0000 ==> r == Done(Mask(pfx) + x))
            && (x < 0x20_0000 || |s| <= 37 ==> r == if OverflowSeen(pfx, x) then Overflow else Done((Mask(pfx) + x) % 0x1_0000))
  {
    hide Conts; hide RunValue; hide IsRun; hide Pow2;
    var v, x := Mask(pfx), RunValue(s);
    hide Mask;
    Run0(v, s);
    var low, y := v + x % 0x4000, x / 0x4000;
    DivMod(x, 0x4000);
    if |s| > 2 { Run14(low, s[1..][1..]); }
    assert low + y * 0x4000 == v + x;
    if v + x < 0x1_0000 {
      assert y < 4 && !(y % 4 == 3 && low >= 0x4000);
      assert (v + x) % 0x1_0000 == v + x;
    }
  }

  /** The overflow test misses a carry out of 16 bits: 127 + 4 * 16384 reads as 127. */
  lemma OverflowMissed()
    ensures Mask(7) + RunValue([0x80, 0x80, 0x04]) == 0x1_007f
    ensures Conts(Hpi(Mask(7), 0), [0x80, 0x80, 0x04]) == Done(127)
  {
    Pow2Table();
    var s := [0x80, 0x80, 0x04];
    assert s[1..] == [0x80, 0x04] && s[1..][1..] == [0x04] && s[1..][1..][1..] == [];
    assert RunValue([0x04]) == 4 && RunValue([0x80, 0x04]) == 512;
    assert IsRun([0x04]) && IsRun([0x80, 0x04]);
    DecodeExact(7, s);
  }

  /** `n` redundant continuation octets. */
  function Idle(n: nat): seq<byte> {
    seq(n, i => 0x80)
  }

  lemma IdleStep(h: Hpi)
    ensures IntNext(h, 0x80) == More(Hpi(h.v, (h.m + 7) % 256))
  {
    assert 0 * Pow2(h.m) == 0;
  }

  lemma {:induction false} IdleRun(h: Hpi, n: nat, s: seq<byte>)
    requires h.m + 7 * n < 256
    ensures Conts(h, Idle(n) + s) == Conts(Hpi(h.v, h.m + 7 * n), s)
    decreases n
  {
    var t := Idle(n) + s;
    if n == 0 {
      assert t == s;
    } else {
      IdleStep(h);
      assert t[0] == 0x80 && t[1..] == Idle(n - 1) + s;
      IdleRun(Hpi(h.v, h.m + 7), n - 1, s);
    }
  }

  /** The bound of 37 octets is tight: after 37 zero groups the 8-bit shift is back at 3, and a 38th group counts again. */
  lemma ShiftWraps()
    ensures RunValue(Idle(37) + [0x01]) >= 0x20_0000
    ensures Conts(Hpi(Mask(7), 0), Idle(37) + [0x01]) == Done(127 + 8)
  {
    hide Pow2;
    IdleValue(37, [0x01]);
    assert Idle(37) + [0x01] == Idle(36) + [0x80, 0x01];
    IdleRun(Hpi(127, 0), 36, [0x80, 0x01]);
    BackToThree();
    assert Mask(7) == 127 by { Pow2Table(); }
    hide Conts; hide Idle; hide RunValue; hide Mask;
  }

  lemma BackToThree()
    ensures Conts(Hpi(127, 252), [0x80, 0x01]) == Done(135)
  {
    var t: seq<byte> := [0x80, 0x01];
    assert t[1..] == [0x01];
    IdleStep(Hpi(127, 252));
    assert IntNext(Hpi(127, 3), 0x01) == Done(135) by { Pow2Table(); }
    hide IntNext;
  }

  /** The last group of a run is multiplied by 128 for each one before it. */
  lemma {:induction false} IdleValue(n: nat, s: seq<byte>)
    ensures RunValue(Idle(n) + s) >= RunValue(s)
    ensures n >= 3 ==> RunValue(Idle(n) + s) >= 0x20_0000 * RunValue(s)
  {
    var t := Idle(n) + s;
    if n == 0 {
      assert t == s;
    } else {
      assert t[0] == 0x80 && t[1..] == Idle(n - 1) + s;
      IdleValue(n - 1, s);
      if n == 3 {
        assert t[1..][0] == 0x80 && t[1..][1..] == Idle(1) + s && (Idle(1) + s)[0] == 0x80 && (Idle(1) + s)[1..] == s;
      }
    }
  }

  lemma {:induction false} GroupsRun(v: nat)
    ensures IsRun(Groups(v)) && RunValue(Groups(v)) == v
    ensures forall k: nat :: v < Pow2(7 * k + 7) ==> |Groups(v)| <= k + 1
  {
    if v < 128 {
      assert Groups(v)[1..] == [];
    } else {
      var g := Groups(v / 128);
      GroupsRun(v / 128);
      assert Groups(v)[1..] == g;
      forall k: nat | v < Pow2(7 * k + 7)
        ensures |Groups(v)| <= k + 1
      {
        Pow2Table();
        if k > 0 {
          Pow2Add(7 * (k - 1) + 7, 7);
        }
      }
    }
  }

  /** Decoding an encoding gives the value back. */
  lemma RoundTrip(pfx: prefix, pat: byte, v: u16)
    requires pat % Pow2(pfx) == 0 && pat + Mask(pfx) < 256
    ensures var s := IntEnc(pfx, pat, v);
            match IntFirst(pfx, s[0])
            case Done(w) => |s| == 1 && w == v
            case More(h) => |s| > 1 && IsRun(s[1..]) && Conts(h, s[1..]) == Done(v)
            case Overflow => false
  {
    var s, m := IntEnc(pfx, pat, v), Mask(pfx);
    var x := s[0] - pat;
    assert s[0] % Pow2(pfx) == x by {
      DivMod(pat, Pow2(pfx));
      DivUnique(pat / Pow2(pfx), Pow2(pfx), x);
    }
    if v >= m {
      GroupsRun(v - m);
      assert Pow2(7 * 2 + 7) >= 0x1_0000 by { Pow2Table(); Pow2Mono(16, 21); }
      assert s[1..] == Groups(v - m);
      DecodeExact(pfx, s[1..]);
    }
  }

  /** Reading may stop after any octet. */
  lemma {:induction false} ContsAppend(h: Hpi, a: seq<byte>, b: seq<byte>)
    decreases a
    ensures Conts(h, a + b) == match Conts(h, a) { case More(h') => Conts(h', b) case r => r }
  {
    if a == [] {
      assert a + b == b;
    } else {
      assert (a + b)[1..] == a[1..] + b;
      var r := IntNext(h, a[0]);
      if r.More? { ContsAppend(r.h, a[1..], b); }
    }
  }
}
