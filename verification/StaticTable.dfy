/** The static table of RFC 7541 (appendix A), as in inc/tbl/hpack_static.h, and the sorted list that the search uses. */
module StaticTable {
  import opened Common
  import opened Validate
  import opened TableSpec
  import opened TableSearch
  import opened HuffmanCode
  import opened DecoderSpec
  import opened RfcCode

  /** The name and the value at an index. */
  function Text(i: nat): (string, string)
    requires 1 <= i <= STATIC
  {
    match i
    case 1 => (":authority", "") case 2 => (":method", "GET") case 3 => (":method", "POST")
    case 4 => (":path", "/") case 5 => (":path", "/index.html") case 6 => (":scheme", "http")
    case 7 => (":scheme", "https") case 8 => (":status", "200") case 9 => (":status", "204")
    case 10 => (":status", "206") case 11 => (":status", "304") case 12 => (":status", "400")
    case 13 => (":status", "404") case 14 => (":status", "500") case 15 => ("accept-charset", "")
    case 16 => ("accept-encoding", "gzip, deflate") case 17 => ("accept-language", "")
    case 18 => ("accept-ranges", "") case 19 => ("accept", "") case 20 => ("access-control-allow-origin", "")
    case 21 => ("age", "") case 22 => ("allow", "") case 23 => ("authorization", "")
    case 24 => ("cache-control", "") case 25 => ("content-disposition", "") case 26 => ("content-encoding", "")
    case 27 => ("content-language", "") case 28 => ("content-length", "") case 29 => ("content-location", "")
    case 30 => ("content-range", "") case 31 => ("content-type", "") case 32 => ("cookie", "")
    case 33 => ("date", "") case 34 => ("etag", "") case 35 => ("expect", "") case 36 => ("expires", "")
    case 37 => ("from", "") case 38 => ("host", "") case 39 => ("if-match", "")
    case 40 => ("if-modified-since", "") case 41 => ("if-none-match", "") case 42 => ("if-range", "")
    case 43 => ("if-unmodified-since", "") case 44 => ("last-modified", "") case 45 => ("link", "")
    case 46 => ("location", "") case 47 => ("max-forwards", "") case 48 => ("proxy-authenticate", "")
    case 49 => ("proxy-authorization", "") case 50 => ("range", "") case 51 => ("referer", "")
    case 52 => ("refresh", "") case 53 => ("retry-after", "") case 54 => ("server", "")
    case 55 => ("set-cookie", "") case 56 => ("strict-transport-security", "")
    case 57 => ("transfer-encoding", "") case 58 => ("user-agent", "") case 59 => ("vary", "")
    case 60 => ("via", "") case _ => ("www-authenticate", "")
  }

  predicate NameLetter(c: char) {
    'a' <= c <= 'z' || c == '-'
  }

  predicate Printable(c: char) {
    ' ' <= c <= '~'
  }

  predicate Pseudo(nam: string) {
    nam in [":authority", ":method", ":path", ":scheme", ":status"]
  }

  predicate TextOk(nam: string, val: string) {
    && 0 < |nam| < 0x1_0000 && |val| < 0x1_0000
    && (Pseudo(nam) || forall i :: 0 <= i < |nam| ==> NameLetter(nam[i]))
    && forall i :: 0 <= i < |val| ==> Printable(val[i])
  }

  lemma TextsOk0(i: nat)
    requires 1 <= i <= 4
    ensures TextOk(Text(i).0, Text(i).1)
  {
  }

  lemma TextsOk1(i: nat)
    requires 5 <= i <= 8
    ensures TextOk(Text(i).0, Text(i).1)
  {
  }

  lemma TextsOk2(i: nat)
    requires 9 <= i <= 12
    ensures TextOk(Text(i).0, Text(i).1)
  {
  }

  lemma TextsOk3(i: nat)
    requires 13 <= i <= 16
    ensures TextOk(Text(i).0, Text(i).1)
  {
  }

  lemma TextsOk4(i: nat)
    requires 17 <= i <= 20
    ensures TextOk(Text(i).0, Text(i).1)
  {
  }

  lemma TextsOk5(i: nat)
    requires 21 <= i <= 24
    ensures TextOk(Text(i).0, Text(i).1)
  {
  }

  lemma TextsOk6(i: nat)
    requires 25 <= i <= 28
    ensures TextOk(Text(i).0, Text(i).1)
  {
  }

  lemma TextsOk7(i: nat)
    requires 29 <= i <= 32
    ensures TextOk(Text(i).0, Text(i).1)
  {
  }

  lemma TextsOk8(i: nat)
    requires 33 <= i <= 36
    ensures TextOk(Text(i).0, Text(i).1)
  {
  }

  lemma TextsOk9(i: nat)
    requires 37 <= i <= 40
    ensures TextOk(Text(i).0, Text(i).1)
  {
  }

  lemma TextsOk10(i: nat)
    requires 41 <= i <= 44
    ensures TextOk(Text(i).0, Text(i).1)
  {
  }

  lemma TextsOk11(i: nat)
    requires 45 <= i <= 48
    ensures TextOk(Text(i).0, Text(i).1)
  {
  }

  lemma TextsOk12(i: nat)
    requires 49 <= i <= 52
    ensures TextOk(Text(i).0, Text(i).1)
  {
  }

  lemma TextsOk13(i: nat)
    requires 53 <= i <= 56
    ensures TextOk(Text(i).0, Text(i).1)
  {
  }

  lemma TextsOk14(i: nat)
    requires 57 <= i <= 60
    ensures TextOk(Text(i).0, Text(i).1)
  {
  }

  lemma TextsOk15(i: nat)
    requires 61 <= i <= 61
    ensures TextOk(Text(i).0, Text(i).1)
  {
  }

  lemma TextsOk(i: nat)
    requires 1 <= i <= STATIC
    ensures TextOk(Text(i).0, Text(i).1)
  {
    hide Text; hide TextOk;
    if i <= 4 { TextsOk0(i); }
    else if i <= 8 { TextsOk1(i); }
    else if i <= 12 { TextsOk2(i); }
    else if i <= 16 { TextsOk3(i); }
    else if i <= 20 { TextsOk4(i); }
    else if i <= 24 { TextsOk5(i); }
    else if i <= 28 { TextsOk6(i); }
    else if i <= 32 { TextsOk7(i); }
    else if i <= 36 { TextsOk8(i); }
    else if i <= 40 { TextsOk9(i); }
    else if i <= 44 { TextsOk10(i); }
    else if i <= 48 { TextsOk11(i); }
    else if i <= 52 { TextsOk12(i); }
    else if i <= 56 { TextsOk13(i); }
    else if i <= 60 { TextsOk14(i); }
    else { TextsOk15(i); }
  }

  /** An entry of ASCII strings. */
  function E(nam: string, val: string): (e: Entry)
    requires TextOk(nam, val)
    ensures Good(e)
  {
    NameIsToken(nam);
    ValueIsOk(val);
    Entry(Ascii(nam), Ascii(val))
  }

  lemma NameIsToken(nam: string)
    requires |nam| > 0 && (Pseudo(nam) || forall i :: 0 <= i < |nam| ==> NameLetter(nam[i]))
    ensures forall i :: 0 <= i < |nam| ==> nam[i] < '\U{0080}'
    ensures |Ascii(nam)| > 0 && Token(Ascii(nam)) == OK
  {
    if !Pseudo(nam) {
      hide IsPseudo;
      forall i | 0 <= i < |nam|
        ensures nam[i] < '\U{0080}' && TokenChar(nam[i] as int)
      {
        assert NameLetter(nam[i]);
      }
      assert Ascii(nam)[0] != ':' as int;
      forall c | c in Ascii(nam)
        ensures TokenChar(c)
      {
        var i :| 0 <= i < |nam| && c == nam[i] as int;
      }
    }
  }

  lemma ValueIsOk(val: string)
    requires forall i :: 0 <= i < |val| ==> Printable(val[i])
    ensures forall i :: 0 <= i < |val| ==> val[i] < '\U{0080}'
    ensures ValueOk(Ascii(val))
  {
    forall i | 0 <= i < |val|
      ensures val[i] < '\U{0080}' && ValueChar(val[i] as int)
    {
      assert Printable(val[i]);
    }
    forall c | c in Ascii(val)
      ensures ValueChar(c)
    {
      var i :| 0 <= i < |val| && c == val[i] as int;
    }
  }

  function At(i: nat): (e: Entry)
    requires 1 <= i <= STATIC
    ensures Good(e)
  {
    TextsOk(i);
    E(Text(i).0, Text(i).1)
  }

  /** `hpt_static` */
  function Entries(): (es: seq<Entry>)
    ensures |es| == STATIC && (forall i :: 1 <= i <= STATIC ==> es[i - 1] == At(i)) && AllGood(es)
  {
    hide Good; hide At;
    seq(STATIC, k requires 0 <= k < STATIC => At(k + 1))
  }

  /** What the library is built with: the code of RFC 7541 and its static table. */
  function Library(): Env {
    Env(Rfc7541(), Entries())
  }

  lemma LibraryIsWf()
    ensures WfEnv(Library())
  {
    Rfc7541IsCode();
    hide AllGood; hide WfCode; hide Rfc7541;
  }

  // ---- the sorted list ----

  /** The index of the entry at a place of the sorted list. */
  function Order(k: nat): (i: nat)
    requires k < STATIC
    ensures 1 <= i <= STATIC
  {
    match k
    case 0 => 21 case 1 => 60 case 2 => 33 case 3 => 34 case 4 => 37 case 5 => 38 case 6 => 45 case 7 => 59
    case 8 => 4 case 9 => 5 case 10 => 22 case 11 => 50 case 12 => 19 case 13 => 32 case 14 => 35 case 15 => 54
    case 16 => 2 case 17 => 3 case 18 => 6 case 19 => 7 case 20 => 8 case 21 => 9 case 22 => 10 case 23 => 11
    case 24 => 12 case 25 => 13 case 26 => 14 case 27 => 36 case 28 => 51 case 29 => 52 case 30 => 39
    case 31 => 42 case 32 => 46 case 33 => 1 case 34 => 55 case 35 => 58 case 36 => 53 case 37 => 31
    case 38 => 47 case 39 => 18 case 40 => 23 case 41 => 24 case 42 => 30 case 43 => 41 case 44 => 44
    case 45 => 15 case 46 => 28 case 47 => 16 case 48 => 17 case 49 => 26 case 50 => 27 case 51 => 29
    case 52 => 61 case 53 => 40 case 54 => 57 case 55 => 48 case 56 => 25 case 57 => 43 case 58 => 49
    case 59 => 56 case _ => 20
  }

  /** The place of an entry in the sorted list. */
  function Rank(i: nat): (k: nat)
    requires 1 <= i <= STATIC
    ensures k < STATIC && Order(k) == i
  {
    match i
    case 1 => 33 case 2 => 16 case 3 => 17 case 4 => 8 case 5 => 9 case 6 => 18 case 7 => 19 case 8 => 20
    case 9 => 21 case 10 => 22 case 11 => 23 case 12 => 24 case 13 => 25 case 14 => 26 case 15 => 45
    case 16 => 47 case 17 => 48 case 18 => 39 case 19 => 12 case 20 => 60 case 21 => 0 case 22 => 10
    case 23 => 40 case 24 => 41 case 25 => 56 case 26 => 49 case 27 => 50 case 28 => 46 case 29 => 51
    case 30 => 42 case 31 => 37 case 32 => 13 case 33 => 2 case 34 => 3 case 35 => 14 case 36 => 27 case 37 => 4
    case 38 => 5 case 39 => 30 case 40 => 53 case 41 => 43 case 42 => 31 case 43 => 57 case 44 => 44
    case 45 => 6 case 46 => 32 case 47 => 38 case 48 => 55 case 49 => 58 case 50 => 11 case 51 => 28
    case 52 => 29 case 53 => 36 case 54 => 15 case 55 => 34 case 56 => 59 case 57 => 54 case 58 => 35
    case 59 => 7 case 60 => 1 case _ => 52
  }

  /** `hpack_static_hdr` */
  function HdrOf(i: nat): Hdr
    requires 1 <= i <= STATIC
  {
    Hdr(At(i).nam, At(i).val, i)
  }

  function Hdrs(): (h: seq<Hdr>)
    ensures |h| == STATIC && forall k :: 0 <= k < STATIC ==> h[k] == HdrOf(Order(k))
  {
    hide HdrOf; hide Order;
    seq(STATIC, k requires 0 <= k < STATIC => HdrOf(Order(k)))
  }

  /** The first difference decides. */
  lemma {:induction false} StrcmpAt(a: seq<byte>, b: seq<byte>, p: nat)
    requires p < |a| && p < |b| && a[..p] == b[..p] && a[p] < b[p]
    ensures Strcmp(a, b) < 0
  {
    if p > 0 {
      assert a[0] == a[..p][0] == b[..p][0] == b[0];
      assert a[1..][..p - 1] == a[..p][1..] && b[1..][..p - 1] == b[..p][1..];
      StrcmpAt(a[1..], b[1..], p - 1);
    }
  }

  lemma AsciiAt(a: string, b: string, p: nat)
    requires |a| == |b| && p < |a| && a[..p] == b[..p] && a[p] < b[p]
    requires forall i :: 0 <= i < |a| ==> a[i] < '\U{0080}' && b[i] < '\U{0080}'
    ensures NameOrder(Ascii(a), Ascii(b)) < 0
  {
    var x, y := Ascii(a), Ascii(b);
    forall i | 0 <= i < p
      ensures x[i] == y[i]
    {
      assert a[i] == a[..p][i] == b[..p][i] == b[i];
    }
    StrcmpAt(x, y, p);
  }

  lemma TextAt(i: nat)
    requires 1 <= i <= STATIC
    ensures var t := Text(i);
            && (forall k :: 0 <= k < |t.0| ==> t.0[k] < '\U{0080}') && (forall k :: 0 <= k < |t.1| ==> t.1[k] < '\U{0080}')
            && At(i) == Entry(Ascii(t.0), Ascii(t.1)) && |t.0| < 0x1_0000 && |t.1| < 0x1_0000
  {
    TextsOk(i);
    NameIsToken(Text(i).0);
    ValueIsOk(Text(i).1);
    hide Text; hide Ascii;
  }

  lemma ByLength(i: nat, j: nat)
    requires 1 <= i <= STATIC && 1 <= j <= STATIC && |Text(i).0| < |Text(j).0|
    ensures Before(HdrOf(i), HdrOf(j))
  {
    TextAt(i);
    TextAt(j);
    hide Text; hide At;
  }

  lemma ByName(i: nat, j: nat, p: nat)
    requires 1 <= i <= STATIC && 1 <= j <= STATIC
    requires var a, b := Text(i).0, Text(j).0; |a| == |b| && p < |a| && a[..p] == b[..p] && a[p] < b[p]
    ensures Before(HdrOf(i), HdrOf(j))
  {
    TextAt(i);
    TextAt(j);
    hide Text; hide At; hide NameOrder;
    AsciiAt(Text(i).0, Text(j).0, p);
  }

  lemma ByValueLength(i: nat, j: nat)
    requires 1 <= i <= STATIC && 1 <= j <= STATIC && Text(i).0 == Text(j).0 && |Text(i).1| < |Text(j).1|
    ensures Before(HdrOf(i), HdrOf(j))
  {
    TextAt(i);
    TextAt(j);
    hide Text; hide At;
  }

  lemma ByValue(i: nat, j: nat, p: nat)
    requires 1 <= i <= STATIC && 1 <= j <= STATIC && Text(i).0 == Text(j).0
    requires var a, b := Text(i).1, Text(j).1; |a| == |b| && p < |a| && a[..p] == b[..p] && a[p] < b[p]
    ensures Before(HdrOf(i), HdrOf(j))
  {
    TextAt(i);
    TextAt(j);
    hide Text; hide At; hide NameOrder;
    AsciiAt(Text(i).1, Text(j).1, p);
  }

  lemma Sorted0(k: nat)
    requires 0 <= k < 4
    ensures Before(HdrOf(Order(k)), HdrOf(Order(k + 1)))
  {
    hide HdrOf; hide Before;
    match k
    case 0 => ByName(21, 60, 0); case 1 => ByLength(60, 33); case 2 => ByName(33, 34, 0);
    case _ => ByName(34, 37, 0);
  }

  lemma Sorted1(k: nat)
    requires 4 <= k < 8
    ensures Before(HdrOf(Order(k)), HdrOf(Order(k + 1)))
  {
    hide HdrOf; hide Before;
    match k
    case 4 => ByName(37, 38, 0); case 5 => ByName(38, 45, 0); case 6 => ByName(45, 59, 0);
    case _ => ByLength(59, 4);
  }

  lemma Sorted2(k: nat)
    requires 8 <= k < 12
    ensures Before(HdrOf(Order(k)), HdrOf(Order(k + 1)))
  {
    hide HdrOf; hide Before;
    match k
    case 8 => ByValueLength(4, 5); case 9 => ByName(5, 22, 0); case 10 => ByName(22, 50, 0);
    case _ => ByLength(50, 19);
  }

  lemma Sorted3(k: nat)
    requires 12 <= k < 16
    ensures Before(HdrOf(Order(k)), HdrOf(Order(k + 1)))
  {
    hide HdrOf; hide Before;
    match k
    case 12 => ByName(19, 32, 0); case 13 => ByName(32, 35, 0); case 14 => ByName(35, 54, 0);
    case _ => ByLength(54, 2);
  }

  lemma Sorted4(k: nat)
    requires 16 <= k < 20
    ensures Before(HdrOf(Order(k)), HdrOf(Order(k + 1)))
  {
    hide HdrOf; hide Before;
    match k
    case 16 => ByValueLength(2, 3); case 17 => ByName(3, 6, 1); case 18 => ByValueLength(6, 7);
    case _ => ByName(7, 8, 2);
  }

  lemma Sorted5(k: nat)
    requires 20 <= k < 24
    ensures Before(HdrOf(Order(k)), HdrOf(Order(k + 1)))
  {
    hide HdrOf; hide Before;
    match k
    case 20 => ByValue(8, 9, 2); case 21 => ByValue(9, 10, 2); case 22 => ByValue(10, 11, 0);
    case _ => ByValue(11, 12, 0);
  }

  lemma Sorted6(k: nat)
    requires 24 <= k < 28
    ensures Before(HdrOf(Order(k)), HdrOf(Order(k + 1)))
  {
    hide HdrOf; hide Before;
    match k
    case 24 => ByValue(12, 13, 2); case 25 => ByValue(13, 14, 0); case 26 => ByName(14, 36, 0);
    case _ => ByName(36, 51, 0);
  }

  lemma Sorted7(k: nat)
    requires 28 <= k < 32
    ensures Before(HdrOf(Order(k)), HdrOf(Order(k + 1)))
  {
    hide HdrOf; hide Before;
    match k
    case 28 => ByName(51, 52, 3); case 29 => ByLength(52, 39); case 30 => ByName(39, 42, 3);
    case _ => ByName(42, 46, 0);
  }

  lemma Sorted8(k: nat)
    requires 32 <= k < 36
    ensures Before(HdrOf(Order(k)), HdrOf(Order(k + 1)))
  {
    hide HdrOf; hide Before;
    match k
    case 32 => ByLength(46, 1); case 33 => ByName(1, 55, 0); case 34 => ByName(55, 58, 0);
    case _ => ByLength(58, 53);
  }

  lemma Sorted9(k: nat)
    requires 36 <= k < 40
    ensures Before(HdrOf(Order(k)), HdrOf(Order(k + 1)))
  {
    hide HdrOf; hide Before;
    match k
    case 36 => ByLength(53, 31); case 37 => ByName(31, 47, 0); case 38 => ByLength(47, 18);
    case _ => ByName(18, 23, 1);
  }

  lemma Sorted10(k: nat)
    requires 40 <= k < 44
    ensures Before(HdrOf(Order(k)), HdrOf(Order(k + 1)))
  {
    hide HdrOf; hide Before;
    match k
    case 40 => ByName(23, 24, 0); case 41 => ByName(24, 30, 1); case 42 => ByName(30, 41, 0);
    case _ => ByName(41, 44, 0);
  }

  lemma Sorted11(k: nat)
    requires 44 <= k < 48
    ensures Before(HdrOf(Order(k)), HdrOf(Order(k + 1)))
  {
    hide HdrOf; hide Before;
    match k
    case 44 => ByLength(44, 15); case 45 => ByName(15, 28, 0); case 46 => ByLength(28, 16);
    case _ => ByName(16, 17, 7);
  }

  lemma Sorted12(k: nat)
    requires 48 <= k < 52
    ensures Before(HdrOf(Order(k)), HdrOf(Order(k + 1)))
  {
    hide HdrOf; hide Before;
    match k
    case 48 => ByLength(17, 26); case 49 => ByName(26, 27, 8); case 50 => ByName(27, 29, 9);
    case _ => ByName(29, 61, 0);
  }

  lemma Sorted13(k: nat)
    requires 52 <= k < 56
    ensures Before(HdrOf(Order(k)), HdrOf(Order(k + 1)))
  {
    hide HdrOf; hide Before;
    match k
    case 52 => ByLength(61, 40); case 53 => ByName(40, 57, 0); case 54 => ByLength(57, 48);
    case _ => ByLength(48, 25);
  }

  lemma Sorted14(k: nat)
    requires 56 <= k < 60
    ensures Before(HdrOf(Order(k)), HdrOf(Order(k + 1)))
  {
    hide HdrOf; hide Before;
    match k
    case 56 => ByName(25, 43, 0); case 57 => ByName(43, 49, 0); case 58 => ByLength(49, 56);
    case _ => ByLength(56, 20);
  }

  lemma SortedNext(k: nat)
    requires k < 60
    ensures Before(HdrOf(Order(k)), HdrOf(Order(k + 1)))
  {
    hide HdrOf; hide Before; hide Order;
    if k < 4 { Sorted0(k); }
    else if k < 8 { Sorted1(k); }
    else if k < 12 { Sorted2(k); }
    else if k < 16 { Sorted3(k); }
    else if k < 20 { Sorted4(k); }
    else if k < 24 { Sorted5(k); }
    else if k < 28 { Sorted6(k); }
    else if k < 32 { Sorted7(k); }
    else if k < 36 { Sorted8(k); }
    else if k < 40 { Sorted9(k); }
    else if k < 44 { Sorted10(k); }
    else if k < 48 { Sorted11(k); }
    else if k < 52 { Sorted12(k); }
    else if k < 56 { Sorted13(k); }
    else { Sorted14(k); }
  }

  lemma {:induction false} SortedAll(j: nat, k: nat)
    requires j < k < STATIC
    ensures Before(HdrOf(Order(j)), HdrOf(Order(k)))
  {
    hide HdrOf; hide Before; hide Order;
    SortedNext(k - 1);
    if j < k - 1 {
      SortedAll(j, k - 1);
      BeforeThen(HdrOf(Order(j)), HdrOf(Order(k - 1)), HdrOf(Order(k)));
    }
  }

  lemma Lengths(i: nat)
    requires 1 <= i <= STATIC
    ensures |At(i).nam| < 0x1_0000 && |At(i).val| < 0x1_0000
  {
    TextAt(i);
    hide Text; hide At;
  }

  /** The library searches the list that sorting its static table gives, and there is no other one. */
  lemma LibraryHdrs(hdrs: seq<Hdr>)
    ensures WfHdrs(Entries(), hdrs) <==> hdrs == Hdrs()
  {
    hide At; hide Order; hide Rank; hide Before; hide Text;
    var stat, h := Entries(), Hdrs();
    forall k | 0 <= k < STATIC
      ensures var x := h[k]; 0 < x.idx <= STATIC && stat[x.idx - 1] == Entry(x.nam, x.val) && |x.nam| < 0x1_0000 && |x.val| < 0x1_0000
    {
      Lengths(Order(k));
    }
    forall e | e in stat
      ensures exists k :: 0 <= k < |h| && Entry(h[k].nam, h[k].val) == e
    {
      var i :| 0 <= i < STATIC && stat[i] == e;
      assert At(i + 1) == e && h[Rank(i + 1)] == HdrOf(i + 1);
    }
    forall j, k | 0 <= j < k < STATIC
      ensures Before(h[j], h[k])
    {
      SortedAll(j, k);
    }
    assert WfHdrs(stat, h);
    if WfHdrs(stat, hdrs) {
      SameOrder(stat, hdrs, h, STATIC);
      forall k | 0 <= k < STATIC
        ensures hdrs[k] == h[k]
      {
        AtInjective(hdrs[k].idx, h[k].idx);
      }
    }
  }

  /** No two entries are equal. */
  lemma AtInjective(i: nat, j: nat)
    requires 1 <= i <= STATIC && 1 <= j <= STATIC && At(i) == At(j)
    ensures i == j
  {
    hide At; hide Order; hide Rank; hide Before; hide Text;
    var m, n := Rank(i), Rank(j);
    if m < n { SortedAll(m, n); NotBefore(HdrOf(i), HdrOf(j)); }
    if n < m { SortedAll(n, m); NotBefore(HdrOf(j), HdrOf(i)); }
  }
}
