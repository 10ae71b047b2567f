/**
 Data identifiers of DL/T 645 (`parseDi` in src/DLT645/DLT645PointTable.cc): eight hexadecimal digits
 that stand for four octets, sent low octet first. The point table tells identifiers apart by their
 text; this says what that means for the octets.
 */
module DataIdentifiers {
  import opened Wrappers
  import opened Bytes
  import opened PointTable

  function HexValue(c: char): (v: nat)
    requires IsHexChar(c)
    ensures v < 16
  {
    if '0' <= c <= '9' then c as nat - '0' as nat
    else if 'a' <= c <= 'f' then c as nat - 'a' as nat + 10
    else c as nat - 'A' as nat + 10
  }

  /** Octet `i` of the text, counted from its end. */
  function OctetAt(di: string, i: nat): byte
    requires ValidDi(di) && i < 4
  {
    (16 * HexValue(di[6 - 2 * i]) + HexValue(di[7 - 2 * i])) as byte
  }

  function Octets(di: string): (r: seq<byte>)
    requires ValidDi(di)
    ensures |r| == 4 && forall i :: 0 <= i < 4 ==> r[i] == OctetAt(di, i)
  {
    seq(4, i requires 0 <= i < 4 => OctetAt(di, i))
  }

  /** Parses the octets from the front and turns them round. */
  method ParseDi(di: string) returns (r: Option<seq<byte>>)
    ensures r == if ValidDi(di) then Some(Octets(di)) else None
  {
    if |di| != 8 {
      return None;
    }
    var out: seq<byte> := [];
    for i := 0 to 4
      invariant forall k :: 0 <= k < 2 * i ==> IsHexChar(di[k])
      invariant |out| == i
      invariant forall k :: 0 <= k < i ==> out[k] as int == 16 * HexValue(di[2 * k]) + HexValue(di[2 * k + 1])
    {
      if !IsHexChar(di[2 * i]) || !IsHexChar(di[2 * i + 1]) {
        return None;
      }
      out := out + [(16 * HexValue(di[2 * i]) + HexValue(di[2 * i + 1])) as byte];
    }
    assert ValidDi(di);
    var reversed := [out[3], out[2], out[1], out[0]];
    assert reversed == Octets(di);
    return Some(reversed);
  }

  /** The last two digits come first. */
  lemma LowOctetFirst()
    ensures ValidDi("04a0B1F9") && Octets("04a0B1F9") == [0xF9, 0xB1, 0xA0, 0x04]
  {
    var di := "04a0B1F9";
    assert OctetAt(di, 0) == 0xF9 && OctetAt(di, 1) == 0xB1 && OctetAt(di, 2) == 0xA0 && OctetAt(di, 3) == 0x04;
  }

  // ---------- spellings ----------

  function Lower(c: char): char {
    if 'A' <= c <= 'F' then (c as int - 'A' as int + 'a' as int) as char else c
  }

  /** The same text up to upper and lower case. */
  predicate SameSpelling(a: string, b: string) {
    |a| == |b| && forall k :: 0 <= k < |a| ==> Lower(a[k]) == Lower(b[k])
  }

  lemma SameDigit(c: char, d: char)
    requires IsHexChar(c) && IsHexChar(d)
    ensures HexValue(c) == HexValue(d) <==> Lower(c) == Lower(d)
  {
  }

  lemma SameOctet(a: string, b: string, i: nat)
    requires ValidDi(a) && ValidDi(b) && i < 4
    ensures OctetAt(a, i) == OctetAt(b, i) <==>
              Lower(a[6 - 2 * i]) == Lower(b[6 - 2 * i]) && Lower(a[7 - 2 * i]) == Lower(b[7 - 2 * i])
  {
    SameDigit(a[6 - 2 * i], b[6 - 2 * i]);
    SameDigit(a[7 - 2 * i], b[7 - 2 * i]);
  }

  /** Two identifiers stand for the same octets exactly if they differ in upper and lower case only. */
  lemma SameOctetsIff(a: string, b: string)
    requires ValidDi(a) && ValidDi(b)
    ensures Octets(a) == Octets(b) <==> SameSpelling(a, b)
  {
    forall i: nat | i < 4
      ensures Octets(a)[i] == Octets(b)[i] <==>
                Lower(a[6 - 2 * i]) == Lower(b[6 - 2 * i]) && Lower(a[7 - 2 * i]) == Lower(b[7 - 2 * i])
    {
      SameOctet(a, b, i);
    }
    if Octets(a) == Octets(b) {
      forall k | 0 <= k < 8 ensures Lower(a[k]) == Lower(b[k]) {
        var i := (7 - k) / 2;
        assert Octets(a)[i] == Octets(b)[i] && (k == 6 - 2 * i || k == 7 - 2 * i);
      }
    }
  }

  // ---------- the table ----------

  /** Points of one data identifier on the wire are different bits of values of one length. */
  ghost predicate OctetsApart(t: Table) {
    forall a, b :: SameOctets(t, a, b) && a != b ==> Compatible(t.byTag[a].def, t.byTag[b].def)
  }

  predicate SameOctets(t: Table, a: string, b: string) {
    && a in t.byTag && b in t.byTag && ValidDi(t.byTag[a].di) && ValidDi(t.byTag[b].di)
    && Octets(t.byTag[a].di) == Octets(t.byTag[b].di)
  }

  /** Two points spell one data identifier differently. */
  predicate Respelled(t: Table, a: string, b: string) {
    a in t.byTag && b in t.byTag && t.byTag[a].di != t.byTag[b].di && SameSpelling(t.byTag[a].di, t.byTag[b].di)
  }

  /** The table only sees that for one spelling: it holds for the octets exactly if it holds for the points
      that spell an identifier differently. */
  lemma OctetsApartIff(t: Table)
    requires Inv(t)
    ensures OctetsApart(t) <==> forall a, b :: Respelled(t, a, b) ==> Compatible(t.byTag[a].def, t.byTag[b].def)
  {
    assert Holds(t, Bits) && Holds(t, Indexes);
    forall a, b | a in t.byTag && b in t.byTag
      ensures SameOctets(t, a, b) <==> Respelled(t, a, b) || t.byTag[a].di == t.byTag[b].di
    {
      SameOctetsIff(t.byTag[a].di, t.byTag[b].di);
    }
  }

  /** Another point of the table spells the identifier of `p` differently. */
  predicate RespelledBy(t: Table, p: PointRequest, tag: string) {
    tag in t.byTag && tag != p.tag && t.byTag[tag].di != p.di && SameSpelling(t.byTag[tag].di, p.di)
  }

  /** Inserting a point keeps it for the octets exactly if the points that spell the identifier of the new one
      differently are compatible with it; in particular if there are none. */
  lemma InsertKeepsOctetsApart(t: Table, p: PointRequest)
    requires Inv(t) && OctetsApart(t) && ValidPoint(p) && CanInsertPoint(t, p)
    ensures OctetsApart(InsertPoint(t, p)) <==>
              forall tag :: RespelledBy(t, p, tag) ==> Compatible(t.byTag[tag].def, Define(p.fields))
  {
    var u := InsertPoint(t, p);
    InsertPointKeepsInv(t, p);
    OctetsApartIff(t);
    OctetsApartIff(u);
    forall a, b | Respelled(u, a, b) && a != p.tag && b != p.tag ensures Respelled(t, a, b) {
    }
    forall tag | RespelledBy(t, p, tag) ensures Respelled(u, tag, p.tag) {
    }
    forall tag | tag in t.byTag && (Respelled(u, tag, p.tag) || Respelled(u, p.tag, tag))
      ensures RespelledBy(t, p, tag) {
    }
  }

  function Plain(tag: string, di: string): PointRequest {
    PointRequest(tag, di, Fields(2, Uint16, ReadOnly, Some(1), Some(0), Some(0), None, None))
  }

  /** The table of two plain points with different texts. */
  function Pair(p: PointRequest, q: PointRequest): Table
    requires ValidPoint(p) && ValidPoint(q)
  {
    InsertPoint(InsertPoint(Empty, p), q)
  }

  lemma PairIsAccepted(p: PointRequest, q: PointRequest)
    requires ValidPoint(p) && ValidPoint(q) && p.tag != q.tag && p.di != q.di
    ensures Upserted(Empty, [p, q], [], true) == (true, Pair(p, q)) && Inv(Pair(p, q))
  {
    var points := [p, q];
    assert points[..1] == [p] && [p][..0] == [];
    var one := InsertPoint(Empty, p);
    assert AddPoints(Empty, [p]) == (true, one);
    assert AddPoints(Empty, points) == (true, InsertPoint(one, q));
    UpsertKeepsInv(Empty, points, [], true);
  }

  /** Two points of one data identifier that are no bits are accepted if they spell it differently. */
  lemma TwoSpellingsAreAccepted()
    ensures var (ok, t) := Upserted(Empty, [Plain("a", "00AA0000"), Plain("b", "00aa0000")], [], true);
            && ok && Inv(t) && "a" in t.byTag && "b" in t.byTag
            && Octets("00AA0000") == Octets("00aa0000") && !OctetsApart(t)
  {
    var p, q := Plain("a", "00AA0000"), Plain("b", "00aa0000");
    assert ValidPoint(p) && ValidPoint(q);
    PairIsAccepted(p, q);
    assert SameSpelling(p.di, q.di);
    SameOctetsIff(p.di, q.di);
    var t := Pair(p, q);
    assert SameOctets(t, "a", "b") && !Compatible(t.byTag["a"].def, t.byTag["b"].def);
  }
}
