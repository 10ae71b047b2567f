/**
 The sanitizer of native route snapshots (`sanitize_route_snapshot` in
 script/network/networkd_policy.py): nested length-prefixed records, edited in place.

 `Accepted` says which byte strings are well-formed snapshots and `IsFlag` which of their bytes
 hold the status bits of a message or of a next hop. The byte order of the host is a parameter.
 */
module RouteSnapshot {
  import opened Arithmetic
  import opened Bytes
  import opened Wrappers

  datatype ByteOrder = Little | Big

  const MAGIC := 0x45311224
  const HEADER := 28
  const MAX_MESSAGE := 16384
  const RTM_NEWROUTE := 24
  const AF_INET: byte := 2
  const RTA_MULTIPATH := 9

  function Half(order: ByteOrder, a: byte, b: byte): (r: nat)
    ensures r < 0x1_0000
  {
    if order == Little then a as nat + 256 * b as nat else 256 * a as nat + b as nat
  }

  function Get16(order: ByteOrder, d: seq<byte>, i: nat): (r: nat)
    requires i + 2 <= |d|
    ensures r < 0x1_0000
  {
    Half(order, d[i], d[i + 1])
  }

  function Get32(order: ByteOrder, d: seq<byte>, i: nat): (r: nat)
    requires i + 4 <= |d|
  {
    var a, b := Get16(order, d, i), Get16(order, d, i + 2);
    if order == Little then a + 0x1_0000 * b else 0x1_0000 * a + b
  }

  function Align(n: nat): (r: nat)
    ensures n <= r < n + 4 && r % 4 == 0
  {
    (n + 3) / 4 * 4
  }

  /** Clears bits 0x01 and 0x10: keeps the three bits on top and the three between. */
  function ClearStatus(b: byte): (r: byte)
    ensures r % 2 == 0 && r / 16 % 2 == 0
    ensures b % 2 == 0 && b / 16 % 2 == 0 ==> r == b
    ensures r / 2 % 8 == b / 2 % 8 && r / 32 == b / 32
  {
    var x := b as int;
    UnsetBits(x);
    ClearedBits(x);
    (x / 32 * 32 + x / 2 % 8 * 2) as byte
  }

  lemma ClearedBits(x: int)
    requires 0 <= x < 256
    ensures var r := x / 32 * 32 + x / 2 % 8 * 2;
            0 <= r < 256 && r % 2 == 0 && r / 16 % 2 == 0 && r / 2 % 8 == x / 2 % 8 && r / 32 == x / 32
  {
    var g, m := x / 32, x / 2 % 8;
    var r := g * 32 + m * 2;
    DivMod(r, 2, g * 16 + m, 0);
    DivMod(r, 16, g * 2, m * 2);
    DivMod(g * 16 + m, 8, g * 2, m);
    DivMod(r, 32, g, m * 2);
  }

  lemma UnsetBits(x: int)
    requires 0 <= x < 256
    ensures x % 2 == 0 && x / 16 % 2 == 0 ==> x / 32 * 32 + x / 2 % 8 * 2 == x
  {
    if x % 2 == 0 && x / 16 % 2 == 0 {
      var g, l := x / 16 / 2, x % 16;
      assert x == 32 * g + l;
      DivMod(x, 32, g, l);
      DivMod(x, 2, g * 16 + l / 2, l % 2);
      DivMod(g * 16 + l / 2, 8, g * 2, l / 2);
    }
  }

  // ---------- well-formed snapshots ----------

  /** The record at `start` has at least `least` bytes and, padded, ends by `end`. */
  predicate Fits(order: ByteOrder, d: seq<byte>, start: nat, end: nat, least: nat)
    requires start <= end <= |d| && least >= 2
  {
    && end - start >= least
    && Get16(order, d, start) >= least
    && start + Align(Get16(order, d, start)) <= end
  }

  /** Where the record at `start` ends, padding included. */
  function After(order: ByteOrder, d: seq<byte>, start: nat): (r: nat)
    requires start + 2 <= |d|
    ensures r >= start + Get16(order, d, start)
  {
    start + Align(Get16(order, d, start))
  }

  /** The kind of an attribute, without the nested and byte-order bits, says multipath. */
  predicate IsMultipath(order: ByteOrder, d: seq<byte>, start: nat)
    requires start + 4 <= |d|
  {
    Get16(order, d, start + 2) % 0x4000 == RTA_MULTIPATH
  }

  /** Attributes tile [start, end). */
  predicate PlainOk(order: ByteOrder, d: seq<byte>, start: nat, end: nat)
    requires start <= end <= |d|
    decreases end - start
  {
    start == end || (Fits(order, d, start, end, 4) && PlainOk(order, d, After(order, d, start), end))
  }

  predicate HopOk(order: ByteOrder, d: seq<byte>, hop: nat, limit: nat)
    requires hop <= limit <= |d|
  {
    Fits(order, d, hop, limit, 8) && PlainOk(order, d, hop + 8, hop + Get16(order, d, hop))
  }

  /** Next hops, each with its own attributes, tile [hop, limit). */
  predicate HopsOk(order: ByteOrder, d: seq<byte>, hop: nat, limit: nat)
    requires hop <= limit <= |d|
    decreases limit - hop
  {
    hop == limit || (HopOk(order, d, hop, limit) && HopsOk(order, d, After(order, d, hop), limit))
  }

  /** The body of a multipath attribute is a non-empty run of next hops. */
  predicate BodyOk(order: ByteOrder, d: seq<byte>, start: nat, end: nat)
    requires start <= end <= |d| && Fits(order, d, start, end, 4)
  {
    IsMultipath(order, d, start) ==>
      Get16(order, d, start) != 4 && HopsOk(order, d, start + 4, start + Get16(order, d, start))
  }

  /** Attributes tile [start, end) and the multipath ones are sound. */
  predicate AttributesOk(order: ByteOrder, d: seq<byte>, start: nat, end: nat)
    requires start <= end <= |d|
    decreases end - start
  {
    start == end ||
    (Fits(order, d, start, end, 4) && BodyOk(order, d, start, end) &&
        AttributesOk(order, d, After(order, d, start), end))
  }

  function MessageLength(order: ByteOrder, d: seq<byte>, offset: nat): nat
    requires offset + 4 <= |d|
  {
    Get32(order, d, offset)
  }

  predicate HeaderOk(order: ByteOrder, d: seq<byte>, offset: nat)
    requires offset <= |d|
  {
    && |d| - offset >= HEADER
    && HEADER <= MessageLength(order, d, offset) <= MAX_MESSAGE
    && Get16(order, d, offset + 4) == RTM_NEWROUTE
    && offset + Align(MessageLength(order, d, offset)) <= |d|
    && d[offset + 16] == AF_INET
  }

  function NextMessage(order: ByteOrder, d: seq<byte>, offset: nat): (r: nat)
    requires offset + 4 <= |d|
    ensures r >= offset + MessageLength(order, d, offset)
  {
    offset + Align(MessageLength(order, d, offset))
  }

  predicate MessageOk(order: ByteOrder, d: seq<byte>, offset: nat)
    requires offset <= |d|
  {
    HeaderOk(order, d, offset) && AttributesOk(order, d, offset + HEADER, offset + MessageLength(order, d, offset))
  }

  predicate MessagesOk(order: ByteOrder, d: seq<byte>, offset: nat)
    requires offset <= |d|
    decreases |d| - offset
  {
    offset == |d| || (MessageOk(order, d, offset) && MessagesOk(order, d, NextMessage(order, d, offset)))
  }

  predicate Accepted(order: ByteOrder, d: seq<byte>) {
    |d| >= 4 && Get32(order, d, 0) == MAGIC && MessagesOk(order, d, 4)
  }

  // ---------- flag bytes ----------

  /** Byte `i` is the flag byte of a next hop of [from, limit). */
  predicate HopFlag(order: ByteOrder, d: seq<byte>, from: nat, limit: nat, i: nat)
    requires from <= limit <= |d|
    ensures HopFlag(order, d, from, limit, i) ==> from + 2 <= i < limit
    decreases limit - from
  {
    Fits(order, d, from, limit, 8) && (i == from + 2 || HopFlag(order, d, After(order, d, from), limit, i))
  }

  /** Byte `i` is the flag byte of a next hop of a multipath attribute of [from, end). */
  predicate AttributeFlag(order: ByteOrder, d: seq<byte>, from: nat, end: nat, i: nat)
    requires from <= end <= |d|
    ensures AttributeFlag(order, d, from, end, i) ==> from + 4 <= i < end
    decreases end - from
  {
    && Fits(order, d, from, end, 4)
    && (|| (IsMultipath(order, d, from) && HopFlag(order, d, from + 4, from + Get16(order, d, from), i))
        || AttributeFlag(order, d, After(order, d, from), end, i))
  }

  /** The low-order byte of the flag word of the message at `offset`. */
  function FlagByte(order: ByteOrder, offset: nat): nat {
    if order == Little then offset + 24 else offset + 27
  }

  /** Byte `i` holds the status bits of the message at `offset`, or of one of its next hops. */
  predicate OwnFlag(order: ByteOrder, d: seq<byte>, offset: nat, i: nat)
    requires offset <= |d| && HeaderOk(order, d, offset)
    ensures OwnFlag(order, d, offset, i) ==> offset + 24 <= i < NextMessage(order, d, offset)
  {
    i == FlagByte(order, offset) || AttributeFlag(order, d, offset + HEADER, offset + MessageLength(order, d, offset),
                                                  i)
  }

  /** Byte `i` holds the status bits of a message from `from` on, or of one of its next hops. */
  predicate MessageFlag(order: ByteOrder, d: seq<byte>, from: nat, i: nat)
    requires from <= |d|
    ensures MessageFlag(order, d, from, i) ==> from + 24 <= i < |d|
    decreases |d| - from
  {
    HeaderOk(order, d, from) && (OwnFlag(order, d, from, i) || MessageFlag(order, d, NextMessage(order, d, from), i))
  }

  predicate IsFlag(order: ByteOrder, d: seq<byte>, i: nat) {
    |d| >= 4 && MessageFlag(order, d, 4, i)
  }

  /** The snapshot with the status bits of its flag bytes cleared. */
  function Sanitized(order: ByteOrder, d: seq<byte>): (r: seq<byte>)
    ensures |r| == |d|
    ensures forall i :: 0 <= i < |d| ==> r[i] == if IsFlag(order, d, i) then ClearStatus(d[i]) else d[i]
  {
    seq(|d|, i requires 0 <= i < |d| => if IsFlag(order, d, i) then ClearStatus(d[i]) else d[i])
  }

  // ---------- where the flag bytes are ----------

  /** A next hop of [from, limit) starts at `hop`. */
  predicate HopAt(order: ByteOrder, d: seq<byte>, from: nat, limit: nat, hop: nat)
    requires from <= limit <= |d|
    decreases limit - from
  {
    Fits(order, d, from, limit, 8) && (hop == from || HopAt(order, d, After(order, d, from), limit, hop))
  }

  /** An attribute of [from, end) starts at `start`. */
  predicate AttributeAt(order: ByteOrder, d: seq<byte>, from: nat, end: nat, start: nat)
    requires from <= end <= |d|
    ensures AttributeAt(order, d, from, end, start) ==> start <= end && Fits(order, d, start, end, 4)
    decreases end - from
  {
    Fits(order, d, from, end, 4) && (start == from || AttributeAt(order, d, After(order, d, from), end, start))
  }

  /** One of the messages from `from` on starts at `offset`. */
  predicate MessageAt(order: ByteOrder, d: seq<byte>, from: nat, offset: nat)
    requires from <= |d|
    ensures MessageAt(order, d, from, offset) ==> offset <= |d| && HeaderOk(order, d, offset)
    decreases |d| - from
  {
    HeaderOk(order, d, from) && (offset == from || MessageAt(order, d, NextMessage(order, d, from), offset))
  }

  lemma {:induction false} HopFlagWhere(order: ByteOrder, d: seq<byte>, from: nat, limit: nat, i: nat)
    requires from <= limit <= |d|
    ensures HopFlag(order, d, from, limit, i) <==> i >= 2 && HopAt(order, d, from, limit, i - 2)
    decreases limit - from
  {
    if Fits(order, d, from, limit, 8) {
      HopFlagWhere(order, d, After(order, d, from), limit, i);
    }
  }

  /** Byte `i` is at offset 2 of a next hop of the multipath attribute at `start`. */
  predicate InHopOf(order: ByteOrder, d: seq<byte>, start: nat, end: nat, i: nat)
    requires start <= end <= |d| && Fits(order, d, start, end, 4)
  {
    IsMultipath(order, d, start) && i >= 2 && HopAt(order, d, start + 4, start + Get16(order, d, start), i - 2)
  }

  ghost predicate InHop(order: ByteOrder, d: seq<byte>, from: nat, end: nat, i: nat)
    requires from <= end <= |d|
  {
    exists start :: AttributeAt(order, d, from, end, start) && InHopOf(order, d, start, end, i)
  }

  lemma {:induction false} AttributeFlagWhere(order: ByteOrder, d: seq<byte>, from: nat, end: nat, i: nat)
    requires from <= end <= |d|
    ensures AttributeFlag(order, d, from, end, i) <==> InHop(order, d, from, end, i)
    decreases end - from
  {
    if Fits(order, d, from, end, 4) {
      var next := After(order, d, from);
      AttributeFlagWhere(order, d, next, end, i);
      HopFlagWhere(order, d, from + 4, from + Get16(order, d, from), i);
      if InHopOf(order, d, from, end, i) {
        assert AttributeAt(order, d, from, end, from);
      }
      if InHop(order, d, next, end, i) {
        var start :| AttributeAt(order, d, next, end, start) && InHopOf(order, d, start, end, i);
        assert AttributeAt(order, d, from, end, start);
      }
    }
  }

  /** Byte `i` is the low-order byte of the flag word of the message at `offset`, or at offset 2 of a
      next hop in one of its multipath attributes. */
  ghost predicate InMessage(order: ByteOrder, d: seq<byte>, offset: nat, i: nat)
    requires offset <= |d| && HeaderOk(order, d, offset)
  {
    i == FlagByte(order, offset) || InHop(order, d, offset + HEADER, offset + MessageLength(order, d, offset), i)
  }

  ghost predicate InSomeMessage(order: ByteOrder, d: seq<byte>, from: nat, i: nat)
    requires from <= |d|
  {
    exists offset :: MessageAt(order, d, from, offset) && InMessage(order, d, offset, i)
  }

  lemma {:induction false} MessageFlagWhere(order: ByteOrder, d: seq<byte>, from: nat, i: nat)
    requires from <= |d|
    ensures MessageFlag(order, d, from, i) <==> InSomeMessage(order, d, from, i)
    decreases |d| - from
  {
    if HeaderOk(order, d, from) {
      var next := NextMessage(order, d, from);
      MessageFlagWhere(order, d, next, i);
      AttributeFlagWhere(order, d, from + HEADER, from + MessageLength(order, d, from), i);
      if InMessage(order, d, from, i) {
        assert MessageAt(order, d, from, from);
      }
      if InSomeMessage(order, d, next, i) {
        var offset :| MessageAt(order, d, next, offset) && InMessage(order, d, offset, i);
        assert MessageAt(order, d, from, offset);
      }
    }
  }

  lemma ClearStatusDiffers(b: byte)
    ensures b as int - ClearStatus(b) as int == b as int % 2 + b as int / 16 % 2 * 16
  {
    var x := b as int;
    var g, l := x / 32, x % 32;
    DivMod(x, 16, 2 * g + l / 16, l % 16);
    DivMod(2 * g + l / 16, 2, g, l / 16);
    DivMod(x, 2, 16 * g + l / 2, l % 2);
    DivMod(16 * g + l / 2, 8, 2 * g + l / 16, l / 2 % 8);
  }

  /** Of the bytes of a message's flag word, only its flag byte is one. */
  lemma {:induction false} OneFlagByte(order: ByteOrder, d: seq<byte>, from: nat, offset: nat, i: nat)
    requires from <= |d| && MessageAt(order, d, from, offset) && offset + 24 <= i < offset + 28
    ensures from <= offset && (MessageFlag(order, d, from, i) <==> i == FlagByte(order, offset))
    decreases |d| - from
  {
    if offset != from {
      OneFlagByte(order, d, NextMessage(order, d, from), offset, i);
    }
  }

  lemma WordLittle(d: seq<byte>, i: nat)
    requires i + 4 <= |d|
    ensures Get32(Little, d, i) ==
              d[i] as int + 0x100 * d[i + 1] as int + 0x1_0000 * d[i + 2] as int + 0x100_0000 * d[i + 3] as int
  {
  }

  lemma WordBig(d: seq<byte>, i: nat)
    requires i + 4 <= |d|
    ensures Get32(Big, d, i) ==
              0x100_0000 * d[i] as int + 0x1_0000 * d[i + 1] as int + 0x100 * d[i + 2] as int + d[i + 3] as int
  {
  }

  /** `after` is `before` without the bits 0x01 and 0x10. */
  predicate WithoutStatus(before: int, after: int) {
    after % 2 == 0 && after / 16 % 2 == 0 && before - after == before % 2 + before / 16 % 2 * 16
  }

  lemma LowByteDecides(word: int, low: int, high: int, low': int)
    requires word == 256 * high + low && 0 <= low < 256 && 0 <= low' < 256 && WithoutStatus(low, low')
    ensures WithoutStatus(word, 256 * high + low')
  {
    DivMod(word, 2, 128 * high + low / 2, low % 2);
    DivMod(word, 16, 16 * high + low / 16, low % 16);
    DivMod(16 * high + low / 16, 2, 8 * high + low / 16 / 2, low / 16 % 2);
    var word' := 256 * high + low';
    DivMod(word', 2, 128 * high + low' / 2, low' % 2);
    DivMod(word', 16, 16 * high + low' / 16, low' % 16);
    DivMod(16 * high + low' / 16, 2, 8 * high + low' / 16 / 2, low' / 16 % 2);
  }

  lemma ClearedIsWithout(b: byte)
    ensures WithoutStatus(b as int, ClearStatus(b) as int)
  {
    ClearStatusDiffers(b);
  }

  lemma LittleCleared(d: seq<byte>, r: seq<byte>, at: nat)
    requires at + 4 <= |d| == |r| && r[at + 1] == d[at + 1] && r[at + 2] == d[at + 2] && r[at + 3] == d[at + 3]
    requires r[at] == ClearStatus(d[at])
    ensures WithoutStatus(Get32(Little, d, at), Get32(Little, r, at))
  {
    var high := d[at + 1] as int + 0x100 * d[at + 2] as int + 0x1_0000 * d[at + 3] as int;
    assert Get32(Little, d, at) == 256 * high + d[at] as int by { WordLittle(d, at); }
    assert Get32(Little, r, at) == 256 * high + r[at] as int by { WordLittle(r, at); }
    ClearedIsWithout(d[at]);
    LowByteDecides(Get32(Little, d, at), d[at] as int, high, r[at] as int);
  }

  lemma BigCleared(d: seq<byte>, r: seq<byte>, at: nat)
    requires at + 4 <= |d| == |r| && r[at] == d[at] && r[at + 1] == d[at + 1] && r[at + 2] == d[at + 2]
    requires r[at + 3] == ClearStatus(d[at + 3])
    ensures WithoutStatus(Get32(Big, d, at), Get32(Big, r, at))
  {
    var high := 0x1_0000 * d[at] as int + 0x100 * d[at + 1] as int + d[at + 2] as int;
    assert Get32(Big, d, at) == 256 * high + d[at + 3] as int by { WordBig(d, at); }
    assert Get32(Big, r, at) == 256 * high + r[at + 3] as int by { WordBig(r, at); }
    ClearedIsWithout(d[at + 3]);
    LowByteDecides(Get32(Big, d, at), d[at + 3] as int, high, r[at + 3] as int);
  }

  lemma FlagWordBytes(order: ByteOrder, d: seq<byte>, offset: nat, i: nat)
    requires |d| >= 4 && MessageAt(order, d, 4, offset) && offset + 24 <= i < offset + 28
    ensures Sanitized(order, d)[i] == if i == FlagByte(order, offset) then ClearStatus(d[i]) else d[i]
  {
    OneFlagByte(order, d, 4, offset, i);
  }

  /** In the flag word of every message the status bits are cleared and the other bits kept. */
  lemma FlagWordsCleared(order: ByteOrder, d: seq<byte>, offset: nat)
    requires |d| >= 4 && MessageAt(order, d, 4, offset)
    ensures offset + 28 <= |d|
    ensures WithoutStatus(Get32(order, d, offset + 24), Get32(order, Sanitized(order, d), offset + 24))
  {
    var r, at := Sanitized(order, d), offset + 24;
    FlagWordBytes(order, d, offset, at);
    FlagWordBytes(order, d, offset, at + 1);
    FlagWordBytes(order, d, offset, at + 2);
    FlagWordBytes(order, d, offset, at + 3);
    if order == Little {
      LittleCleared(d, r, at);
    } else {
      BigCleared(d, r, at);
    }
  }

  /** What sanitizing changes: a byte differs exactly if it is in the flag word of a message or at offset
      2 of a next hop and has a status bit, and then it loses bits 0x01 and 0x10 and nothing else. */
  lemma SanitizedChanges(order: ByteOrder, d: seq<byte>, i: nat)
    requires i < |d|
    ensures var before, after := d[i] as int, Sanitized(order, d)[i] as int;
            if |d| >= 4 && InSomeMessage(order, d, 4, i) then before - after == before % 2 + before / 16 % 2 * 16
            else after == before
  {
    if |d| >= 4 {
      MessageFlagWhere(order, d, 4, i);
    }
    ClearStatusDiffers(d[i]);
  }

  // ---------- a small snapshot ----------

  /** A little-endian snapshot of one IPv4 route message of 40 bytes, with a multipath attribute of one next
      hop. */
  predicate IsSample(d: seq<byte>) {
    && |d| == 44
    && d[0] == 0x24 && d[1] == 0x12 && d[2] == 0x31 && d[3] == 0x45      // the magic number
    && d[4] == 40 && d[5] == 0 && d[6] == 0 && d[7] == 0                // length
    && d[8] == 24 && d[9] == 0 && d[20] == 2                           // a new route, IPv4
    && d[32] == 12 && d[33] == 0 && d[34] == 9 && d[35] == 0            // an attribute of 12 bytes, multipath
    && d[36] == 8 && d[37] == 0                                       // a next hop of 8 bytes
  }

  lemma SampleAttributes(d: seq<byte>)
    requires IsSample(d)
    ensures AttributesOk(Little, d, 32, 44)
    ensures forall i :: AttributeFlag(Little, d, 32, 44, i) <==> i == 38
  {
    assert Get16(Little, d, 32) == 12 && Get16(Little, d, 34) == 9 && Get16(Little, d, 36) == 8;
    assert After(Little, d, 36) == 44 && After(Little, d, 32) == 44;
    assert PlainOk(Little, d, 44, 44) && HopOk(Little, d, 36, 44) && HopsOk(Little, d, 36, 44);
  }

  lemma SampleMessage(d: seq<byte>)
    requires IsSample(d)
    ensures HeaderOk(Little, d, 4) && MessageLength(Little, d, 4) == 40 && NextMessage(Little, d, 4) == 44
  {
    assert Get16(Little, d, 4) == 40 && Get16(Little, d, 6) == 0 && Get16(Little, d, 8) == 24;
  }

  /** It is accepted, and loses the status bits of its message and of its next hop. */
  lemma SampleSanitized(d: seq<byte>)
    requires IsSample(d)
    ensures Accepted(Little, d)
    ensures Sanitized(Little, d) == d[28 := ClearStatus(d[28])][38 := ClearStatus(d[38])]
  {
    SampleMessage(d);
    SampleAttributes(d);
    assert Get16(Little, d, 0) == 0x1224 && Get16(Little, d, 2) == 0x4531;
    assert MessagesOk(Little, d, 44) && MessagesOk(Little, d, 4);
    assert forall i :: !MessageFlag(Little, d, 44, i);
    assert forall i :: IsFlag(Little, d, i) <==> i == 28 || i == 38;
  }

  // ---------- reading only part of the bytes ----------

  ghost predicate Same(d: seq<byte>, d': seq<byte>, lo: int, hi: int) {
    |d'| == |d| && forall i: nat :: lo <= i < hi && i < |d| ==> d'[i] == d[i]
  }

  lemma SameLength(order: ByteOrder, d: seq<byte>, d': seq<byte>, i: nat)
    requires i + 2 <= |d| && Same(d, d', i, i + 2)
    ensures Get16(order, d', i) == Get16(order, d, i)
    ensures After(order, d', i) == After(order, d, i)
    ensures forall end, least :: i <= end <= |d| && least >= 2 ==>
              Fits(order, d', i, end, least) == Fits(order, d, i, end, least)
  {
  }

  lemma {:induction false} PlainFrame(order: ByteOrder, d: seq<byte>, d': seq<byte>, start: nat, end: nat)
    requires start <= end <= |d| && Same(d, d', start, end)
    ensures PlainOk(order, d', start, end) == PlainOk(order, d, start, end)
    decreases end - start
  {
    if end - start >= 4 {
      SameLength(order, d, d', start);
      if Fits(order, d, start, end, 4) {
        PlainFrame(order, d, d', After(order, d, start), end);
      }
    }
  }

  /** The next hops do not depend on their flag bytes. */
  lemma {:induction false} HopsFrame(order: ByteOrder, d: seq<byte>, d': seq<byte>, hop: nat, limit: nat)
    requires hop <= limit <= |d| == |d'|
    requires forall i: nat :: hop <= i < limit && !HopFlag(order, d, hop, limit, i) ==> d'[i] == d[i]
    ensures HopsOk(order, d', hop, limit) == HopsOk(order, d, hop, limit)
    ensures forall i :: HopFlag(order, d', hop, limit, i) == HopFlag(order, d, hop, limit, i)
    decreases limit - hop
  {
    if limit - hop >= 8 {
      assert !HopFlag(order, d, hop, limit, hop) && !HopFlag(order, d, hop, limit, hop + 1);
      SameLength(order, d, d', hop);
      if Fits(order, d, hop, limit, 8) {
        forall i: nat | hop + 8 <= i < hop + Get16(order, d, hop) ensures d'[i] == d[i] {
          assert !HopFlag(order, d, hop, limit, i);
        }
        PlainFrame(order, d, d', hop + 8, hop + Get16(order, d, hop));
        forall i: nat | After(order, d, hop) <= i < limit && !HopFlag(order, d, After(order, d, hop), limit, i)
          ensures d'[i] == d[i]
        {
          assert !HopFlag(order, d, hop, limit, i);
        }
        HopsFrame(order, d, d', After(order, d, hop), limit);
      }
    }
  }

  /** Two strings agree on [start, end) outside the flags of the attributes there. */
  ghost predicate AgreeOnAttributes(order: ByteOrder, d: seq<byte>, d': seq<byte>, start: nat, end: nat)
    requires start <= end <= |d| == |d'|
  {
    forall i: nat :: start <= i < end && !AttributeFlag(order, d, start, end, i) ==> d'[i] == d[i]
  }

  lemma FirstBodyAgrees(order: ByteOrder, d: seq<byte>, d': seq<byte>, start: nat, end: nat)
    requires start + 4 <= end <= |d| == |d'| && AgreeOnAttributes(order, d, d', start, end)
    requires Fits(order, d, start, end, 4) && IsMultipath(order, d, start)
    ensures var from, body := start + 4, start + Get16(order, d, start);
            && HopsOk(order, d', from, body) == HopsOk(order, d, from, body)
            && forall i :: HopFlag(order, d', from, body, i) == HopFlag(order, d, from, body, i)
  {
    var body := start + Get16(order, d, start);
    forall i: nat | start + 4 <= i < body && !HopFlag(order, d, start + 4, body, i) ensures d'[i] == d[i] {
      assert !AttributeFlag(order, d, start, end, i);
    }
    HopsFrame(order, d, d', start + 4, body);
  }

  /** The first attribute keeps its place, its kind and, if it is multipath, its hops and flags. */
  ghost predicate SameFirst(order: ByteOrder, d: seq<byte>, d': seq<byte>, start: nat, end: nat)
    requires start + 4 <= end <= |d| == |d'|
  {
    && Get16(order, d', start) == Get16(order, d, start) && Get16(order, d', start + 2) == Get16(order, d, start + 2)
    && (Fits(order, d, start, end, 4) && IsMultipath(order, d, start) ==>
          var from, body := start + 4, start + Get16(order, d, start);
          && HopsOk(order, d', from, body) == HopsOk(order, d, from, body)
          && forall i :: HopFlag(order, d', from, body, i) == HopFlag(order, d, from, body, i))
  }

  lemma SameFirstOk(order: ByteOrder, d: seq<byte>, d': seq<byte>, start: nat, end: nat)
    requires start + 4 <= end <= |d| == |d'| && SameFirst(order, d, d', start, end)
    requires Fits(order, d, start, end, 4) ==>
               AttributesOk(order, d', After(order, d, start), end) ==
                   AttributesOk(order, d, After(order, d, start), end)
    ensures AttributesOk(order, d', start, end) == AttributesOk(order, d, start, end)
  {
  }

  lemma SameFirstFlags(order: ByteOrder, d: seq<byte>, d': seq<byte>, start: nat, end: nat)
    requires start + 4 <= end <= |d| == |d'| && SameFirst(order, d, d', start, end)
    requires Fits(order, d, start, end, 4) ==>
               forall i :: AttributeFlag(order, d', After(order, d, start), end, i) ==
                           AttributeFlag(order, d, After(order, d, start), end, i)
    ensures forall i :: AttributeFlag(order, d', start, end, i) == AttributeFlag(order, d, start, end, i)
  {
    forall i: nat ensures AttributeFlag(order, d', start, end, i) == AttributeFlag(order, d, start, end, i) {
      assert Fits(order, d', start, end, 4) == Fits(order, d, start, end, 4);
    }
  }

  lemma {:induction false} AttributesFrame(order: ByteOrder, d: seq<byte>, d': seq<byte>, start: nat, end: nat)
    requires start <= end <= |d| == |d'| && AgreeOnAttributes(order, d, d', start, end)
    ensures AttributesOk(order, d', start, end) == AttributesOk(order, d, start, end)
    ensures forall i :: AttributeFlag(order, d', start, end, i) == AttributeFlag(order, d, start, end, i)
    decreases end - start
  {
    if end - start >= 4 {
      if Fits(order, d, start, end, 4) {
        if IsMultipath(order, d, start) {
          FirstBodyAgrees(order, d, d', start, end);
        }
        AttributesFrame(order, d, d', After(order, d, start), end);
      }
      SameFirstOk(order, d, d', start, end);
      SameFirstFlags(order, d, d', start, end);
    }
  }

  lemma HeaderFrame(order: ByteOrder, d: seq<byte>, d': seq<byte>, offset: nat)
    requires offset + HEADER <= |d| && Same(d, d', offset, offset + 24)
    ensures HeaderOk(order, d', offset) == HeaderOk(order, d, offset)
    ensures MessageLength(order, d', offset) == MessageLength(order, d, offset)
    ensures NextMessage(order, d', offset) == NextMessage(order, d, offset)
  {
    assert Get16(order, d', offset) == Get16(order, d, offset);
    assert Get16(order, d', offset + 2) == Get16(order, d, offset + 2);
    assert Get16(order, d', offset + 4) == Get16(order, d, offset + 4);
  }

  lemma MessageFrame(order: ByteOrder, d: seq<byte>, d': seq<byte>, offset: nat)
    requires offset + HEADER <= |d| == |d'| && HeaderOk(order, d, offset)
    requires forall i: nat :: offset <= i < NextMessage(order, d, offset) && !OwnFlag(order, d, offset, i) ==>
              d'[i] == d[i]
    ensures HeaderOk(order, d', offset) && NextMessage(order, d', offset) == NextMessage(order, d, offset)
    ensures MessageOk(order, d', offset) == MessageOk(order, d, offset)
    ensures forall i :: OwnFlag(order, d', offset, i) == OwnFlag(order, d, offset, i)
  {
    forall i: nat | offset <= i < offset + 24 ensures d'[i] == d[i] {
      assert !OwnFlag(order, d, offset, i);
    }
    HeaderFrame(order, d, d', offset);
    var body, end := offset + HEADER, offset + MessageLength(order, d, offset);
    forall i: nat | body <= i < end && !AttributeFlag(order, d, body, end, i) ensures d'[i] == d[i] {
      assert !OwnFlag(order, d, offset, i);
    }
    AttributesFrame(order, d, d', body, end);
  }

  lemma {:induction false} MessagesFrame(order: ByteOrder, d: seq<byte>, d': seq<byte>, offset: nat)
    requires offset <= |d| == |d'|
    requires forall i: nat :: offset <= i < |d| && !MessageFlag(order, d, offset, i) ==> d'[i] == d[i]
    ensures MessagesOk(order, d', offset) == MessagesOk(order, d, offset)
    ensures forall i :: MessageFlag(order, d', offset, i) == MessageFlag(order, d, offset, i)
    decreases |d| - offset
  {
    if |d| - offset >= HEADER {
      forall i: nat | offset <= i < offset + 24 ensures d'[i] == d[i] {
        assert !MessageFlag(order, d, offset, i);
      }
      HeaderFrame(order, d, d', offset);
      if HeaderOk(order, d, offset) {
        var next := NextMessage(order, d, offset);
        forall i: nat | offset <= i < next && !OwnFlag(order, d, offset, i) ensures d'[i] == d[i] {
          assert !MessageFlag(order, d, offset, i);
        }
        MessageFrame(order, d, d', offset);
        forall i: nat | next <= i < |d| && !MessageFlag(order, d, next, i) ensures d'[i] == d[i] {
          assert !MessageFlag(order, d, offset, i);
        }
        MessagesFrame(order, d, d', next);
      }
    }
  }

  /** The output is accepted exactly when the input is, has the same flag bytes, and sanitizing it
      again changes nothing. */
  lemma SanitizeIdempotent(order: ByteOrder, d: seq<byte>)
    ensures Accepted(order, Sanitized(order, d)) <==> Accepted(order, d)
    ensures Sanitized(order, Sanitized(order, d)) == Sanitized(order, d)
  {
    var r := Sanitized(order, d);
    if |d| >= 4 {
      MessagesFrame(order, d, r, 4);
      assert forall i :: 0 <= i < 4 ==> !IsFlag(order, d, i);
      assert Get16(order, r, 0) == Get16(order, d, 0) && Get16(order, r, 2) == Get16(order, d, 2);
    }
    assert Sanitized(order, r) == r;
  }

  // ---------- the sanitizer, in place ----------

  /** Checks and edits the next hop at `hop`. */
  method EditHop(order: ByteOrder, result: array<byte>, hop: nat, limit: nat) returns (ok: bool, next: nat)
    requires hop < limit <= result.Length
    modifies result
    ensures ok == HopOk(order, old(result[..]), hop, limit)
    ensures ok ==> next == After(order, old(result[..]), hop)
    ensures ok ==> result[..] == old(result[..])[hop + 2 := ClearStatus(old(result[hop + 2]))]
    decreases limit - hop, 1
  {
    ghost var d := result[..];
    ok, next := false, hop;
    if limit - hop < 8 {
      return;
    }
    var length := Half(order, result[hop], result[hop + 1]);
    assert length == Get16(order, d, hop);
    var aligned := Align(length);
    if length < 8 || hop + aligned > limit {
      return;
    }
    result[hop + 2] := ClearStatus(result[hop + 2]);
    ghost var was := result[..];
    PlainFrame(order, d, was, hop + 8, hop + length);
    ok := EditAttributes(order, result, hop + 8, hop + length, false);
    assert ok ==> result[..] == was;
    next := hop + aligned;
  }

  method EditHops(order: ByteOrder, result: array<byte>, start: nat, limit: nat) returns (ok: bool)
    requires start <= limit <= result.Length
    modifies result
    ensures ok == HopsOk(order, old(result[..]), start, limit)
    ensures ok ==> forall i :: 0 <= i < result.Length ==>
              result[i] == if HopFlag(order, old(result[..]), start, limit, i) then ClearStatus(old(result[i]))
                  else old(result[i])
    decreases limit - start, 2
  {
    ghost var d := result[..];
    var hop := start;
    while hop < limit
      invariant start <= hop <= limit
      invariant HopsOk(order, d, start, limit) == HopsOk(order, d, hop, limit)
      invariant forall i :: hop <= i ==> HopFlag(order, d, start, limit, i) == HopFlag(order, d, hop, limit, i)
      invariant forall i :: 0 <= i < result.Length ==>
                  result[i] == if i < hop && HopFlag(order, d, start, limit, i) then ClearStatus(d[i]) else d[i]
    {
      ghost var was := result[..];
      HopFrame(order, d, was, hop, limit);
      var next;
      ok, next := EditHop(order, result, hop, limit);
      if !ok {
        return;
      }
      hop := next;
    }
    ok := true;
  }

  lemma HopFrame(order: ByteOrder, d: seq<byte>, d': seq<byte>, hop: nat, limit: nat)
    requires hop < limit <= |d| && Same(d, d', hop, limit)
    ensures HopOk(order, d', hop, limit) == HopOk(order, d, hop, limit)
    ensures HopOk(order, d, hop, limit) ==> After(order, d', hop) == After(order, d, hop)
  {
    if limit - hop >= 8 {
      SameLength(order, d, d', hop);
      if Fits(order, d, hop, limit, 8) {
        PlainFrame(order, d, d', hop + 8, hop + Get16(order, d, hop));
      }
    }
  }

  predicate NestedOk(order: ByteOrder, d: seq<byte>, start: nat, end: nat, multipath: bool)
    requires start <= end <= |d|
  {
    if multipath then AttributesOk(order, d, start, end) else PlainOk(order, d, start, end)
  }

  /** Flag bytes are looked for at the outer level only. */
  predicate NestedFlag(order: ByteOrder, d: seq<byte>, start: nat, end: nat, multipath: bool, i: nat)
    requires start <= end <= |d|
  {
    multipath && AttributeFlag(order, d, start, end, i)
  }

  /** The record at `start` is a sound attribute; next hops count at the outer level only. */
  predicate AttributeOk(order: ByteOrder, d: seq<byte>, start: nat, end: nat, multipath: bool)
    requires start <= end <= |d|
  {
    Fits(order, d, start, end, 4) && (multipath ==> BodyOk(order, d, start, end))
  }

  predicate OwnHopFlag(order: ByteOrder, d: seq<byte>, start: nat, end: nat, multipath: bool, i: nat)
    requires start <= end <= |d| && Fits(order, d, start, end, 4)
    ensures OwnHopFlag(order, d, start, end, multipath, i) ==> start + 4 <= i < After(order, d, start)
  {
    multipath && IsMultipath(order, d, start) && HopFlag(order, d, start + 4, start + Get16(order, d, start), i)
  }

  lemma AttributeFrame(order: ByteOrder, d: seq<byte>, d': seq<byte>, start: nat, end: nat, multipath: bool)
    requires start < end <= |d| && Same(d, d', start, end)
    ensures AttributeOk(order, d', start, end, multipath) == AttributeOk(order, d, start, end, multipath)
    ensures AttributeOk(order, d, start, end, multipath) ==>
              && After(order, d', start) == After(order, d, start)
              && forall i :: OwnHopFlag(order, d', start, end, multipath, i) ==
                    OwnHopFlag(order, d, start, end, multipath, i)
  {
    if end - start >= 4 {
      SameLength(order, d, d', start);
      SameLength(order, d, d', start + 2);
      if Fits(order, d, start, end, 4) {
        HopsFrame(order, d, d', start + 4, start + Get16(order, d, start));
      }
    }
  }

  /** Checks and edits the attribute at `start`. */
  method EditAttribute(order: ByteOrder, result: array<byte>, start: nat, end: nat, multipath: bool)
      returns (ok: bool, next: nat)
    requires start < end <= result.Length
    modifies result
    ensures ok == AttributeOk(order, old(result[..]), start, end, multipath)
    ensures ok ==> next == After(order, old(result[..]), start)
    ensures ok ==> forall i :: 0 <= i < result.Length ==>
              result[i] == if OwnHopFlag(order, old(result[..]), start, end, multipath, i)
                           then ClearStatus(old(result[i])) else old(result[i])
    decreases end - start, 0
  {
    ok, next := false, start;
    if end - start < 4 {
      return;
    }
    var length, kind := Half(order, result[start], result[start + 1]), Half(order, result[start + 2],
                                                                            result[start + 3]);
    assert length == Get16(order, result[..], start) && kind == Get16(order, result[..], start + 2);
    var aligned := Align(length);
    if length < 4 || start + aligned > end {
      return;
    }
    ok, next := true, start + aligned;
    if multipath && kind % 0x4000 == RTA_MULTIPATH {
      if length == 4 {
        ok := false;
        return;
      }
      ok := EditHops(order, result, start + 4, start + length);
    }
  }

  method EditAttributes(order: ByteOrder, result: array<byte>, from: nat, end: nat, multipath: bool) returns (ok: bool)
    requires from <= end <= result.Length
    modifies result
    ensures ok == NestedOk(order, old(result[..]), from, end, multipath)
    ensures ok ==> forall i :: 0 <= i < result.Length ==>
              result[i] == if NestedFlag(order, old(result[..]), from, end, multipath, i)
                           then ClearStatus(old(result[i])) else old(result[i])
    decreases end - from, 1
  {
    ghost var d := result[..];
    var start := from;
    while start < end
      invariant from <= start <= end
      invariant NestedOk(order, d, from, end, multipath) == NestedOk(order, d, start, end, multipath)
      invariant forall i :: start <= i ==>
                  NestedFlag(order, d, from, end, multipath, i) == NestedFlag(order, d, start, end, multipath, i)
      invariant forall i :: 0 <= i < result.Length ==>
                  result[i] == if i < start && NestedFlag(order, d, from, end, multipath, i) then ClearStatus(d[i])
                      else d[i]
    {
      ghost var was := result[..];
      AttributeFrame(order, d, was, start, end, multipath);
      var next;
      ok, next := EditAttribute(order, result, start, end, multipath);
      if !ok {
        return;
      }
      start := next;
    }
    ok := true;
  }

  lemma HeaderRead(order: ByteOrder, d: seq<byte>, offset: nat, header: seq<byte>)
    requires offset + HEADER <= |d| && header == d[offset..offset + HEADER]
    ensures Get32(order, header, 0) == Get32(order, d, offset)
    ensures Get16(order, header, 4) == Get16(order, d, offset + 4)
  {
  }

  /** Checks and edits the message at `offset`. */
  method EditMessage(order: ByteOrder, result: array<byte>, offset: nat) returns (ok: bool, next: nat)
    requires offset < result.Length
    modifies result
    ensures ok == MessageOk(order, old(result[..]), offset)
    ensures ok ==> next == NextMessage(order, old(result[..]), offset)
    ensures ok ==> forall i :: 0 <= i < result.Length ==>
              result[i] == if OwnFlag(order, old(result[..]), offset, i) then ClearStatus(old(result[i]))
                  else old(result[i])
  {
    ghost var d := result[..];
    ok, next := false, offset;
    if result.Length - offset < HEADER {
      return;
    }
    var header := result[offset..offset + HEADER];
    HeaderRead(order, d, offset, header);
    var length, kind := Get32(order, header, 0), Get16(order, header, 4);
    var aligned := Align(length);
    if length < HEADER || length > MAX_MESSAGE || kind != RTM_NEWROUTE
       || offset + aligned > result.Length || result[offset + 16] != AF_INET {
      return;
    }
    ok := EditFlags(order, result, offset, length);
    next := offset + aligned;
  }

  /** The flag word of a message whose header is checked, and its attributes. */
  method EditFlags(order: ByteOrder, result: array<byte>, offset: nat, length: nat) returns (ok: bool)
    requires offset < result.Length && HeaderOk(order, result[..], offset) &&
              length == MessageLength(order, result[..], offset)
    modifies result
    ensures ok == MessageOk(order, old(result[..]), offset)
    ensures ok ==> forall i :: 0 <= i < result.Length ==>
              result[i] == if OwnFlag(order, old(result[..]), offset, i) then ClearStatus(old(result[i]))
                  else old(result[i])
  {
    ghost var d := result[..];
    var flags := FlagByte(order, offset);
    result[flags] := ClearStatus(result[flags]);
    AttributesFrame(order, d, result[..], offset + HEADER, offset + length);
    ok := EditAttributes(order, result, offset + HEADER, offset + length, true);
  }

  method SanitizeRouteSnapshot(order: ByteOrder, data: seq<byte>) returns (r: Option<seq<byte>>)
    ensures r == if Accepted(order, data) then Some(Sanitized(order, data)) else None
    ensures r.Some? ==> |r.value| == |data| >= 4 && forall offset: nat :: MessageAt(order, data, 4, offset) ==>
              offset + 28 <= |data| && WithoutStatus(Get32(order, data, offset + 24),
                                                     Get32(order, r.value, offset + 24))
  {
    if |data| < 4 || Get32(order, data, 0) != MAGIC {
      return None;
    }
    var result := new byte[|data|](i requires 0 <= i < |data| => data[i]);
    var offset := 4;
    while offset < result.Length
      invariant 4 <= offset <= result.Length == |data|
      invariant Accepted(order, data) == MessagesOk(order, data, offset)
      invariant forall i :: offset <= i ==> IsFlag(order, data, i) == MessageFlag(order, data, offset, i)
      invariant forall i :: 0 <= i < |data| ==>
                  result[i] == if i < offset && IsFlag(order, data, i) then ClearStatus(data[i]) else data[i]
    {
      ghost var was := result[..];
      if |data| - offset >= HEADER {
        HeaderFrame(order, data, was, offset);
        if HeaderOk(order, data, offset) {
          MessageFrame(order, data, was, offset);
        }
      }
      var ok, next := EditMessage(order, result, offset);
      if !ok {
        return None;
      }
      offset := next;
    }
    assert result[..] == Sanitized(order, data);
    forall at: nat | MessageAt(order, data, 4, at)
      ensures at + 28 <= |data| && WithoutStatus(Get32(order, data, at + 24), Get32(order, result[..], at + 24))
    {
      FlagWordsCleared(order, data, at);
    }
    return Some(result[..]);
  }
}
