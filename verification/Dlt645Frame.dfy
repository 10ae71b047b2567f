/**
 Frames of DL/T 645-2007 (section 5.2) as the DLT645 link manager builds, checks and extracts
 them (src/DLT645/DLT645LinkManager.cc): 68, six address octets, 68, control, length, data,
 checksum, 16.
 */
module Dlt645Frame {
  import opened Arithmetic
  import opened Bytes
  import opened Wrappers
  import Base64

  const FRAME_START: byte := 0x68
  const FRAME_END: byte := 0x16
  const MIN_FRAME := 12

  datatype Frame = Frame(address: seq<byte>, control: byte, data: seq<byte>)

  function Sum(data: seq<byte>): (r: nat) {
    if data == [] then 0 else Sum(data[..|data| - 1]) + data[|data| - 1] as nat
  }

  method Checksum(data: seq<byte>) returns (r: byte)
    ensures r as int == Sum(data) % 256
  {
    var sum := 0;
    for i := 0 to |data|
      invariant 0 <= sum < TWO_32
      invariant sum % 256 == Sum(data[..i]) % 256
    {
      assert data[..i + 1][..i] == data[..i];
      WrapKeeps(sum + data[i] as int, 256, 0x100_0000);
      SumMod(sum, Sum(data[..i]), data[i] as int, 256);
      sum := (sum + data[i] as int) % TWO_32;
    }
    assert data[..|data|] == data;
    return (sum % 256) as byte;
  }

  /** The octets a checksum covers. The length octet keeps the low eight bits of the length. */
  function Header(f: Frame): seq<byte> {
    [FRAME_START] + f.address + [FRAME_START, f.control, (|f.data| % 256) as byte] + f.data
  }

  function Built(f: Frame): seq<byte> {
    Header(f) + [(Sum(Header(f)) % 256) as byte, FRAME_END]
  }

  method BuildFrame(address: seq<byte>, control: byte, data: seq<byte>) returns (frame: seq<byte>)
    ensures frame == Built(Frame(address, control, data))
  {
    frame := [FRAME_START];
    frame := frame + address;
    frame := frame + [FRAME_START];
    frame := frame + [control];
    frame := frame + [(|data| % 256) as byte];
    frame := frame + data;
    assert frame == Header(Frame(address, control, data));
    var cs := Checksum(frame);
    frame := frame + [cs];
    frame := frame + [FRAME_END];
  }

  /** The frame that a byte string is, if it is one. */
  function Parsed(raw: seq<byte>): (r: Option<Frame>)
    ensures r.Some? ==> |raw| >= MIN_FRAME && |raw| == raw[9] as int + MIN_FRAME && raw[0] == FRAME_START
  {
    if |raw| < MIN_FRAME || raw[0] != FRAME_START || raw[|raw| - 1] != FRAME_END || raw[7] != FRAME_START then None
    else
      var len := raw[9] as int;
      if |raw| != 10 + len + 2 || Sum(raw[..10 + len]) % 256 != raw[10 + len] as int then None
      else Some(Frame(raw[1..7], raw[8], raw[10..10 + len]))
  }

  method DecodeFrame(raw: seq<byte>) returns (r: Option<Frame>)
    ensures r == Parsed(raw)
  {
    if |raw| < MIN_FRAME {
      return None;
    }
    if raw[0] != FRAME_START || raw[|raw| - 1] != FRAME_END {
      return None;
    }
    if raw[7] != FRAME_START {
      return None;
    }
    var len := raw[9] as int;
    if |raw| != 10 + len + 2 {
      return None;
    }
    var cs := Checksum(raw[..10 + len]);
    if cs != raw[10 + len] {
      return None;
    }
    return Some(Frame(raw[1..7], raw[8], raw[10..10 + len]));
  }

  /** A built frame is read back exactly when its address has six octets and its data fit the
      length octet. */
  lemma BuiltParses(f: Frame)
    ensures Parsed(Built(f)) == Some(f) <==> |f.address| == 6 && |f.data| <= 255
  {
    if |f.address| == 6 && |f.data| <= 255 {
      var raw, len := Built(f), |f.data|;
      assert raw[..10 + len] == Header(f);
      assert raw[1..7] == f.address;
      assert raw[10..10 + len] == f.data;
    }
  }

  /** Every frame that is read is the one that would be built from what was read. */
  lemma ParsedBuilds(raw: seq<byte>)
    requires Parsed(raw).Some?
    ensures Built(Parsed(raw).value) == raw
  {
    var f, len := Parsed(raw).value, raw[9] as int;
    assert Header(f) == raw[..10 + len];
  }

  lemma SumMore(data: seq<byte>, b: byte)
    ensures Sum(data + [b]) == Sum(data) + b as nat
  {
    assert (data + [b])[..|data|] == data;
  }

  lemma {:induction false} SumConcat(a: seq<byte>, b: seq<byte>)
    ensures Sum(a + b) == Sum(a) + Sum(b)
  {
    if b == [] {
      assert a + b == a;
    } else {
      var n := |b| - 1;
      SumConcat(a, b[..n]);
      assert (a + b)[..|a| + n] == a + b[..n];
    }
  }

  lemma SumOfThree(a: byte, b: byte, c: byte)
    ensures Sum([a]) == a as nat && Sum([a, b, c]) == a as nat + b as nat + c as nat
  {
    SumMore([], a);
    SumMore([a], b);
    SumMore([a, b], c);
    assert [] + [a] == [a] && [a] + [b] == [a, b] && [a, b] + [c] == [a, b, c];
  }

  lemma AddressSum(head: seq<byte>, three: seq<byte>, last: seq<byte>)
    requires head == [0x68] && three == [0xAA, 0xAA, 0xAA] && last == [0x68, 0x13, 0x00]
    ensures Sum(head + three + three + last) == 0x4DF
  {
    SumOfThree(0x68, 0x13, 0x00);
    SumOfThree(0xAA, 0xAA, 0xAA);
    SumConcat(head, three);
    SumConcat(head + three, three);
    SumConcat(head + three + three, last);
  }

  /** The request for the address of a meter: 68 AA AA AA AA AA AA 68 13 00 DF 16. */
  lemma AddressRequest()
    ensures Built(Frame([0xAA, 0xAA, 0xAA, 0xAA, 0xAA, 0xAA], 0x13, [])) ==
              [0x68, 0xAA, 0xAA, 0xAA, 0xAA, 0xAA, 0xAA, 0x68, 0x13, 0x00, 0xDF, 0x16]
  {
    var head, three, last: seq<byte> := [0x68], [0xAA, 0xAA, 0xAA], [0x68, 0x13, 0x00];
    AddressSum(head, three, last);
    assert Header(Frame([0xAA, 0xAA, 0xAA, 0xAA, 0xAA, 0xAA], 0x13, [])) == head + three + three + last;
  }

  // ---------- extraction from a byte stream ----------

  /** A frame stands at `raw[i..j]`. */
  ghost predicate FrameAt(raw: seq<byte>, i: int, j: int, f: Frame) {
    0 <= i <= j <= |raw| && Parsed(raw[i..j]) == Some(f)
  }

  ghost predicate NoFrameBefore(raw: seq<byte>, i: int) {
    forall k, j, f :: FrameAt(raw, k, j, f) ==> i <= k
  }

  ghost predicate Leftmost(raw: seq<byte>, f: Frame) {
    exists i, j :: FrameAt(raw, i, j, f) && NoFrameBefore(raw, i)
  }

  ghost predicate HasFrame(raw: seq<byte>) {
    exists i, j, f :: FrameAt(raw, i, j, f)
  }

  /** At most one frame starts at a position: its length octet fixes where it ends. */
  lemma FrameEnd(raw: seq<byte>, i: int, j: int, f: Frame)
    requires FrameAt(raw, i, j, f)
    ensures i + MIN_FRAME <= j && raw[i] == FRAME_START && raw[i + 7] == FRAME_START &&
              j == i + raw[i + 9] as int + MIN_FRAME
  {
    var s := raw[i..j];
    assert s[0] == raw[i] && s[7] == raw[i + 7] && s[9] == raw[i + 9];
  }

  lemma LeftmostUnique(raw: seq<byte>, f: Frame, f': Frame)
    requires Leftmost(raw, f) && Leftmost(raw, f')
    ensures f == f'
  {
    var i, j :| FrameAt(raw, i, j, f) && NoFrameBefore(raw, i);
    var i', j' :| FrameAt(raw, i', j', f') && NoFrameBefore(raw, i');
    FrameEnd(raw, i, j, f);
    FrameEnd(raw, i', j', f');
  }

  method ExtractFrame(raw: seq<byte>) returns (r: Option<Frame>)
    ensures Extracts(raw, r)
  {
    r := DecodeFrame(raw);
    if r.Some? {
      assert raw[0..|raw|] == raw;
      assert FrameAt(raw, 0, |raw|, r.value) && NoFrameBefore(raw, 0);
      return;
    }
    var i := 0;
    while i + MIN_FRAME <= |raw|
      invariant 0 <= i
      invariant NoFrameBefore(raw, i)
    {
      forall j, f | FrameAt(raw, i, j, f)
        ensures raw[i] == FRAME_START && raw[i + 7] == FRAME_START && j == i + raw[i + 9] as int + MIN_FRAME
      {
        FrameEnd(raw, i, j, f);
      }
      if raw[i] == FRAME_START && raw[i + 7] == FRAME_START {
        var expected := 10 + raw[i + 9] as int + 2;
        if i + expected <= |raw| {
          r := DecodeFrame(raw[i..i + expected]);
          if r.Some? {
            assert FrameAt(raw, i, i + expected, r.value);
            return;
          }
        }
      }
      i := i + 1;
    }
    if j, k, f :| FrameAt(raw, k, j, f) {
      FrameEnd(raw, k, j, f);
    }
    r := None;
  }

  /** `r` is the leftmost frame of `raw`, or nothing when no slice of `raw` is a frame. */
  ghost predicate Extracts(raw: seq<byte>, r: Option<Frame>) {
    if HasFrame(raw) then r.Some? && Leftmost(raw, r.value) else r == None
  }

  ghost predicate Responds(payload: string, r: Option<Frame>) {
    match Base64.Decoded(payload)
    case None => r == None
    case Some(raw) => Extracts(raw, r)
  }

  method ParseResponsePayload(payload: string) returns (r: Option<Frame>)
    ensures Responds(payload, r)
  {
    var raw := Base64.Base64Decode(payload);
    if raw == None {
      return None;
    }
    r := ExtractFrame(raw.value);
  }

  /** A byte string sent as base64 yields its leftmost frame, and fails only when no slice of it
      is a frame; the answer is unique. */
  lemma EncodedResponse(raw: seq<byte>, r: Option<Frame>, r': Option<Frame>)
    ensures Responds(Base64.Encoded(raw), r) <==> Extracts(raw, r)
    ensures Extracts(raw, r) && Extracts(raw, r') ==> r == r'
  {
    Base64.RoundTrip(raw);
    if Extracts(raw, r) && Extracts(raw, r') && r.Some? {
      LeftmostUnique(raw, r.value, r'.value);
    }
  }

  /** Whether a frame starts at octet `k`, as its length octet says where it would end. */
  predicate StartsFrame(raw: seq<byte>, k: nat) {
    && k + MIN_FRAME <= |raw| && k + MIN_FRAME + raw[k + 9] as int <= |raw|
    && Parsed(raw[k..k + MIN_FRAME + raw[k + 9] as int]).Some?
  }

  lemma FrameStarts(raw: seq<byte>, k: nat)
    ensures StartsFrame(raw, k) <==> exists j, f :: FrameAt(raw, k, j, f)
  {
    if StartsFrame(raw, k) {
      var j := k + MIN_FRAME + raw[k + 9] as int;
      assert FrameAt(raw, k, j, Parsed(raw[k..j]).value);
    }
    if j, f :| FrameAt(raw, k, j, f) {
      FrameEnd(raw, k, j, f);
    }
  }

  /** A frame embedded in a stream is the one extracted, at its place, exactly when no other starts before
      it. */
  lemma EmbeddedFrameIsLeftmost(before: seq<byte>, f: Frame, after: seq<byte>)
    requires |f.address| == 6 && |f.data| <= 255
    ensures var raw := before + Built(f) + after;
            && FrameAt(raw, |before|, |before| + |Built(f)|, f)
            && (NoFrameBefore(raw, |before|) <==> forall k: nat :: k < |before| ==> !StartsFrame(raw, k))
            && (NoFrameBefore(raw, |before|) ==> Leftmost(raw, f))
  {
    var raw := before + Built(f) + after;
    var i, j := |before|, |before| + |Built(f)|;
    BuiltParses(f);
    assert raw[i..j] == Built(f);
    assert FrameAt(raw, i, j, f);
    forall k: nat | k < i ensures StartsFrame(raw, k) <==> exists l, g :: FrameAt(raw, k, l, g) {
      FrameStarts(raw, k);
    }
    if forall k: nat :: k < i ==> !StartsFrame(raw, k) {
      forall k, l, g | FrameAt(raw, k, l, g) ensures i <= k {
        FrameStarts(raw, k);
      }
    }
  }

  /** In particular when nothing before it looks like the start of a frame. */
  lemma EmbeddedInQuietStream(before: seq<byte>, f: Frame, after: seq<byte>)
    requires |f.address| == 6 && |f.data| <= 255
    requires FRAME_START !in before
    ensures Leftmost(before + Built(f) + after, f)
  {
    var raw := before + Built(f) + after;
    EmbeddedFrameIsLeftmost(before, f, after);
    forall k: nat | k < |before| ensures !StartsFrame(raw, k) {
      assert raw[k] == before[k];
    }
  }

  // ---------- the offset of the data field ----------

  /** The data octets on the wire: 0x33 more than their values, in eight bits. */
  function Shifted(b: byte, amount: int): byte {
    ((b as int + amount) % 256) as byte
  }

  /** Both shifts change every octet in place. */
  method ShiftAll(data: array<byte>, amount: int)
    modifies data
    ensures forall i :: 0 <= i < data.Length ==> data[i] == Shifted(old(data[i]), amount)
  {
    for i := 0 to data.Length
      invariant forall k :: 0 <= k < i ==> data[k] == Shifted(old(data[k]), amount)
      invariant forall k :: i <= k < data.Length ==> data[k] == old(data[k])
    {
      data[i] := Shifted(data[i], amount);
    }
  }

  /** What the two shifts come to, in eight bits. */
  lemma ShiftedBy(b: byte)
    ensures Shifted(b, 0x33) as int == b as int + if b as int < 0xCD then 0x33 else -0xCD
    ensures Shifted(b, -0x33) as int == b as int + if b as int < 0x33 then 0xCD else -0x33
  {
  }

  method AddOffset33(data: array<byte>)
    modifies data
    ensures forall i :: 0 <= i < data.Length ==> data[i] == Shifted(old(data[i]), 0x33)
    ensures forall i :: 0 <= i < data.Length ==>
              data[i] as int == old(data[i]) as int + if old(data[i]) as int < 0xCD then 0x33 else -0xCD
  {
    forall b: byte ensures Shifted(b, 0x33) as int == b as int + if b as int < 0xCD then 0x33 else -0xCD {
      ShiftedBy(b);
    }
    ShiftAll(data, 0x33);
  }

  method SubOffset33(data: array<byte>)
    modifies data
    ensures forall i :: 0 <= i < data.Length ==> data[i] == Shifted(old(data[i]), -0x33)
    ensures forall i :: 0 <= i < data.Length ==>
              data[i] as int == old(data[i]) as int + if old(data[i]) as int < 0x33 then 0xCD else -0x33
  {
    forall b: byte ensures Shifted(b, -0x33) as int == b as int + if b as int < 0x33 then 0xCD else -0x33 {
      ShiftedBy(b);
    }
    ShiftAll(data, -0x33);
  }

  /** Each shift undoes the other, wrap-around included. */
  lemma OffsetsUndoEachOther(b: byte)
    ensures Shifted(Shifted(b, 0x33), -0x33) == b && Shifted(Shifted(b, -0x33), 0x33) == b
  {
    SumMod((b as int + 0x33) % 256, b as int + 0x33, -0x33, 256);
    SumMod((b as int - 0x33) % 256, b as int - 0x33, 0x33, 256);
  }
}
