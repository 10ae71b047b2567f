/**
 The base64 codec of the DLT645 link manager (src/DLT645/DLT645LinkManager.cc), the
 encoding of section 4 of RFC 4648. The decoder is lenient: it skips foreign characters, stops
 at '=' and keeps a 32-bit buffer that is never cleared.
 */
module Base64 {
  import opened Arithmetic
  import opened Bytes
  import opened Wrappers

  type sextet = x: int | 0 <= x < 64

  /** The alphabet: A-Z, a-z, 0-9, '+', '/'. */
  function ToChar(v: sextet): char {
    if v < 26 then 'A' + v as char
    else if v < 52 then 'a' + (v - 26) as char
    else if v < 62 then '0' + (v - 52) as char
    else if v == 62 then '+'
    else '/'
  }

  datatype Meaning = Value(v: sextet) | Stop | Skip

  /** The decode table. */
  function FromChar(c: char): Meaning {
    if 'A' <= c <= 'Z' then Value((c - 'A') as int)
    else if 'a' <= c <= 'z' then Value((c - 'a') as int + 26)
    else if '0' <= c <= '9' then Value((c - '0') as int + 52)
    else if c == '+' then Value(62)
    else if c == '/' then Value(63)
    else if c == '=' then Stop
    else Skip
  }

  // ---------- encoding ----------

  /** The four sextets of three octets. */
  function Sextets(a: byte, b: byte, c: byte): (sextet, sextet, sextet, sextet) {
    var (x, y, z) := (a as int, b as int, c as int);
    (x / 4, x % 4 * 16 + y / 16, y % 16 * 4 + z / 64, z % 64)
  }

  /** The 24 bits of the triple, six by six. */
  lemma TripleSextets(a: byte, b: byte, c: byte)
    ensures var t := Triple(a, b, c);
            var v := Sextets(a, b, c);
            v.0 == t / 262144 % 64 && v.1 == t / 4096 % 64 && v.2 == t / 64 % 64 && v.3 == t % 64
  {
    SecondDigit(a as int, b as int, c as int);
    ThirdDigit(a as int, b as int, c as int);
    FourthDigit(a as int, b as int, c as int);
  }

  predicate Octets(a: int, b: int, c: int) {
    0 <= a < 256 && 0 <= b < 256 && 0 <= c < 256
  }

  lemma SecondDigit(a: int, b: int, c: int)
    requires Octets(a, b, c)
    ensures (a * 65536 + b * 256 + c) / 4096 % 64 == a % 4 * 16 + b / 16
  {
    DivMod(a * 65536 + b * 256 + c, 4096, a * 16 + b / 16, b % 16 * 256 + c);
    DivMod(a * 16 + b / 16, 64, a / 4, a % 4 * 16 + b / 16);
  }

  lemma ThirdDigit(a: int, b: int, c: int)
    requires Octets(a, b, c)
    ensures (a * 65536 + b * 256 + c) / 64 % 64 == b % 16 * 4 + c / 64
  {
    DivMod(a * 65536 + b * 256 + c, 64, a * 1024 + b * 4 + c / 64, c % 64);
    DivMod(a * 1024 + b * 4 + c / 64, 64, a * 16 + b / 16, b % 16 * 4 + c / 64);
  }

  lemma FourthDigit(a: int, b: int, c: int)
    requires Octets(a, b, c)
    ensures (a * 65536 + b * 256 + c) % 64 == c % 64
  {
    DivMod(a * 65536 + b * 256 + c, 64, a * 1024 + b * 4 + c / 64, c % 64);
  }

  function Triple(a: byte, b: byte, c: byte): int {
    a as int * 65536 + b as int * 256 + c as int
  }

  /** The four characters that encode the octets from `i` on. */
  function Quad(data: seq<byte>, i: nat): string
    requires i < |data|
  {
    var v := Sextets(data[i], if i + 1 < |data| then data[i + 1] else 0, if i + 2 < |data| then data[i + 2] else 0);
    [ToChar(v.0), ToChar(v.1), if i + 1 < |data| then ToChar(v.2) else '=', if i + 2 < |data| then ToChar(v.3) else '=']
  }

  function Encoded(data: seq<byte>): string {
    if |data| == 0 then "" else Quad(data, 0) + Encoded(Rest(data, 3))
  }

  function Rest<T>(data: seq<T>, n: nat): seq<T> {
    data[if n < |data| then n else |data|..]
  }

  /** One turn of the encoder's loop. */
  method EncodeGroup(data: seq<byte>, i: nat) returns (quad: string)
    requires i < |data|
    ensures quad == Quad(data, i)
  {
    var a := data[i];
    var b: byte := if i + 1 < |data| then data[i + 1] else 0;
    var c: byte := if i + 2 < |data| then data[i + 2] else 0;
    var triple := Triple(a, b, c);
    TripleSextets(a, b, c);
    quad := [ToChar(triple / 262144 % 64),
             ToChar(triple / 4096 % 64),
             if i + 1 < |data| then ToChar(triple / 64 % 64) else '=',
             if i + 2 < |data| then ToChar(triple % 64) else '='];
  }

  method Base64Encode(data: seq<byte>) returns (out: string)
    ensures out == Encoded(data)
  {
    out := "";
    var i := 0;
    while i < |data|
      invariant 0 <= i
      invariant Encoded(data) == out + Encoded(Rest(data, i))
    {
      var quad := EncodeGroup(data, i);
      assert Quad(data, i) == Quad(Rest(data, i), 0);
      assert Rest(Rest(data, i), 3) == Rest(data, i + 3);
      out := out + quad;
      i := i + 3;
    }
  }

  // ---------- decoding ----------

  /** The buffer after one more sextet. */
  function Shifted(buffer: int, v: sextet): int {
    (buffer * 64 + v) % TWO_32
  }

  /** The weight of bit number `bits`. */
  function Unit(bits: nat): nat
    requires bits < 8
  {
    if bits < 4 then (if bits < 2 then (if bits == 0 then 1 else 2) else (if bits == 2 then 4 else 8))
    else (if bits < 6 then (if bits == 4 then 16 else 32) else (if bits == 6 then 64 else 128))
  }

  function Low(buffer: int, bits: nat): byte
    requires bits < 8
  {
    (buffer / Unit(bits) % 256) as byte
  }

  /** The octets decoded from `text` when `bits` bits of `buffer` are pending. */
  function DecodedFrom(text: string, buffer: int, bits: nat): seq<byte>
    requires bits < 8
  {
    if text == "" then []
    else
      match FromChar(text[0])
      case Stop => []
      case Skip => DecodedFrom(text[1..], buffer, bits)
      case Value(v) =>
        var next := Shifted(buffer, v);
        if bits + 6 >= 8 then [Low(next, bits - 2)] + DecodedFrom(text[1..], next, bits - 2)
        else DecodedFrom(text[1..], next, bits + 6)
  }

  function Decoded(text: string): (r: Option<seq<byte>>) {
    var out := DecodedFrom(text, 0, 0);
    if out != [] || text == "" then Some(out) else None
  }

  method Base64Decode(text: string) returns (r: Option<seq<byte>>)
    ensures r == Decoded(text)
  {
    var out: seq<byte> := [];
    ghost var all := DecodedFrom(text, 0, 0);
    var buffer, bits, i := 0, 0, 0;
    assert text[0..] == text;
    while i < |text|
      invariant 0 <= i <= |text| && 0 <= bits < 8
      invariant all == out + DecodedFrom(text[i..], buffer, bits)
    {
      ghost var rest := text[i..];
      assert rest[1..] == text[i + 1..];
      var meaning := FromChar(text[i]);
      if meaning == Stop {
        break;
      }
      i := i + 1;
      if meaning.Value? {
        buffer := Shifted(buffer, meaning.v);
        bits := bits + 6;
        if bits >= 8 {
          bits := bits - 8;
          out := out + [Low(buffer, bits)];
        }
      }
    }
    assert DecodedFrom(text[i..], buffer, bits) == [];
    assert all == out;
    if out != [] || text == "" {
      return Some(out);
    }
    return None;
  }

  // ---------- decoding undoes encoding ----------

  /** Only the last two sextets of the buffer reach the next octet. */
  lemma ShiftedLow4(buffer: int, v: sextet, w: sextet)
    ensures Low(Shifted(Shifted(buffer, v), w), 4) as int == (v * 4 + w / 16) % 256
  {
    ShiftedWindow(buffer, v, w);
    LowDigits4(Shifted(Shifted(buffer, v), w), v, w);
  }

  lemma ShiftedLow2(buffer: int, v: sextet, w: sextet)
    ensures Low(Shifted(Shifted(buffer, v), w), 2) as int == (v * 16 + w / 4) % 256
  {
    ShiftedWindow(buffer, v, w);
    LowDigits2(Shifted(Shifted(buffer, v), w), v, w);
  }

  lemma ShiftedLow0(buffer: int, v: sextet, w: sextet)
    ensures Low(Shifted(Shifted(buffer, v), w), 0) as int == (v * 64 + w) % 256
  {
    ShiftedWindow(buffer, v, w);
    LowDigits0(Shifted(Shifted(buffer, v), w), v, w);
  }

  lemma LowDigits4(s: int, v: int, w: int)
    requires s % 4096 == v * 64 + w && 0 <= v < 64 && 0 <= w < 64
    ensures s / 16 % 256 == (v * 4 + w / 16) % 256
  {
    var k := s / 4096;
    DivMod(s, 16, 256 * k + v * 4 + w / 16, w % 16);
    DivMod(256 * k + v * 4 + w / 16, 256, k, v * 4 + w / 16);
  }

  lemma LowDigits2(s: int, v: int, w: int)
    requires s % 4096 == v * 64 + w && 0 <= v < 64 && 0 <= w < 64
    ensures s / 4 % 256 == (v * 16 + w / 4) % 256
  {
    var k := s / 4096;
    DivMod(s, 4, 1024 * k + v * 16 + w / 4, w % 4);
    DivMod(1024 * k + v * 16 + w / 4, 256, 4 * k + (v * 16 + w / 4) / 256, (v * 16 + w / 4) % 256);
  }

  lemma LowDigits0(s: int, v: int, w: int)
    requires s % 4096 == v * 64 + w && 0 <= v < 64 && 0 <= w < 64
    ensures s % 256 == (v * 64 + w) % 256
  {
    var k := s / 4096;
    DivMod(s, 256, 16 * k + (v * 64 + w) / 256, (v * 64 + w) % 256);
  }

  lemma ShiftedWindow(buffer: int, v: sextet, w: sextet)
    ensures Shifted(Shifted(buffer, v), w) % 4096 == v * 64 + w
  {
    var s := Shifted(buffer, v);
    WrapKeeps(buffer * 64 + v, 64, 0x400_0000);
    DivMod(buffer * 64 + v, 64, buffer, v);
    assert s % 64 == v;
    var c := s * 64 + w;
    WrapKeeps(c, 4096, 0x10_0000);
    DivMod(c, 4096, s / 64, v * 64 + w);
  }

  /** What one more character does. */
  lemma Push(v: sextet, rest: string, buffer: int, bits: nat)
    requires bits < 8
    ensures var next := Shifted(buffer, v);
            DecodedFrom([ToChar(v)] + rest, buffer, bits) ==
              if bits >= 2 then [Low(next, bits - 2)] + DecodedFrom(rest, next, bits - 2)
              else DecodedFrom(rest, next, bits + 6)
  {
    assert ([ToChar(v)] + rest)[1..] == rest;
  }

  lemma FirstOctet(a: byte, b: byte, c: byte, buffer: int)
    ensures var v := Sextets(a, b, c);
            Low(Shifted(Shifted(buffer, v.0), v.1), 4) == a
  {
    var v := Sextets(a, b, c);
    ShiftedLow4(buffer, v.0, v.1);
    DivMod(a as int % 4 * 16 + b as int / 16, 16, a as int % 4, b as int / 16);
  }

  lemma SecondOctet(a: byte, b: byte, c: byte, buffer: int)
    ensures var v := Sextets(a, b, c);
            Low(Shifted(Shifted(buffer, v.1), v.2), 2) == b
  {
    var v := Sextets(a, b, c);
    ShiftedLow2(buffer, v.1, v.2);
    DivMod(b as int % 16 * 4 + c as int / 64, 4, b as int % 16, c as int / 64);
    DivMod((a as int % 4 * 16 + b as int / 16) * 16 + b as int % 16, 256, a as int % 4, b as int);
  }

  lemma ThirdOctet(a: byte, b: byte, c: byte, buffer: int)
    ensures var v := Sextets(a, b, c);
            Low(Shifted(Shifted(buffer, v.2), v.3), 0) == c
  {
    var v := Sextets(a, b, c);
    ShiftedLow0(buffer, v.2, v.3);
    DivMod((b as int % 16 * 4 + c as int / 64) * 64 + c as int % 64, 256, b as int % 16, c as int);
  }

  /** The first three octets of a group come out of its sextets, whatever the buffer held. */
  lemma SextetsLow(a: byte, b: byte, c: byte, buffer: int)
    ensures var v := Sextets(a, b, c);
            var s1 := Shifted(buffer, v.0);
            var s2 := Shifted(s1, v.1);
            var s3 := Shifted(s2, v.2);
            Low(s2, 4) == a && Low(s3, 2) == b && Low(Shifted(s3, v.3), 0) == c
  {
    var v := Sextets(a, b, c);
    var s1 := Shifted(buffer, v.0);
    FirstOctet(a, b, c, buffer);
    SecondOctet(a, b, c, s1);
    ThirdOctet(a, b, c, Shifted(s1, v.1));
  }

  function Group(a: byte, b: byte, c: byte): string {
    var v := Sextets(a, b, c);
    [ToChar(v.0)] + ([ToChar(v.1)] + ([ToChar(v.2)] + [ToChar(v.3)]))
  }

  lemma LaterHalf(v: sextet, w: sextet, rest: string, buffer: int)
    ensures var one := Shifted(buffer, v);
            var two := Shifted(one, w);
            DecodedFrom([ToChar(v)] + ([ToChar(w)] + rest), buffer, 4) ==
                [Low(one, 2)] + ([Low(two, 0)] + DecodedFrom(rest, two, 0))
  {
    Push(w, rest, Shifted(buffer, v), 2);
    Push(v, [ToChar(w)] + rest, buffer, 4);
  }

  /** What four characters do, whatever they are. */
  lemma FourCharacters(v: (sextet, sextet, sextet, sextet), rest: string, buffer: int)
    ensures var s2 := Shifted(Shifted(buffer, v.0), v.1);
            var s3 := Shifted(s2, v.2);
            var s4 := Shifted(s3, v.3);
            DecodedFrom([ToChar(v.0)] + ([ToChar(v.1)] + ([ToChar(v.2)] + ([ToChar(v.3)] + rest))), buffer, 0) ==
              [Low(s2, 4)] + ([Low(s3, 2)] + ([Low(s4, 0)] + DecodedFrom(rest, s4, 0)))
  {
    var t3 := [ToChar(v.2)] + ([ToChar(v.3)] + rest);
    LaterHalf(v.2, v.3, rest, Shifted(Shifted(buffer, v.0), v.1));
  }

  lemma GroupText(v: (sextet, sextet, sextet, sextet), rest: string)
    ensures [ToChar(v.0)] + ([ToChar(v.1)] + ([ToChar(v.2)] + [ToChar(v.3)])) + rest ==
              [ToChar(v.0)] + ([ToChar(v.1)] + ([ToChar(v.2)] + ([ToChar(v.3)] + rest)))
  {
  }

  /** One full group of four characters gives back its three octets. */
  lemma GroupDecodes(a: byte, b: byte, c: byte, rest: string, buffer: int) returns (left: int)
    ensures DecodedFrom(Group(a, b, c) + rest, buffer, 0) == [a, b, c] + DecodedFrom(rest, left, 0)
  {
    var v := Sextets(a, b, c);
    left := Shifted(Shifted(Shifted(Shifted(buffer, v.0), v.1), v.2), v.3);
    SextetsLow(a, b, c, buffer);
    GroupText(v, rest);
    FourCharacters(v, rest, buffer);
    assert [a] + ([b] + ([c] + DecodedFrom(rest, left, 0))) == [a, b, c] + DecodedFrom(rest, left, 0);
  }

  /** The padded last group gives back its one or two octets. */
  lemma TailDecodes(data: seq<byte>, buffer: int)
    requires 1 <= |data| <= 2
    ensures DecodedFrom(Encoded(data), buffer, 0) == data
  {
    var b: byte := if |data| > 1 then data[1] else 0;
    var v := Sextets(data[0], b, 0);
    var s1 := Shifted(buffer, v.0);
    var s2 := Shifted(s1, v.1);
    SextetsLow(data[0], b, 0, buffer);
    var t3 := if |data| == 1 then "==" else [ToChar(v.2)] + "=";
    var t2 := [ToChar(v.1)] + t3;
    assert Encoded(data) == [ToChar(v.0)] + t2;
    if |data| == 2 {
      Push(v.2, "=", s2, 4);
    }
    Push(v.1, t3, s1, 6);
    Push(v.0, t2, buffer, 0);
  }

  lemma {:induction false} EncodedDecodes(data: seq<byte>, buffer: int)
    ensures DecodedFrom(Encoded(data), buffer, 0) == data
  {
    if 1 <= |data| <= 2 {
      TailDecodes(data, buffer);
    } else if |data| >= 3 {
      var rest := Rest(data, 3);
      var left := GroupDecodes(data[0], data[1], data[2], Encoded(rest), buffer);
      assert Quad(data, 0) == Group(data[0], data[1], data[2]);
      EncodedDecodes(rest, left);
      assert data == [data[0], data[1], data[2]] + rest;
    }
  }

  /** Decoding what was encoded gives back every byte string. */
  lemma RoundTrip(data: seq<byte>)
    ensures Decoded(Encoded(data)) == Some(data)
  {
    EncodedDecodes(data, 0);
  }

  // ---------- which characters ----------

  /** The alphabet of RFC 4648, in order. */
  const UPPER := "ABCDEFGHIJKLMNOPQRSTUVWXYZ"
  const LOWER := "abcdefghijklmnopqrstuvwxyz"
  const FIGURES := "0123456789"

  lemma UpperAt(i: nat)
    requires i < 26
    ensures UPPER[i] == 'A' + i as char
  {
  }

  lemma LowerAt(i: nat)
    requires i < 26
    ensures LOWER[i] == 'a' + i as char
  {
  }

  lemma FigureAt(i: nat)
    requires i < 10
    ensures FIGURES[i] == '0' + i as char
  {
  }

  lemma Alphabet(v: sextet)
    ensures ToChar(v) ==
              if v < 26 then UPPER[v] else if v < 52 then LOWER[v - 26] else if v < 62 then FIGURES[v - 52]
              else if v == 62 then '+' else '/'
  {
    if v < 26 {
      UpperAt(v);
    } else if v < 52 {
      LowerAt(v - 26);
    } else if v < 62 {
      FigureAt(v - 52);
    }
  }

  /** The decode table inverts the alphabet, and knows nothing else but '='. */
  lemma DecodeTable(c: char, v: sextet)
    ensures FromChar(c) == Value(v) <==> c == ToChar(v)
    ensures FromChar(c).Stop? <==> c == '='
  {
  }

  /** Three octets become four characters, six bits each from the highest on; missing octets count as zero
      bits, and characters without any bit of an octet are '='. */
  lemma GroupsOfThree(a: byte, b: byte, c: byte)
    ensures Encoded([a, b, c]) == [ToChar(a as int / 4), ToChar(a as int % 4 * 16 + b as int / 16),
                                   ToChar(b as int % 16 * 4 + c as int / 64), ToChar(c as int % 64)]
    ensures Encoded([a, b]) == [ToChar(a as int / 4), ToChar(a as int % 4 * 16 + b as int / 16),
                                ToChar(b as int % 16 * 4), '=']
    ensures Encoded([a]) == [ToChar(a as int / 4), ToChar(a as int % 4 * 16), '=', '=']
  {
    assert Rest([a, b, c], 3) == [] && Rest([a, b], 3) == [] && Rest([a], 3) == [];
  }

  lemma GroupsFollow(data: seq<byte>)
    requires |data| > 3
    ensures Encoded(data) == Encoded(data[..3]) + Encoded(data[3..])
  {
    assert Rest(data[..3], 3) == [] && Rest(data, 3) == data[3..];
    assert Quad(data[..3], 0) == Quad(data, 0);
    assert Encoded(data[..3]) == Quad(data, 0) + "";
  }

  /** The first examples of section 10 of RFC 4648: f, fo, foo. */
  lemma Examples()
    ensures Encoded([0x66]) == "Zg==" && Encoded([0x66, 0x6F]) == "Zm8=" && Encoded([0x66, 0x6F, 0x6F]) == "Zm9v"
  {
    GroupsOfThree(0x66, 0x6F, 0x6F);
    ExampleCharacters();
  }

  lemma ExampleCharacters()
    ensures ToChar(25) == 'Z' && ToChar(32) == 'g' && ToChar(38) == 'm' && ToChar(60) == '8'
    ensures ToChar(61) == '9' && ToChar(47) == 'v'
  {
  }

  predicate InAlphabet(c: char) {
    'A' <= c <= 'Z' || 'a' <= c <= 'z' || '0' <= c <= '9' || c == '+' || c == '/'
  }

  /** The characters of the alphabet before the first '='. */
  function Kept(text: string): string {
    if text == "" || text[0] == '=' then ""
    else if InAlphabet(text[0]) then [text[0]] + Kept(text[1..])
    else Kept(text[1..])
  }

  /** Decoding ignores every character outside the alphabet, and everything from the first '=' on. */
  lemma {:induction false} DecodesKept(text: string, buffer: int, bits: nat)
    requires bits < 8
    ensures DecodedFrom(text, buffer, bits) == DecodedFrom(Kept(text), buffer, bits)
  {
    if text != "" {
      match FromChar(text[0])
      case Stop =>
      case Skip =>
        DecodesKept(text[1..], buffer, bits);
      case Value(v) =>
        var next := Shifted(buffer, v);
        DecodesKept(text[1..], next, if bits + 6 >= 8 then bits - 2 else bits + 6);
        assert Kept(text)[0] == text[0] && Kept(text)[1..] == Kept(text[1..]);
    }
  }
}
