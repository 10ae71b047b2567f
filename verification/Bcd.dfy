/**
 Signed BCD data of DLT645 points (src/DLT645/DLT645LinkManager.cc): low octet first, two
 decimal digits an octet, the top bit of the last octet is the sign. The fixed-point value has
 already been rounded to an integer.
 */
module Bcd {
  import opened Arithmetic
  import opened Bytes
  import opened Decimals
  import opened Wrappers

  function Abs(v: int): nat {
    if v < 0 then -v else v
  }

  // ---------- octets of digits ----------

  function High(b: byte): int {
    b as int / 16
  }

  function LowNibble(b: byte): int {
    b as int % 16
  }

  function Octet(high: digit, low: digit): byte {
    (high as int * 16 + low as int) as byte
  }

  /** `b`, low octet first, holds the digits `s`; the top bit is `negative`. */
  ghost predicate Holds(b: seq<byte>, s: seq<digit>, negative: bool) {
    && |s| == 2 * |b| && |b| >= 1
    && (forall i :: 0 <= i < |b| ==> LowNibble(b[|b| - 1 - i]) == s[2 * i + 1] as int)
    && (forall i :: 1 <= i < |b| ==> High(b[|b| - 1 - i]) == s[2 * i] as int)
    && s[0] < 8
    && High(b[|b| - 1]) == s[0] as int + if negative then 8 else 0
  }

  function Signed(s: seq<digit>, negative: bool): int {
    var magnitude: int := Number(s);
    if negative then -magnitude else magnitude
  }

  /** `v` is what the data `b` mean. */
  ghost predicate Means(b: seq<byte>, v: int) {
    exists s, negative :: Holds(b, s, negative) && v == Signed(s, negative)
  }

  lemma HoldsUnique(b: seq<byte>, s: seq<digit>, n: bool, s': seq<digit>, n': bool)
    requires Holds(b, s, n) && Holds(b, s', n')
    ensures s == s' && n == n'
  {
    forall k | 0 <= k < |s| ensures s[k] == s'[k] {
      var i := k / 2;
      assert k == 2 * i || k == 2 * i + 1;
      assert LowNibble(b[|b| - 1 - i]) == s[2 * i + 1] as int == s'[2 * i + 1] as int;
      if i >= 1 {
        assert High(b[|b| - 1 - i]) == s[2 * i] as int == s'[2 * i] as int;
      }
    }
  }

  /** Data mean at most one number. */
  lemma MeansUnique(b: seq<byte>, v: int, v': int)
    requires Means(b, v) && Means(b, v')
    ensures v == v'
  {
    var s, n :| Holds(b, s, n) && v == Signed(s, n);
    var s', n' :| Holds(b, s', n') && v' == Signed(s', n');
    HoldsUnique(b, s, n, s', n');
  }

  lemma FourDigits()
    ensures Number([1, 2, 3, 4]) == 1234
  {
    var one, two, three: seq<digit> := [1], [1, 2], [1, 2, 3];
    assert one[..0] == [] && two[..1] == one && three[..2] == two;
    assert Number(one) == 1 && Number(two) == 12 && Number(three) == 123;
    var s: seq<digit> := [1, 2, 3, 4];
    assert s[..3] == three;
  }

  /** Low octet first; the top bit is set for negative numbers. */
  lemma Examples()
    ensures Means([0x34, 0x12], 1234) && Means([0x34, 0x92], -1234)
  {
    FourDigits();
    assert Holds([0x34, 0x12], [1, 2, 3, 4], false) && Signed([1, 2, 3, 4], false) == 1234;
    assert Holds([0x34, 0x92], [1, 2, 3, 4], true) && Signed([1, 2, 3, 4], true) == -1234;
  }

  // ---------- encoding ----------

  function Even(digits: seq<digit>): seq<digit> {
    if |digits| % 2 == 0 then digits else [0] + digits
  }

  /** `digits` with zeros in front, `n` octets of them. */
  function Padded(digits: seq<digit>, n: nat): (s: seq<digit>)
    requires |digits| <= 2 * n
    ensures |s| == 2 * n
    ensures forall k :: 0 <= k < 2 * n - |digits| ==> s[k] == 0
    ensures forall k :: 2 * n - |digits| <= k < 2 * n ==> s[k] == digits[k - (2 * n - |digits|)]
  {
    seq(2 * n - |digits|, _ => 0 as digit) + digits
  }

  /** Packs digits two by two, a zero in front when their number is odd. */
  method EncodeBcd(digits: seq<digit>) returns (out: seq<byte>)
    requires |digits| >= 1
    ensures |out| == (|digits| + 1) / 2
    ensures forall i :: 0 <= i < |out| ==> out[i] == Octet(Even(digits)[2 * i], Even(digits)[2 * i + 1])
  {
    var data := digits;
    if |data| % 2 != 0 {
      data := [0] + data;
    }
    out := [];
    var i := 0;
    while i < |data|
      invariant 0 <= i <= |data| && i == 2 * |out| && |data| % 2 == 0
      invariant forall k :: 0 <= k < |out| ==> out[k] == Octet(data[2 * k], data[2 * k + 1])
    {
      out := out + [Octet(data[i], data[i + 1])];
      i := i + 2;
    }
  }

  method Reverse(s: seq<byte>) returns (r: seq<byte>)
    ensures |r| == |s| && forall i :: 0 <= i < |s| ==> r[i] == s[|s| - 1 - i]
  {
    r := [];
    for i := 0 to |s|
      invariant |r| == i && forall k :: 0 <= k < i ==> r[k] == s[i - 1 - k]
    {
      r := [s[i]] + r;
    }
  }

  /** With `n` octets of digits, the top digit leaves room for the sign below 8 times its weight. */
  lemma PaddedRange(n: nat, s: seq<digit>)
    requires n >= 1 && |s| == 2 * n
    ensures s[0] < 8 <==> Number(s) < 8 * Pow10(2 * n - 1)
  {
    NumberSplit(s);
    TopRange(s[0] as int, Pow10(2 * n - 1), Number(s[1..]));
  }

  lemma TopRange(top: int, p: int, low: int)
    requires 0 <= low < p
    ensures top < 8 <==> top * p + low < 8 * p
  {
    if top < 8 {
      MulNonNegative(7 - top, p);
    } else {
      MulNonNegative(top - 8, p);
    }
  }

  /** The octets `b`, low one first, spell `s`. */
  ghost predicate Spells(b: seq<byte>, s: seq<digit>) {
    |s| == 2 * |b| && forall i :: 0 <= i < |b| ==> b[|b| - 1 - i] == Octet(s[2 * i], s[2 * i + 1])
  }

  lemma PaddedEven(digits: seq<digit>, n: nat, j: nat)
    requires |Even(digits)| <= 2 * n && j < 2 * n
    ensures var filled := 2 * n - |Even(digits)|;
            Padded(digits, n)[j] == if j < filled then 0 else Even(digits)[j - filled]
  {
  }

  lemma FilledSpells(packed: seq<byte>, digits: seq<digit>, n: nat, b: seq<byte>)
    requires |Even(digits)| == 2 * |packed| && |packed| <= n == |b|
    requires forall i :: 0 <= i < |packed| ==> packed[i] == Octet(Even(digits)[2 * i], Even(digits)[2 * i + 1])
    requires forall j :: 0 <= j < n ==> b[j] == if j < |packed| then packed[|packed| - 1 - j] else 0
    ensures Spells(b, Padded(digits, n))
  {
    var s := Padded(digits, n);
    forall i | 0 <= i < n ensures b[n - 1 - i] == Octet(s[2 * i], s[2 * i + 1]) {
      FilledAt(packed, digits, n, b[n - 1 - i], i);
    }
  }

  lemma FilledAt(packed: seq<byte>, digits: seq<digit>, n: nat, octet: byte, i: nat)
    requires |Even(digits)| == 2 * |packed| && |packed| <= n && i < n
    requires forall k :: 0 <= k < |packed| ==> packed[k] == Octet(Even(digits)[2 * k], Even(digits)[2 * k + 1])
    requires octet == if n - 1 - i < |packed| then packed[i - (n - |packed|)] else 0
    ensures octet == Octet(Padded(digits, n)[2 * i], Padded(digits, n)[2 * i + 1])
  {
    PaddedEven(digits, n, 2 * i);
    PaddedEven(digits, n, 2 * i + 1);
    var k := i - (n - |packed|);
    if k >= 0 {
      assert packed[k] == Octet(Even(digits)[2 * k], Even(digits)[2 * k + 1]);
    }
  }

  /** The digits of `v`, low octet first, filled up with zeros to `n` octets. */
  method Layout(v: nat, n: nat) returns (bcd: seq<byte>, ghost s: seq<digit>)
    requires n >= 1
    ensures |bcd| > n <==> v >= Pow10(2 * n)
    ensures |bcd| <= n ==> |bcd| == n && Spells(bcd, s) && Number(s) == v
  {
    var digits := Digits(v);
    DigitsLength(v, 2 * n);
    bcd := EncodeBcd(digits);
    s := [];
    if |bcd| > n {
      return;
    }
    s := Padded(digits, n);
    LeadingZeros(2 * n - |digits|, digits);
    ghost var packed := bcd;
    bcd := Reverse(bcd);
    while |bcd| < n
      invariant |packed| <= |bcd| <= n
      invariant forall j :: 0 <= j < |bcd| ==> bcd[j] == if j < |packed| then packed[|packed| - 1 - j] else 0
    {
      bcd := bcd + [0];
    }
    FilledSpells(packed, digits, n, bcd);
  }

  /** Encodes an integer into `n` octets. */
  method EncodeSigned(v: int, n: nat) returns (r: Option<seq<byte>>)
    requires n >= 1
    ensures r.Some? <==> Abs(v) < 8 * Pow10(2 * n - 1)
    ensures r.Some? ==> |r.value| == n && Means(r.value, v) && !AllFF(r.value)
  {
    var bcd; ghost var s;
    bcd, s := Layout(Abs(v), n);
    if |bcd| > n {
      assert Pow10(2 * n) == 10 * Pow10(2 * n - 1);
      return None;
    }
    PaddedRange(n, s);
    var top := bcd[n - 1];
    TopOctet(bcd, s);
    if High(top) > 7 {
      return None;
    }
    ghost var plain := bcd;
    if v < 0 {
      bcd := bcd[n - 1 := top + 128];
    }
    SignedMeans(plain, bcd, s, v);
    return Some(bcd);
  }

  /** The top nibble of the last octet is the top digit, and leaves room for the sign below 8. */
  lemma TopOctet(b: seq<byte>, s: seq<digit>)
    requires |b| >= 1 && Spells(b, s)
    ensures High(b[|b| - 1]) == s[0] as int
    ensures s[0] < 8 <==> b[|b| - 1] < 128
  {
    assert b[|b| - 1 - 0] == Octet(s[2 * 0], s[2 * 0 + 1]);
  }

  lemma SignedMeans(plain: seq<byte>, b: seq<byte>, s: seq<digit>, v: int)
    requires |b| == |plain| >= 1 && Spells(plain, s) && s[0] < 8 && Number(s) == Abs(v)
    requires plain[|b| - 1] < 128
    requires b == if v < 0 then plain[|b| - 1 := plain[|b| - 1] + 128] else plain
    ensures Means(b, v) && !AllFF(b)
  {
    SignedLayoutHolds(plain, b, s, v < 0);
    assert Means(b, Signed(s, v < 0));
    if AllFF(b) {
      NoSignedFF(b);
    }
  }

  lemma SpelledNibbles(b: seq<byte>, s: seq<digit>, i: nat)
    requires Spells(b, s) && i < |b|
    ensures LowNibble(b[|b| - 1 - i]) == s[2 * i + 1] as int && High(b[|b| - 1 - i]) == s[2 * i] as int
  {
    assert b[|b| - 1 - i] == Octet(s[2 * i], s[2 * i + 1]);
  }

  lemma SignedNibbles(octet: byte)
    requires octet < 128
    ensures High(octet + 128) == High(octet) + 8 && LowNibble(octet + 128) == LowNibble(octet)
  {
  }

  lemma SignedLayoutHolds(plain: seq<byte>, b: seq<byte>, s: seq<digit>, negative: bool)
    requires |b| == |plain| >= 1 && Spells(plain, s) && s[0] < 8
    requires plain[|b| - 1] < 128
    requires b == if negative then plain[|b| - 1 := plain[|b| - 1] + 128] else plain
    ensures Holds(b, s, negative)
  {
    SignedNibbles(plain[|b| - 1]);
    SpelledNibbles(plain, s, 0);
    forall i: nat | i < |b|
      ensures LowNibble(b[|b| - 1 - i]) == s[2 * i + 1] as int
      ensures i >= 1 ==> High(b[|b| - 1 - i]) == s[2 * i] as int
    {
      SpelledNibbles(plain, s, i);
    }
  }

  // ---------- decoding ----------

  predicate AllFF(b: seq<byte>) {
    forall i :: 0 <= i < |b| ==> b[i] == 0xFF
  }

  /** `OutOfRange` is for digits that the decimal type refuses. */
  datatype Reading = NotConnected | Invalid | OutOfRange | Value(v: int)

  /** Whether the decimal type can hold a number with these digits and this sign. */
  type Decimal = (seq<digit>, bool) -> bool

  /** What octets are read as: a value exactly when they hold digits that the decimal type takes, and then the
      number they mean. */
  ghost predicate Reads(b: seq<byte>, takes: Decimal, r: Reading) {
    && (r == NotConnected <==> AllFF(b))
    && (r.Value? <==> exists s, negative :: Holds(b, s, negative) && takes(s, negative))
    && (r == OutOfRange <==> exists s, negative :: Holds(b, s, negative) && !takes(s, negative))
    && (r.Value? ==> Means(b, r.v))
  }

  /** Decoding what was encoded gives the number back, whatever follows it in the payload, exactly when the
      decimal type takes its digits, and is refused otherwise. */
  lemma DecodeUndoesEncode(v: int, b: seq<byte>, rest: seq<byte>, takes: Decimal, r: Reading)
    requires Means(b, v) && Reads((b + rest)[..|b|], takes, r)
    ensures exists s, negative :: Holds(b, s, negative) && r == if takes(s, negative) then Value(v) else OutOfRange
  {
    assert (b + rest)[..|b|] == b;
    var s, negative :| Holds(b, s, negative) && v == Signed(s, negative);
    if takes(s, negative) {
      MeansUnique(b, v, r.v);
    }
  }

  /** Decodes the first `n` octets of a response. */
  method DecodeSigned(payload: seq<byte>, n: nat, takes: Decimal) returns (r: Reading)
    requires 1 <= n <= |payload|
    ensures Reads(payload[..n], takes, r)
  {
    ghost var b := payload[..n];
    var allFF, j := true, 0;
    while j < n && allFF
      invariant 0 <= j <= n
      invariant allFF ==> forall k :: 0 <= k < j ==> b[k] == 0xFF
      invariant !allFF ==> !AllFF(b)
    {
      if payload[j] != 0xFF {
        assert b[j] != 0xFF;
        allFF := false;
      }
      j := j + 1;
    }
    if allFF {
      NoSignedFF(b);
      return NotConnected;
    }
    var digits: seq<digit> := [];
    var negative := false;
    var i := 0;
    while i < n
      invariant 0 <= i <= n && |digits| == 2 * i
      invariant forall k :: 0 <= k < i ==> LowNibble(b[n - 1 - k]) == digits[2 * k + 1] as int
      invariant forall k :: 1 <= k < i ==> High(b[n - 1 - k]) == digits[2 * k] as int
      invariant i > 0 ==> digits[0] < 8 && High(b[n - 1]) == digits[0] as int + if negative then 8 else 0
    {
      var octet := payload[n - 1 - i];
      assert octet == b[n - 1 - i];
      var low, high := LowNibble(octet), High(octet);
      if low > 9 {
        BadNibble(b, i);
        return Invalid;
      }
      if i == 0 {
        negative := high >= 8;
        high := if negative then high - 8 else high;
      } else if high > 9 {
        BadNibble(b, i);
        return Invalid;
      }
      digits := digits + [high as digit, low as digit];
      i := i + 1;
    }
    assert Holds(b, digits, negative);
    OnlyDigits(b, digits, negative);
    if !takes(digits, negative) {
      return OutOfRange;
    }
    assert Means(b, Signed(digits, negative));
    return Value(Signed(digits, negative));
  }

  lemma OnlyDigits(b: seq<byte>, s: seq<digit>, negative: bool)
    requires Holds(b, s, negative)
    ensures forall s', n' :: Holds(b, s', n') ==> s' == s && n' == negative
  {
    forall s', n' | Holds(b, s', n') ensures s' == s && n' == negative {
      HoldsUnique(b, s, negative, s', n');
    }
  }

  lemma HoldsDigits(b: seq<byte>, s: seq<digit>, negative: bool, i: nat)
    requires Holds(b, s, negative) && i < |b|
    ensures LowNibble(b[|b| - 1 - i]) < 10 && (i >= 1 ==> High(b[|b| - 1 - i]) < 10)
  {
    assert LowNibble(b[|b| - 1 - i]) == s[2 * i + 1] as int;
    assert i >= 1 ==> High(b[|b| - 1 - i]) == s[2 * i] as int;
  }

  lemma BadNibble(b: seq<byte>, i: nat)
    requires i < |b| && (LowNibble(b[|b| - 1 - i]) > 9 || (i >= 1 && High(b[|b| - 1 - i]) > 9))
    ensures (forall s, negative :: !Holds(b, s, negative)) && forall v :: !Means(b, v)
  {
    forall s, negative | Holds(b, s, negative) ensures false {
      HoldsDigits(b, s, negative, i);
    }
  }

  /** The "not connected" pattern means no number, so it is never the encoding of one. */
  lemma NoSignedFF(b: seq<byte>)
    requires |b| >= 1 && AllFF(b)
    ensures (forall s, negative :: !Holds(b, s, negative)) && forall v :: !Means(b, v)
  {
    BadNibble(b, 0);
  }

  /** Encoding what was decoded gives the same octets back, except for a negative zero. */
  lemma EncodingUnique(b: seq<byte>, b': seq<byte>, v: int)
    requires |b| == |b'| && Means(b, v) && Means(b', v) && v != 0
    ensures b == b'
  {
    var s, n :| Holds(b, s, n) && v == Signed(s, n);
    var s', n' :| Holds(b', s', n') && v == Signed(s', n');
    NumberInjective(s, s');
    forall j | 0 <= j < |b| ensures b[j] == b'[j] {
      var i := |b| - 1 - j;
      assert LowNibble(b[|b| - 1 - i]) == s[2 * i + 1] as int == LowNibble(b'[|b| - 1 - i]);
      assert i >= 1 ==> High(b[|b| - 1 - i]) == s[2 * i] as int == High(b'[|b| - 1 - i]);
    }
  }

  /** Every number that data of `n` octets can mean is in the range that `n` octets encode. */
  lemma MeansInRange(b: seq<byte>, v: int)
    requires |b| >= 1 && Means(b, v)
    ensures Abs(v) < 8 * Pow10(2 * |b| - 1)
  {
    var s, n :| Holds(b, s, n) && v == Signed(s, n);
    PaddedRange(|b|, s);
  }
}
