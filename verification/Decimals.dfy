/** Decimal digit strings, most significant digit first. */
module Decimals {
  newtype digit = x: int | 0 <= x < 10

  function Pow10(n: nat): (r: nat)
    ensures r >= 1
  {
    if n == 0 then 1 else 10 * Pow10(n - 1)
  }

  /** The number a digit string writes, most significant digit first. */
  function Number(s: seq<digit>): (r: nat)
    ensures r < Pow10(|s|)
  {
    if s == [] then 0 else 10 * Number(s[..|s| - 1]) + s[|s| - 1] as nat
  }

  /** The digits of a number, without leading zeros. */
  function Digits(v: nat): (s: seq<digit>)
    ensures |s| >= 1 && Number(s) == v
  {
    if v < 10 then
      assert [v as digit][..0] == [];
      [v as digit]
    else
      var s := Digits(v / 10);
      assert (s + [(v % 10) as digit])[..|s|] == s;
      s + [(v % 10) as digit]
  }

  lemma {:induction false} DigitsLength(v: nat, n: nat)
    requires n >= 1
    ensures |Digits(v)| <= n <==> v < Pow10(n)
  {
    if v < 10 {
      assert Pow10(n) == 10 * Pow10(n - 1);
    } else {
      if n == 1 {
        assert Pow10(1) == 10 * Pow10(0);
      } else {
        DigitsLength(v / 10, n - 1);
        assert Pow10(n) == 10 * Pow10(n - 1);
      }
    }
  }

  lemma {:induction false} NumberSplit(s: seq<digit>)
    requires |s| >= 1
    ensures Number(s) == s[0] as nat * Pow10(|s| - 1) + Number(s[1..])
  {
    if |s| == 1 {
      assert s[..0] == [] && s[1..] == [];
    } else {
      var p := s[..|s| - 1];
      NumberSplit(p);
      assert p[1..] == s[1..][..|s| - 2];
      assert Pow10(|s| - 1) == 10 * Pow10(|s| - 2);
      assert s[0] as nat * Pow10(|s| - 1) == 10 * (s[0] as nat * Pow10(|s| - 2));
    }
  }

  lemma {:induction false} LeadingZeros(zeros: nat, s: seq<digit>)
    ensures Number(seq(zeros, _ => 0 as digit) + s) == Number(s)
  {
    var z := seq(zeros, _ => 0 as digit);
    if zeros == 0 {
      assert z + s == s;
    } else {
      var t := z + s;
      NumberSplit(t);
      assert t[1..] == seq(zeros - 1, _ => 0 as digit) + s;
      LeadingZeros(zeros - 1, s);
    }
  }

  lemma {:induction false} NumberInjective(s: seq<digit>, s': seq<digit>)
    requires |s| == |s'| && Number(s) == Number(s')
    ensures s == s'
  {
    if s != [] {
      NumberInjective(s[..|s| - 1], s'[..|s'| - 1]);
      assert s == s[..|s| - 1] + [s[|s| - 1]] && s' == s'[..|s'| - 1] + [s'[|s'| - 1]];
    }
  }
}
