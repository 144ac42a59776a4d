// Big-endian numerals in any base, and the change of base that keeps leading
// zeros. Base58 is this change of base between 256 and 58.
module Radix {
  // Digits of some base, most significant first.
  predicate IsNumeral(base: nat, ds: seq<nat>) {
    forall i :: 0 <= i < |ds| ==> ds[i] < base
  }

  function Value(base: nat, ds: seq<nat>): nat {
    if ds == [] then 0 else Value(base, ds[..|ds| - 1]) * base + ds[|ds| - 1]
  }

  // The shortest numeral of a value; nothing for zero.
  function Digits(base: nat, n: nat): (ds: seq<nat>)
    requires base >= 2
    ensures IsNumeral(base, ds)
  {
    if n == 0 then [] else Digits(base, n / base) + [n % base]
  }

  function LeadingZeros(ds: seq<nat>): (z: nat)
    ensures z <= |ds|
    ensures forall i :: 0 <= i < z ==> ds[i] == 0
    ensures z < |ds| ==> ds[z] != 0
  {
    if ds == [] || ds[0] != 0 then 0 else 1 + LeadingZeros(ds[1..])
  }

  function Zeros(n: nat): (ds: seq<nat>)
    ensures |ds| == n
  {
    seq(n, _ => 0)
  }

  // One zero digit for each leading zero digit, then the value in the new base.
  function Rebase(from: nat, to: nat, ds: seq<nat>): (r: seq<nat>)
    requires to >= 2
    ensures IsNumeral(to, r)
  {
    Zeros(LeadingZeros(ds)) + Digits(to, Value(from, ds))
  }

  lemma MulLe(a: int, b: int, c: nat)
    requires a <= b
    ensures a * c <= b * c && c * a <= c * b
  {}

  lemma MulAssoc(a: int, b: int, c: int)
    ensures a * (b * c) == (a * b) * c
  {}

  // The quotient and remainder of a division are the only ones.
  lemma DivMod(base: nat, q: nat, r: nat)
    requires r < base
    ensures (q * base + r) / base == q && (q * base + r) % base == r
  {
    var n := q * base + r;
    var q', r' := n / base, n % base;
    assert n == q' * base + r';
    if q' > q {
      MulLe(q + 1, q', base);
    } else if q' < q {
      MulLe(q' + 1, q, base);
    }
  }

  lemma QuotientBelow(n: nat, base: nat, p: nat)
    requires base > 0
    ensures n / base < p <==> n < base * p
  {
    var q := n / base;
    assert n == q * base + n % base;
    if q < p {
      MulLe(q + 1, p, base);
    } else {
      MulLe(p, q, base);
    }
  }

  lemma Quotient(base: nat, n: nat)
    requires base >= 2 && n > 0
    ensures n / base < n
    ensures if n < base then n / base == 0 && n % base == n else n / base > 0
  {
    if n < base {
      DivMod(base, 0, n);
    } else {
      QuotientBelow(n, base, 1);
    }
  }

  lemma Division(base: nat, n: nat)
    requires base >= 1
    ensures n == n / base * base + n % base
  {}

  lemma ValueSnoc(base: nat, ds: seq<nat>, d: nat)
    ensures Value(base, ds + [d]) == Value(base, ds) * base + d
  {
    assert (ds + [d])[..|ds|] == ds;
  }

  lemma DigitsStep(base: nat, n: nat)
    requires base >= 2 && n > 0
    ensures Digits(base, n) == Digits(base, n / base) + [n % base]
  {}

  lemma {:induction false} ValueOfDigits(base: nat, n: nat)
    requires base >= 2
    ensures Value(base, Digits(base, n)) == n
  {
    if n > 0 {
      Quotient(base, n);
      DigitsStep(base, n);
      Division(base, n);
      ValueSnoc(base, Digits(base, n / base), n % base);
      hide Value, Digits;
      ValueOfDigits(base, n / base);
    }
  }

  lemma {:induction false} DigitsOfValue(base: nat, ds: seq<nat>)
    requires base >= 2 && IsNumeral(base, ds)
    requires ds == [] || ds[0] != 0
    ensures Digits(base, Value(base, ds)) == ds
    ensures ds != [] ==> Value(base, ds) > 0
  {
    if ds != [] {
      var front, last := ds[..|ds| - 1], ds[|ds| - 1];
      DigitsOfValue(base, front);
      DivMod(base, Value(base, front), last);
      if front != [] {
        assert Value(base, front) * base > 0;
      }
      assert ds == front + [last];
    }
  }

  lemma {:induction false} ValueSkipsZeros(base: nat, z: nat, ds: seq<nat>)
    ensures Value(base, Zeros(z) + ds) == Value(base, ds)
  {
    var all := Zeros(z) + ds;
    if ds != [] {
      ValueSkipsZeros(base, z, ds[..|ds| - 1]);
      assert all[..|all| - 1] == Zeros(z) + ds[..|ds| - 1];
    } else if z > 0 {
      ValueSkipsZeros(base, z - 1, []);
      assert all[..|all| - 1] == Zeros(z - 1) + [];
    }
  }

  lemma {:induction false} DigitsStartNonZero(base: nat, n: nat)
    requires base >= 2
    ensures n > 0 ==> Digits(base, n) != [] && Digits(base, n)[0] != 0
  {
    if n > 0 {
      Quotient(base, n);
      if n < base {
        assert Digits(base, 0) == [];
      } else {
        DigitsStartNonZero(base, n / base);
      }
    }
  }

  lemma {:induction false} LeadingZerosAre(z: nat, ds: seq<nat>)
    requires ds == [] || ds[0] != 0
    ensures LeadingZeros(Zeros(z) + ds) == z
  {
    if z > 0 {
      assert (Zeros(z) + ds)[1..] == Zeros(z - 1) + ds;
      LeadingZerosAre(z - 1, ds);
    } else {
      assert Zeros(0) + ds == ds;
    }
  }

  // A numeral is its leading zeros in front of the shortest numeral of its value.
  lemma SplitNumeral(base: nat, ds: seq<nat>)
    requires base >= 2 && IsNumeral(base, ds)
    ensures ds == Zeros(LeadingZeros(ds)) + Digits(base, Value(base, ds))
  {
    var z := LeadingZeros(ds);
    assert ds == Zeros(z) + ds[z..];
    ValueSkipsZeros(base, z, ds[z..]);
    DigitsOfValue(base, ds[z..]);
  }

  // The change of base is the one numeral with the same value and as many
  // leading zeros.
  lemma RebaseExactly(from: nat, to: nat, ds: seq<nat>, r: seq<nat>)
    requires to >= 2
    ensures r == Rebase(from, to, ds) <==>
              IsNumeral(to, r) && Value(to, r) == Value(from, ds) && LeadingZeros(r) == LeadingZeros(ds)
  {
    var n, z := Value(from, ds), LeadingZeros(ds);
    DigitsStartNonZero(to, n);
    LeadingZerosAre(z, Digits(to, n));
    ValueSkipsZeros(to, z, Digits(to, n));
    ValueOfDigits(to, n);
    if IsNumeral(to, r) { SplitNumeral(to, r); }
    hide Value, Digits, LeadingZeros;
  }

  // Changing base and back is the identity, leading zeros included.
  lemma RebaseInverts(from: nat, to: nat, ds: seq<nat>)
    requires from >= 2 && to >= 2 && IsNumeral(from, ds)
    ensures Rebase(to, from, Rebase(from, to, ds)) == ds
  {
    var n := Value(from, ds);
    DigitsStartNonZero(to, n);
    LeadingZerosAre(LeadingZeros(ds), Digits(to, n));
    ValueSkipsZeros(to, LeadingZeros(ds), Digits(to, n));
    ValueOfDigits(to, n);
    SplitNumeral(from, ds);
  }

  // ---------- lengths ----------

  function Pow(base: nat, e: nat): (n: nat)
    ensures base > 0 ==> n > 0
  {
    if e == 0 then 1 else base * Pow(base, e - 1)
  }

  // A value has at most k digits exactly when it is below base^k.
  lemma {:induction false} DigitCount(base: nat, n: nat, k: nat)
    requires base >= 2
    ensures |Digits(base, n)| <= k <==> n < Pow(base, k)
  {
    if n > 0 && k > 0 {
      DigitCount(base, n / base, k - 1);
      QuotientBelow(n, base, Pow(base, k - 1));
    }
  }

  lemma MulSucc(a: int, b: int)
    ensures (a + 1) * b == a * b + b
  {}

  lemma {:induction false} ValueBelowPow(base: nat, ds: seq<nat>)
    requires IsNumeral(base, ds)
    ensures Value(base, ds) < Pow(base, |ds|)
  {
    if ds != [] {
      var front := ds[..|ds| - 1];
      var v, p := Value(base, front), Pow(base, |front|);
      ValueBelowPow(base, front);
      assert ds[|ds| - 1] < base;
      MulSucc(v, base);
      MulLe(v + 1, p, base);
    }
  }

  // The first digit counts for its place.
  lemma {:induction false} ValueCons(base: nat, d: nat, ds: seq<nat>)
    ensures Value(base, [d] + ds) == d * Pow(base, |ds|) + Value(base, ds)
  {
    var all := [d] + ds;
    if ds == [] {
      assert all[..0] == [];
    } else {
      var front := ds[..|ds| - 1];
      ValueCons(base, d, front);
      assert all[..|all| - 1] == [d] + front;
      PlaceUp(d, Pow(base, |front|), Value(base, front), base);
    }
  }

  lemma PlaceUp(d: nat, p: nat, v: nat, base: nat)
    ensures (d * p + v) * base == d * (base * p) + v * base
  {
    MulAssoc(d, p, base);
  }

  lemma {:induction false} PowGrows(small: nat, big: nat, e: nat)
    requires small <= big
    ensures Pow(small, e) <= Pow(big, e)
  {
    if e > 0 {
      PowGrows(small, big, e - 1);
      MulLe(Pow(small, e - 1), Pow(big, e - 1), small);
      MulLe(small, big, Pow(big, e - 1));
    }
  }

  lemma {:induction false} PowAdd(base: nat, a: nat, b: nat)
    ensures Pow(base, a + b) == Pow(base, a) * Pow(base, b)
  {
    if a > 0 {
      PowAdd(base, a - 1, b);
      MulAssoc(base, Pow(base, a - 1), Pow(base, b));
    }
  }

  // A larger base never needs more digits.
  lemma RebaseToSmaller(from: nat, to: nat, ds: seq<nat>)
    requires 2 <= to <= from && IsNumeral(from, ds)
    ensures |Rebase(from, to, ds)| >= |ds|
  {
    var n := Value(from, ds);
    var k := |Digits(to, n)|;
    SplitNumeral(from, ds);
    DigitCount(to, n, k);
    PowGrows(to, from, k);
    DigitCount(from, n, k);
  }
}
