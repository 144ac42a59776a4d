// Base58 text of byte strings, standing in for the `bs58` library, whose body
// is not part of this model: the big-endian base-58 numeral over the Bitcoin
// alphabet, with one '1' for each leading zero byte.
module Base58 {
  import opened Bytes
  import opened Radix

  // 123456789ABCDEFGHJKLMNPQRSTUVWXYZabcdefghijkmnopqrstuvwxyz
  function CharOf(d: nat): char
    requires d < 58
  {
    if d < 9 then '1' + d as char
    else if d < 17 then 'A' + (d - 9) as char
    else if d < 22 then 'J' + (d - 17) as char
    else if d < 33 then 'P' + (d - 22) as char
    else if d < 44 then 'a' + (d - 33) as char
    else 'm' + (d - 44) as char
  }

  function DigitOf(c: char): (d: Option<nat>)
    ensures d.Some? ==> d.value < 58
  {
    if '1' <= c <= '9' then Some(c as int - '1' as int)
    else if 'A' <= c <= 'H' then Some(c as int - 'A' as int + 9)
    else if 'J' <= c <= 'N' then Some(c as int - 'J' as int + 17)
    else if 'P' <= c <= 'Z' then Some(c as int - 'P' as int + 22)
    else if 'a' <= c <= 'k' then Some(c as int - 'a' as int + 33)
    else if 'm' <= c <= 'z' then Some(c as int - 'm' as int + 44)
    else None
  }

  lemma AlphabetIsBijective(c: char, d: nat)
    ensures DigitOf(c) == Some(d) <==> d < 58 && CharOf(d) == c
  {}

  // The alphabet: digits and letters in the order of their code points, without
  // the four that are easily confused.
  lemma AlphabetIs(c: char, d: nat, e: nat)
    ensures d < e < 58 ==> CharOf(d) < CharOf(e)
    ensures DigitOf(c).Some? <==>
              ('0' <= c <= '9' || 'A' <= c <= 'Z' || 'a' <= c <= 'z') && c !in {'0', 'O', 'I', 'l'}
  {}

  predicate IsText(s: string) {
    forall i :: 0 <= i < |s| ==> DigitOf(s[i]).Some?
  }

  function DigitsOf(s: string): (ds: seq<nat>)
    requires IsText(s)
    ensures IsNumeral(58, ds)
  {
    seq(|s|, i requires 0 <= i < |s| => DigitOf(s[i]).value)
  }

  function TextOf(ds: seq<nat>): (s: string)
    requires IsNumeral(58, ds)
  {
    seq(|ds|, i requires 0 <= i < |ds| => CharOf(ds[i]))
  }

  function Encode(b: seq<byte>): string {
    TextOf(Rebase(256, 58, b))
  }

  function Decode(s: string): Option<seq<byte>> {
    if IsText(s) then Some(Narrow(Rebase(58, 256, DigitsOf(s)))) else None
  }

  function Narrow(ds: seq<nat>): (b: seq<byte>)
    requires IsNumeral(256, ds)
    ensures |b| == |ds| && forall i :: 0 <= i < |b| ==> b[i] == ds[i]
  {
    seq(|ds|, i requires 0 <= i < |ds| => ds[i] as byte)
  }

  lemma TextInverts(s: string, ds: seq<nat>)
    ensures IsText(s) ==> TextOf(DigitsOf(s)) == s
    ensures IsNumeral(58, ds) ==> IsText(TextOf(ds)) && DigitsOf(TextOf(ds)) == ds
  {
    if IsText(s) {
      forall i | 0 <= i < |s| ensures CharOf(DigitsOf(s)[i]) == s[i] {
        AlphabetIsBijective(s[i], DigitsOf(s)[i]);
      }
    }
    if IsNumeral(58, ds) {
      forall i | 0 <= i < |ds| ensures DigitOf(TextOf(ds)[i]) == Some(ds[i]) {
        AlphabetIsBijective(TextOf(ds)[i], ds[i]);
      }
    }
  }

  // Each byte string has exactly one base58 text, for any length and any
  // number of leading zero bytes.
  lemma DecodeExactly(s: string, b: seq<byte>)
    ensures Decode(s) == Some(b) <==> s == Encode(b)
  {
    if s == Encode(b) {
      var ds := Rebase(256, 58, b);
      TextInverts(s, ds);
      RebaseInverts(256, 58, b);
      assert Narrow(Rebase(58, 256, ds)) == b;
    }
    if Decode(s) == Some(b) {
      TextInverts(s, []);
      RebaseInverts(58, 256, DigitsOf(s));
      var bytes: seq<nat> := Rebase(58, 256, DigitsOf(s));
      assert b == bytes;
    }
  }

  // The text of a byte string is the base-58 numeral of its base-256 value, most
  // significant digit first, with a digit zero for each leading zero byte.
  lemma EncodeExactly(s: string, b: seq<byte>)
    ensures s == Encode(b) <==>
              && IsText(s)
              && Value(58, DigitsOf(s)) == Value(256, b) && LeadingZeros(DigitsOf(s)) == LeadingZeros(b)
  {
    var ds := Rebase(256, 58, b);
    TextInverts(s, ds);
    RebaseExactly(256, 58, b, ds);
    if IsText(s) { RebaseExactly(256, 58, b, DigitsOf(s)); }
    hide Value, LeadingZeros, Rebase, CharOf, DigitOf;
  }

  // ---------- lengths ----------

  lemma Pow256Below58()
    ensures Pow(256, 32) <= Pow(58, 44)
  {
    var p, q := Pow(256, 8), Pow(58, 11);
    assert p <= q by { Pow256To8(); Pow58To11(); }
    PowAdd(256, 8, 8);
    PowAdd(256, 16, 16);
    PowAdd(58, 11, 11);
    PowAdd(58, 22, 22);
    Squares(p, q);
    Squares(p * p, q * q);
  }

  lemma Squares(p: nat, q: nat)
    requires p <= q
    ensures p * p <= q * q
  {
    MulLe(p, q, p);
    MulLe(p, q, q);
  }

  lemma Pow256To8()
    ensures Pow(256, 8) == 0x1_0000_0000_0000_0000
  {
    assert Pow(256, 4) == 0x1_0000_0000;
    PowAdd(256, 4, 4);
  }

  lemma Pow58To11()
    ensures Pow(58, 11) == 24986644000165537792
  {
    assert Pow(58, 5) == 656356768;
    assert Pow(58, 6) == 38068692544;
    PowAdd(58, 5, 6);
  }

  // Twelve more base-58 digits than bytes are enough, up to 32 bytes.
  lemma {:induction false} TwelveMoreDigits(k: nat)
    requires k <= 32
    ensures Pow(256, k) <= Pow(58, k + 12)
    decreases 32 - k
  {
    if k == 32 {
      Pow256Below58();
    } else {
      TwelveMoreDigits(k + 1);
      var p, q := Pow(256, k), Pow(58, k + 12);
      assert 256 * p <= 58 * q;
    }
  }

  lemma TextLength(b: seq<byte>)
    ensures |b| <= |Encode(b)|
    ensures |b| <= 32 ==> |Encode(b)| <= |b| + 12
  {
    hide Value, Pow, Digits, LeadingZeros;
    RebaseToSmaller(256, 58, b);
    if |b| <= 32 {
      var n, z := Value(256, b), LeadingZeros(b);
      SplitNumeral(256, b);
      DigitCount(256, n, |b| - z);
      TwelveMoreDigits(|b| - z);
      DigitCount(58, n, |b| - z + 12);
    }
  }

  // A 32-byte key has 32 to 44 characters, and no longer text names one.
  lemma KeyTextLength(s: string, b: seq<byte>)
    requires Decode(s) == Some(b)
    ensures |b| == 32 ==> 32 <= |s| <= 44
    ensures |s| > 44 ==> |b| > 32
  {
    DecodeExactly(s, b);
    TextLength(b);
  }
}
