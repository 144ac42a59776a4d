// The text forms of a public key: base58 as printed, base58 or 64 hexadecimal
// digits as read.
module Key {
  import opened Bytes
  import Base58
  import Utf8

  datatype KeyError = BadBase58 | BadHex | WrongLength(len: nat)

  type Parsed = Result<Array32, KeyError>

  // ---------- hexadecimal ----------

  predicate IsHexDigit(c: char) {
    '0' <= c <= '9' || 'a' <= c <= 'f' || 'A' <= c <= 'F'
  }

  function HexValue(c: char): (v: nat)
    requires IsHexDigit(c)
    ensures v < 16
  {
    if '0' <= c <= '9' then c as int - '0' as int
    else if 'a' <= c <= 'f' then c as int - 'a' as int + 10
    else c as int - 'A' as int + 10
  }

  function HexChar(v: nat): char
    requires v < 16
  {
    if v < 10 then '0' + v as char else 'a' + (v - 10) as char
  }

  // `hex::decode`.
  function HexDecode(s: string): Option<seq<byte>> {
    if s == [] then Some([])
    else if |s| == 1 || !IsHexDigit(s[0]) || !IsHexDigit(s[1]) then None
    else
      match HexDecode(s[2..])
      case None => None
      case Some(b) => Some([HexValue(s[0]) * 16 + HexValue(s[1])] + b)
  }

  function HexEncode(b: seq<byte>): string {
    if b == [] then [] else [HexChar(b[0] / 16), HexChar(b[0] % 16)] + HexEncode(b[1..])
  }

  function Lower(c: char): char {
    if 'A' <= c <= 'Z' then c + ' ' else c
  }

  function LowerText(s: string): (r: string)
    ensures |r| == |s| && forall i :: 0 <= i < |s| ==> r[i] == Lower(s[i])
  {
    seq(|s|, i requires 0 <= i < |s| => Lower(s[i]))
  }

  // Only the 26 capital letters of ASCII change, each to its small letter.
  lemma LowerIsAscii(c: char)
    ensures forall i :: 0 <= i < 26 ==> Lower("ABCDEFGHIJKLMNOPQRSTUVWXYZ"[i]) == "abcdefghijklmnopqrstuvwxyz"[i]
    ensures c < 'A' || c > 'Z' ==> Lower(c) == c
  {}

  // A byte is spelt by its high digit, then its low one.
  lemma {:induction false} HexSpells(b: seq<byte>, i: nat)
    requires i < |b|
    ensures |HexEncode(b)| == 2 * |b|
    ensures HexEncode(b)[2 * i] == "0123456789abcdef"[b[i] / 16]
    ensures HexEncode(b)[2 * i + 1] == "0123456789abcdef"[b[i] % 16]
  {
    HexCharIs(b[0] / 16);
    HexCharIs(b[0] % 16);
    HexTwice(b);
    if i > 0 {
      HexSpells(b[1..], i - 1);
    }
  }

  lemma {:induction false} HexTwice(b: seq<byte>)
    ensures |HexEncode(b)| == 2 * |b|
  {
    if b != [] { HexTwice(b[1..]); }
  }

  lemma HexCharIs(v: nat)
    requires v < 16
    ensures HexChar(v) == "0123456789abcdef"[v]
  {}

  lemma HexPair(hi: char, lo: char, v: byte)
    ensures Lower(hi) == HexChar(v / 16) && Lower(lo) == HexChar(v % 16)
       <==> IsHexDigit(hi) && IsHexDigit(lo) && HexValue(hi) * 16 + HexValue(lo) == v
  {}

  // Hex text is read as exactly the bytes it spells, in either letter case.
  lemma {:induction false} HexExactly(s: string, b: seq<byte>)
    ensures HexDecode(s) == Some(b) <==> LowerText(s) == HexEncode(b)
  {
    var low := LowerText(s);
    if |s| >= 2 && b != [] {
      HexExactly(s[2..], b[1..]);
      HexPair(s[0], s[1], b[0]);
      assert low == [low[0], low[1]] + LowerText(s[2..]);
      assert b == [b[0]] + b[1..];
      assert HexEncode(b)[2..] == HexEncode(b[1..]);
      assert low[2..] == LowerText(s[2..]);
    }
  }

  lemma {:induction false} HexLength(s: string)
    ensures HexDecode(s).Some? <==> |s| % 2 == 0 && forall i :: 0 <= i < |s| ==> IsHexDigit(s[i])
    ensures HexDecode(s).Some? ==> 2 * |HexDecode(s).value| == |s|
  {
    if |s| >= 2 {
      HexLength(s[2..]);
      assert forall i :: 2 <= i < |s| ==> s[i] == s[2..][i - 2];
    }
  }

  // ---------- trimming ----------

  // The White_Space property of Unicode, which `str::trim` strips.
  predicate IsWhite(c: char) {
    var v := c as int;
    || 0x09 <= v <= 0x0D || v == 0x20 || v == 0x85 || v == 0xA0 || v == 0x1680
    || 0x2000 <= v <= 0x200A || v == 0x2028 || v == 0x2029 || v == 0x202F || v == 0x205F || v == 0x3000
  }

  // Tab to carriage return, space, next line, and the wider spaces and
  // separators: 25 characters in all.
  const WHITE_SPACE: seq<int> := [
    0x09, 0x0A, 0x0B, 0x0C, 0x0D, 0x20, 0x85, 0xA0, 0x1680,
    0x2000, 0x2001, 0x2002, 0x2003, 0x2004, 0x2005, 0x2006, 0x2007, 0x2008, 0x2009, 0x200A,
    0x2028, 0x2029, 0x202F, 0x205F, 0x3000]

  lemma WhiteExactly(c: char)
    ensures IsWhite(c) <==> exists i :: 0 <= i < |WHITE_SPACE| && WHITE_SPACE[i] == c as int
  {
    var v := c as int;
    if 0x09 <= v <= 0x0D { assert WHITE_SPACE[v - 0x09] == v; }
    if 0x2000 <= v <= 0x200A { assert WHITE_SPACE[v - 0x2000 + 9] == v; }
    assert WHITE_SPACE[5] == 0x20 && WHITE_SPACE[6] == 0x85 && WHITE_SPACE[7] == 0xA0 && WHITE_SPACE[8] == 0x1680;
    assert WHITE_SPACE[20] == 0x2028 && WHITE_SPACE[21] == 0x2029 && WHITE_SPACE[22] == 0x202F;
    assert WHITE_SPACE[23] == 0x205F && WHITE_SPACE[24] == 0x3000;
  }

  predicate AllWhite(s: string) {
    forall i :: 0 <= i < |s| ==> IsWhite(s[i])
  }

  function TrimStart(s: string): string {
    if s != [] && IsWhite(s[0]) then TrimStart(s[1..]) else s
  }

  function TrimEnd(s: string): string {
    if s != [] && IsWhite(s[|s| - 1]) then TrimEnd(s[..|s| - 1]) else s
  }

  function Trim(s: string): string {
    TrimEnd(TrimStart(s))
  }

  lemma {:induction false} TrimStartSplits(s: string)
    ensures var t := TrimStart(s);
            && |t| <= |s| && s == s[..|s| - |t|] + t && AllWhite(s[..|s| - |t|])
            && (t == "" || !IsWhite(t[0]))
  {
    hide IsWhite;
    if s != [] && IsWhite(s[0]) {
      TrimStartSplits(s[1..]);
      var t := TrimStart(s[1..]);
      assert s[..|s| - |t|] == [s[0]] + s[1..][..|s| - 1 - |t|];
    }
  }

  lemma {:induction false} TrimEndSplits(s: string)
    ensures var t := TrimEnd(s);
            && |t| <= |s| && s == t + s[|t|..] && AllWhite(s[|t|..])
            && (t == "" || !IsWhite(t[|t| - 1]))
  {
    hide IsWhite;
    if s != [] && IsWhite(s[|s| - 1]) {
      TrimEndSplits(s[..|s| - 1]);
      var t := TrimEnd(s[..|s| - 1]);
      assert s[|t|..] == s[..|s| - 1][|t|..] + [s[|s| - 1]];
    }
  }

  // Only what stands before the first solid character is affected.
  lemma {:induction false} TrimStartBefore(a: string, b: string)
    requires b != [] && !IsWhite(b[0])
    ensures TrimStart(a + b) == TrimStart(a) + b
    ensures AllWhite(a) ==> TrimStart(a) == ""
  {
    hide IsWhite;
    if a == [] {
      assert a + b == b;
    } else {
      assert (a + b)[1..] == a[1..] + b;
      TrimStartBefore(a[1..], b);
    }
  }

  lemma {:induction false} TrimEndAfter(a: string, b: string)
    requires a != [] && !IsWhite(a[|a| - 1])
    ensures TrimEnd(a + b) == a + TrimEnd(b)
    ensures AllWhite(b) ==> TrimEnd(b) == ""
  {
    hide IsWhite;
    if b == [] {
      assert a + b == a;
    } else {
      var s := a + b;
      assert s[..|s| - 1] == a + b[..|b| - 1];
      TrimEndAfter(a, b[..|b| - 1]);
    }
  }

  // A blank stays behind a text exactly when there is more than white space in
  // it; and likewise before one.
  lemma {:induction false} BlankAfter(a: string)
    ensures TrimStart(a + " ") == if AllWhite(a) then "" else TrimStart(a) + " "
  {
    assert IsWhite(' ');
    hide IsWhite;
    if a == "" {
      assert a + " " == " " && " "[1..] == "";
    } else {
      assert (a + " ")[1..] == a[1..] + " ";
      if IsWhite(a[0]) {
        BlankAfter(a[1..]);
        assert forall i :: 1 <= i < |a| ==> a[i] == a[1..][i - 1];
      }
    }
  }

  lemma {:induction false} BlankBefore(b: string)
    ensures TrimEnd(" " + b) == if AllWhite(b) then "" else " " + TrimEnd(b)
  {
    assert IsWhite(' ');
    hide IsWhite;
    var s := " " + b;
    if b == "" {
      assert s == " " && s[..0] == "";
    } else {
      assert s[..|s| - 1] == " " + b[..|b| - 1];
      if IsWhite(b[|b| - 1]) {
        BlankBefore(b[..|b| - 1]);
      }
    }
  }

  // A text without white space at its ends.
  predicate Neat(t: string) {
    t == "" || (!IsWhite(t[0]) && !IsWhite(t[|t| - 1]))
  }

  lemma TrimStrips(before: string, t: string, after: string)
    requires AllWhite(before) && AllWhite(after) && Neat(t)
    ensures Trim(before + t + after) == t
  {
    hide IsWhite, TrimStart, TrimEnd;
    if t == "" {
      TrimStartSplits(before + t + after);
      TrimEndSplits("");
    } else {
      assert before + t + after == before + (t + after);
      TrimStartBefore(before, t + after);
      assert "" + (t + after) == t + after;
      TrimEndAfter(t, after);
      assert t + "" == t;
    }
  }

  // Trimming gives the one neat text around which there is only white space.
  lemma TrimExactly(s: string, t: string)
    ensures Trim(s) == t <==> Neat(t) && exists before, after :: IsPadded(s, before, t, after)
  {
    hide IsWhite, TrimStart, TrimEnd, AllWhite;
    var middle := TrimStart(s);
    TrimStartSplits(s);
    TrimEndSplits(middle);
    var inner := TrimEnd(middle);
    var before, after := s[..|s| - |middle|], middle[|inner|..];
    assert IsPadded(s, before, inner, after);
    forall x, y | Neat(t) && IsPadded(s, x, t, y) ensures Trim(s) == t {
      TrimStrips(x, t, y);
    }
  }

  predicate IsPadded(s: string, before: string, t: string, after: string) {
    AllWhite(before) && AllWhite(after) && s == before + t + after
  }

  // ---------- keys ----------

  function FromSlice(raw: seq<byte>): Parsed {
    if |raw| != 32 then Err(WrongLength(|raw|)) else Ok(raw)
  }

  // `to_base58` and `Display`.
  function ToBase58(k: Array32): string {
    Base58.Encode(k)
  }

  function FromBase58(s: string): Parsed {
    match Base58.Decode(s)
    case None => Err(BadBase58)
    case Some(raw) => FromSlice(raw)
  }

  function FromHex(s: string): Parsed {
    match HexDecode(s)
    case None => Err(BadHex)
    case Some(raw) => FromSlice(raw)
  }

  predicate LooksHex(t: string) {
    |Utf8.Encode(t)| == 64 && forall i :: 0 <= i < |t| ==> IsHexDigit(t[i])
  }

  function FromStr(s: string): Parsed {
    var t := Trim(s);
    if LooksHex(t) then FromHex(t) else FromBase58(t)
  }

  lemma FromBase58Exactly(s: string, k: Array32)
    ensures FromBase58(s) == Ok(k) <==> s == ToBase58(k)
  {
    Base58.DecodeExactly(s, k);
  }

  lemma LooksHexLength(t: string)
    requires LooksHex(t)
    ensures |t| == 64
  {
    Utf8.ByteLength(t);
  }

  // The choice by shape never shuts out a meaning: a text that looks like hex
  // always reads as hex, and never names a key in base58.
  lemma ShapesAreDisjoint(t: string)
    requires LooksHex(t)
    ensures FromHex(t).Ok?
    ensures FromBase58(t).Err?
  {
    LooksHexLength(t);
    HexLength(t);
    if FromBase58(t).Ok? {
      Base58.KeyTextLength(t, FromBase58(t).value);
    }
  }

  // Exactly what is read as a key: its one base58 text, or its 64 hex digits
  // in any letter case, with white space around them.
  lemma FromStrExactly(s: string, k: Array32)
    ensures FromStr(s) == Ok(k)
       <==> Trim(s) == ToBase58(k) || LowerText(Trim(s)) == HexEncode(k)
  {
    var t := Trim(s);
    FromBase58Exactly(t, k);
    HexExactly(t, k);
    HexLength(t);
    if LooksHex(t) {
      ShapesAreDisjoint(t);
    } else if LowerText(t) == HexEncode(k) {
      Utf8.ByteLength(t);
    }
  }

  // Why a text is not a key: something in it is no base58 character, or it
  // stands for a number of bytes other than 32. Bad hex is never the reason.
  lemma FromStrRefuses(s: string)
    ensures var t := Trim(s);
            && (FromStr(s) == Err(BadBase58) <==> !LooksHex(t) && Base58.Decode(t) == None)
            && (forall n: nat :: FromStr(s) == Err(WrongLength(n)) <==>
                  n != 32 && !LooksHex(t) && exists b :: |b| == n && t == Base58.Encode(b))
            && FromStr(s) != Err(BadHex)
  {
    var t := Trim(s);
    if LooksHex(t) { ShapesAreDisjoint(t); }
    forall b ensures Base58.Decode(t) == Some(b) <==> t == Base58.Encode(b) {
      Base58.DecodeExactly(t, b);
    }
    hide LooksHex, Trim, Base58.Encode, Base58.Decode;
  }

  lemma FromHexExactly(s: string, k: Array32)
    ensures FromHex(s) == Ok(k) <==> LowerText(s) == HexEncode(k)
    ensures FromHex(s) == Err(BadHex) <==> !(|s| % 2 == 0 && forall i :: 0 <= i < |s| ==> IsHexDigit(s[i]))
    ensures forall n: nat :: FromHex(s) == Err(WrongLength(n)) <==> n != 32 && FromHex(s) != Err(BadHex) && |s| == 2 * n
  {
    HexExactly(s, k);
    HexLength(s);
    hide HexDecode, HexEncode, IsHexDigit;
  }

  lemma Base58HasNoWhite(k: Array32)
    ensures var t := ToBase58(k); t != [] && !IsWhite(t[0]) && !IsWhite(t[|t| - 1])
  {
    Base58.TextLength(k);
    Base58.DecodeExactly(ToBase58(k), k);
    assert Base58.IsText(ToBase58(k));
  }

  // What is printed is read back, also from within white space.
  lemma DisplayRoundTrip(before: string, k: Array32, after: string)
    requires AllWhite(before) && AllWhite(after)
    ensures FromStr(before + ToBase58(k) + after) == Ok(k)
    ensures FromStr(ToBase58(k)) == Ok(k)
  {
    Base58HasNoWhite(k);
    TrimStrips(before, ToBase58(k), after);
    TrimStrips("", ToBase58(k), "");
    assert "" + ToBase58(k) + "" == ToBase58(k);
    FromStrExactly(before + ToBase58(k) + after, k);
    FromStrExactly(ToBase58(k), k);
  }
}
