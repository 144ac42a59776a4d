// What a software identity file says and how it is read back, in plain text or
// sealed under a passphrase. Argon2id and ChaCha20-Poly1305 are parameters;
// randomness and the file system are passed in.
module Identity {
  import opened Bytes
  import Base58
  import Layout
  import Radix
  import Key
  import Utf8
  import opened Signing

  const ENC_HEADER := "SQNR-ED25519-ENCRYPTED-KEY"
  const PLAIN_HEADER := "SQNR-ED25519-PRIVATE-KEY"

  datatype IdentityError =
    | AlreadyExists | CannotRead | NotAnIdentity | MissingData | MissingPublic | BadPublicLine
    | PassphraseRequired | UnknownHeader | BadBase58 | BlobTooShort | KdfFailed | SealFailed
    | DecryptionFailed | WrongSeedLength | Inconsistent | WriteFailed | ChmodFailed

  // Memory KiB, iterations, parallelism.
  datatype Costs = Costs(m: nat, t: nat, p: nat)

  const ARGON_COSTS := Costs(65536, 3, 4)

  type Salt = b: seq<byte> | |b| == 16 witness seq(16, _ => 0)
  type SealNonce = b: seq<byte> | |b| == 12 witness seq(12, _ => 0)

  datatype Sealing = Sealing(
    kdf: (Costs, seq<byte>, Salt) -> Option<Array32>,
    seal: (Array32, SealNonce, seq<byte>) -> Option<seq<byte>>,
    open: (Array32, SealNonce, seq<byte>) -> Option<seq<byte>>)
  {
    // Opening what was sealed under the same key and nonce gives it back.
    ghost predicate Correct() {
      forall k: Array32, n: SealNonce, m: seq<byte> ::
        seal(k, n, m).Some? ==> open(k, n, seal(k, n, m).value) == Some(m)
    }
  }

  // ---------- lines ----------

  function LineEnd(s: string): (i: nat)
    ensures i <= |s| && (i < |s| ==> s[i] == '\n') && '\n' !in s[..i]
  {
    if s == [] || s[0] == '\n' then 0
    else
      var i := 1 + LineEnd(s[1..]);
      assert s[..i] == [s[0]] + s[1..][..i - 1];
      i
  }

  // One step of `str::lines`: a line loses its newline, and a carriage return
  // just before it; the last line may have neither.
  function NextLine(s: string): Option<(string, string)> {
    if s == [] then None
    else
      var i := LineEnd(s);
      if i == |s| then Some((s, ""))
      else Some((if i > 0 && s[i - 1] == '\r' then s[..i - 1] else s[..i], s[i + 1..]))
  }

  lemma EndingAt(s: string, i: nat)
    requires i < |s| && s[i] == '\n'
    ensures s == s[..i] + "\n" + s[i + 1..]
    ensures i > 0 && s[i - 1] == '\r' ==> s == s[..i - 1] + "\r\n" + s[i + 1..]
  {}

  // A line is the text up to a line ending and never holds one, nor the carriage
  // return of one; nothing but the ending is lost.
  lemma NextLineTakesOneLine(s: string)
    ensures match NextLine(s)
            case None => s == ""
            case Some((line, rest)) =>
              && '\n' !in line
              && (|| (s == line + "\n" + rest && (line == "" || line[|line| - 1] != '\r'))
                  || s == line + "\r\n" + rest
                  || (s == line != "" && rest == ""))
  {
    if s != [] {
      var i := LineEnd(s);
      assert '\n' !in s[..i];
      hide LineEnd;
      if i < |s| {
        EndingAt(s, i);
        if i > 0 { assert s[..i - 1] == s[..i][..i - 1]; }
      }
    }
  }

  // All the lines of a text.
  function AllLines(s: string): seq<string>
    decreases |s|
  {
    match NextLine(s)
    case None => []
    case Some((line, rest)) => if |rest| < |s| then [line] + AllLines(rest) else [line]
  }

  class Lines {
    var rest: string

    constructor (text: string)
      ensures rest == text
    {
      rest := text;
    }

    method Next() returns (line: Option<string>)
      modifies this
      ensures match NextLine(old(rest))
              case None => line == None && rest == old(rest)
              case Some((l, r)) => line == Some(l) && rest == r
    {
      match NextLine(rest) {
        case None => line := None;
        case Some((l, r)) =>
          rest := r;
          line := Some(l);
      }
    }
  }

  // The three lines as trimmed text.
  datatype Fields = Fields(header: string, data: string, public: string)

  function ParseFields(content: string): Result<Fields, IdentityError> {
    var first := NextLine(content);
    var header := Key.Trim(if first.Some? then first.value.0 else "");
    if header != ENC_HEADER && header != PLAIN_HEADER then Err(NotAnIdentity) else
    var second := NextLine(if first.Some? then first.value.1 else content);
    if second.None? then Err(MissingData) else
    var third := NextLine(second.value.1);
    if third.None? then Err(MissingPublic) else
    Ok(Fields(header, Key.Trim(second.value.0), Key.Trim(third.value.0)))
  }

  predicate IsHeader(s: string) {
    s == "SQNR-ED25519-ENCRYPTED-KEY" || s == "SQNR-ED25519-PRIVATE-KEY"
  }

  lemma LinesAre(s: string)
    ensures match NextLine(s)
            case None => AllLines(s) == []
            case Some((line, rest)) => AllLines(s) == [line] + AllLines(rest)
  {
    if NextLine(s).Some? {
      NextLineTakesOneLine(s);
      assert |NextLine(s).value.1| < |s|;
    }
  }

  // What reading the file gives, by its lines: a known header on the first, the
  // key data on the second and the public key on the third, all trimmed, and
  // whatever follows ignored; or the first of these that is missing.
  lemma FieldsExactly(content: string, header: string, data: string, public: string)
    ensures var lines := AllLines(content);
            var known := lines != [] && IsHeader(Key.Trim(lines[0]));
            && (ParseFields(content) == Err(NotAnIdentity) <==> !known)
            && (ParseFields(content) == Err(MissingData) <==> known && |lines| == 1)
            && (ParseFields(content) == Err(MissingPublic) <==> known && |lines| == 2)
            && (ParseFields(content) == Ok(Fields(header, data, public)) <==>
                  && known && |lines| >= 3
                  && header == Key.Trim(lines[0]) && data == Key.Trim(lines[1]) && public == Key.Trim(lines[2]))
  {
    BlankIsNoHeader();
    hide NextLine, AllLines, Key.Trim, IsHeader;
    HeadersAre();
    LinesAre(content);
    if NextLine(content).Some? {
      var rest := NextLine(content).value.1;
      LinesAre(rest);
      if NextLine(rest).Some? {
        LinesAre(NextLine(rest).value.1);
      }
    }
  }

  lemma HeadersAre()
    ensures forall s :: IsHeader(s) <==> s == ENC_HEADER || s == PLAIN_HEADER
  {}

  lemma BlankIsNoHeader()
    ensures !IsHeader(Key.Trim(""))
  {
    assert Key.Trim("") == "";
  }

  method ReadLines(content: string) returns (r: Result<Fields, IdentityError>)
    ensures r == ParseFields(content)
  {
    var lines := new Lines(content);
    var first := lines.Next();
    var header := Key.Trim(if first.Some? then first.value else "");
    if header != ENC_HEADER && header != PLAIN_HEADER {
      return Err(NotAnIdentity);
    }
    var data := lines.Next();
    if data.None? {
      return Err(MissingData);
    }
    var public := lines.Next();
    if public.None? {
      return Err(MissingPublic);
    }
    r := Ok(Fields(header, Key.Trim(data.value), Key.Trim(public.value)));
  }

  function FileText(header: string, data: string, public: Array32): string {
    header + "\n" + data + "\n" + Key.ToBase58(public) + "\n"
  }

  // ---------- the sealed seed ----------

  // The cost triple travels in the blob, so that a later change of the costs in
  // use leaves old files readable.
  function Blob(costs: Costs, salt: Salt, nonce: SealNonce, ciphertext: seq<byte>): seq<byte> {
    U32Bytes(costs.m) + U32Bytes(costs.t) + U32Bytes(costs.p) + salt + nonce + ciphertext
  }

  function SealSeed(
      c: Sealing, costs: Costs, seed: Array32, passphrase: string, salt: Salt, nonce: SealNonce)
    : Result<string, IdentityError>
  {
    match c.kdf(costs, Utf8.Encode(passphrase), salt)
    case None => Err(KdfFailed)
    case Some(key) =>
      match c.seal(key, nonce, seed)
      case None => Err(SealFailed)
      case Some(ciphertext) => Ok(Base58.Encode(Blob(costs, salt, nonce, ciphertext)))
  }

  method EncryptSeed(c: Sealing, seed: Array32, passphrase: string, salt: Salt, nonce: SealNonce)
    returns (r: Result<string, IdentityError>)
    ensures r == SealSeed(c, ARGON_COSTS, seed, passphrase, salt, nonce)
  {
    var derived := c.kdf(ARGON_COSTS, Utf8.Encode(passphrase), salt);
    if derived.None? {
      return Err(KdfFailed);
    }
    var sealed := c.seal(derived.value, nonce, seed);
    if sealed.None? {
      return Err(SealFailed);
    }
    var out := U32Bytes(ARGON_COSTS.m);
    out := out + U32Bytes(ARGON_COSTS.t);
    out := out + U32Bytes(ARGON_COSTS.p);
    out := out + salt;
    out := out + nonce;
    out := out + sealed.value;
    r := Ok(Base58.Encode(out));
  }

  function OpenSeed(c: Sealing, text: string, passphrase: string): Result<Array32, IdentityError> {
    match Base58.Decode(text)
    case None => Err(BadBase58)
    case Some(data) =>
      if |data| < 40 then Err(BlobTooShort) else
      var costs := Costs(U32Value(data[0..4]), U32Value(data[4..8]), U32Value(data[8..12]));
      match c.kdf(costs, Utf8.Encode(passphrase), data[12..28])
      case None => Err(KdfFailed)
      case Some(key) =>
        match c.open(key, data[28..40], data[40..])
        case None => Err(DecryptionFailed)
        case Some(seed) => if |seed| != 32 then Err(WrongSeedLength) else Ok(seed)
  }

  function DecodePlaintext(text: string): Result<Array32, IdentityError> {
    match Base58.Decode(text)
    case None => Err(BadBase58)
    case Some(seed) => if |seed| != 32 then Err(WrongSeedLength) else Ok(seed)
  }

  // What a sealed seed is made of: the cost triple in use as three words, the
  // salt, the nonce, and the seed sealed under the key derived from the bytes of
  // the passphrase and that salt.
  lemma SealExactly(
      c: Sealing, seed: Array32, passphrase: string, salt: Salt, nonce: SealNonce, text: string)
    ensures SealSeed(c, ARGON_COSTS, seed, passphrase, salt, nonce) == Ok(text) <==>
              exists key: Array32, ct: seq<byte> ::
                && c.kdf(Costs(65536, 3, 4), Utf8.Encode(passphrase), salt) == Some(key)
                && c.seal(key, nonce, seed) == Some(ct)
                && text == Base58.Encode([0, 1, 0, 0] + [0, 0, 0, 3] + [0, 0, 0, 4] + salt + nonce + ct)
  {
    CostWords();
    hide Base58.Encode, Utf8.Encode, U32Bytes;
  }

  // Sealing fails as the derivation or the cipher does.
  lemma SealRefuses(c: Sealing, costs: Costs, seed: Array32, passphrase: string, salt: Salt, nonce: SealNonce)
    ensures var r, key := SealSeed(c, costs, seed, passphrase, salt, nonce), c.kdf(costs, Utf8.Encode(passphrase), salt);
            && (r == Err(KdfFailed) <==> key == None)
            && (r == Err(SealFailed) <==> key.Some? && c.seal(key.value, nonce, seed) == None)
  {
    hide Utf8.Encode, Base58.Encode, Blob;
  }

  lemma CostWords()
    ensures U32Bytes(ARGON_COSTS.m) == [0, 1, 0, 0]
    ensures U32Bytes(ARGON_COSTS.t) == [0, 0, 0, 3] && U32Bytes(ARGON_COSTS.p) == [0, 0, 0, 4]
  {}

  // The parts of a blob of at least 40 bytes, the words as big-endian numerals.
  function BlobCostsOf(data: seq<byte>): Costs
    requires |data| >= 40
  {
    Costs(Radix.Value(256, data[0..4]), Radix.Value(256, data[4..8]), Radix.Value(256, data[8..12]))
  }

  // A sealed seed is opened exactly when the text is base58 of a long enough
  // blob, and the key derived from the passphrase under the blob's own costs and
  // salt opens the rest to 32 bytes.
  lemma OpenExactly(c: Sealing, text: string, passphrase: string, seed: Array32)
    ensures OpenSeed(c, text, passphrase) == Ok(seed) <==>
              exists data: seq<byte>, key: Array32 ::
                text == Base58.Encode(data) && Opens(c, data, key, passphrase, seed)
  {
    NoBase58(text);
    hide Base58.Decode, Base58.Encode, Opens;
    if Base58.Decode(text).Some? {
      OpenBlob(c, text, Base58.Decode(text).value, passphrase, seed);
    }
  }

  ghost predicate Opens(c: Sealing, data: seq<byte>, key: Array32, passphrase: string, seed: Array32) {
    && |data| >= 40
    && c.kdf(BlobCostsOf(data), Utf8.Encode(passphrase), data[12..28]) == Some(key)
    && c.open(key, data[28..40], data[40..]) == Some(seed)
  }

  lemma OpenBlob(c: Sealing, text: string, data: seq<byte>, passphrase: string, seed: Array32)
    requires Base58.Decode(text) == Some(data)
    ensures OpenSeed(c, text, passphrase) == Ok(seed) <==> exists key :: Opens(c, data, key, passphrase, seed)
  {
    if |data| >= 40 {
      Layout.WordReads(data[0..4]);
      Layout.WordReads(data[4..8]);
      Layout.WordReads(data[8..12]);
      var derived := c.kdf(BlobCostsOf(data), Utf8.Encode(passphrase), data[12..28]);
      hide Base58.Decode, Utf8.Encode, U32Value, Radix.Value;
      if derived.Some? && OpenSeed(c, text, passphrase) == Ok(seed) {
        assert Opens(c, data, derived.value, passphrase, seed);
      }
    }
  }

  // Any passphrase tried on a sealed seed counts by the key derived from it: it
  // opens the seed exactly when that key opens what was sealed, and is refused
  // as wrong exactly when it does not.
  lemma OtherPassphrase(
      c: Sealing, costs: Costs, salt: Salt, nonce: SealNonce, ct: seq<byte>, other: string, seed: Array32)
    requires costs.m < U32_SIZE && costs.t < U32_SIZE && costs.p < U32_SIZE
    ensures var r := OpenSeed(c, Base58.Encode(Blob(costs, salt, nonce, ct)), other);
            match c.kdf(costs, Utf8.Encode(other), salt)
            case None => r == Err(KdfFailed)
            case Some(key) =>
              && (r == Ok(seed) <==> c.open(key, nonce, ct) == Some(seed))
              && (r == Err(DecryptionFailed) <==> c.open(key, nonce, ct) == None)
              && (r == Err(WrongSeedLength) <==> c.open(key, nonce, ct).Some? && |c.open(key, nonce, ct).value| != 32)
  {
    var data := Blob(costs, salt, nonce, ct);
    Base58.DecodeExactly(Base58.Encode(data), data);
    BlobCosts(costs, salt, nonce, ct);
    BlobParts(costs, salt, nonce, ct);
    hide Blob, U32Value, U32Bytes, Base58.Decode, Base58.Encode, Utf8.Encode;
  }

  // Text that is no base58, and a blob too short to hold its parts, are told apart.
  lemma OpenRefuses(c: Sealing, text: string, passphrase: string)
    ensures OpenSeed(c, text, passphrase) == Err(BadBase58) <==> forall data :: text != Base58.Encode(data)
    ensures OpenSeed(c, text, passphrase) == Err(BlobTooShort) <==> exists data :: |data| < 40 && text == Base58.Encode(data)
  {
    NoBase58(text);
    hide Base58.Decode, Base58.Encode, Utf8.Encode, U32Value;
  }

  lemma NoBase58(text: string)
    ensures forall data :: Base58.Decode(text) == Some(data) <==> text == Base58.Encode(data)
    ensures Base58.Decode(text) == None <==> forall data :: text != Base58.Encode(data)
  {
    forall data ensures Base58.Decode(text) == Some(data) <==> text == Base58.Encode(data) {
      Base58.DecodeExactly(text, data);
    }
    hide Base58.Decode, Base58.Encode;
    if Base58.Decode(text).Some? {
      assert text == Base58.Encode(Base58.Decode(text).value);
    }
  }

  // ---------- the file ----------

  // What `generate` writes, with the cost triple left open.
  function NewIdentity(
      p: Primitives, c: Sealing, costs: Costs, seed: Array32, passphrase: Option<string>,
      salt: Salt, nonce: SealNonce)
    : Result<string, IdentityError>
  {
    match passphrase
    case None => Ok(FileText(PLAIN_HEADER, Base58.Encode(seed), p.public(seed)))
    case Some(pp) =>
      var data :- SealSeed(c, costs, seed, pp, salt, nonce);
      Ok(FileText(ENC_HEADER, data, p.public(seed)))
  }

  function IsEncrypted(content: string): Result<bool, IdentityError> {
    var fields :- ParseFields(content);
    Ok(fields.header == ENC_HEADER)
  }

  function ReadPublic(content: string): Result<Array32, IdentityError> {
    var fields :- ParseFields(content);
    match Key.FromBase58(fields.public)
    case Err(_) => Err(BadPublicLine)
    case Ok(k) => Ok(k)
  }

  // The signer is named by its seed.
  function Load(p: Primitives, c: Sealing, content: string, passphrase: Option<string>)
    : Result<Array32, IdentityError>
  {
    var fields :- ParseFields(content);
    var seed :- LoadSeed(c, fields, passphrase);
    match Key.FromBase58(fields.public)
    case Err(_) => Err(BadPublicLine)
    case Ok(stored) => if p.public(seed) != stored then Err(Inconsistent) else Ok(seed)
  }

  function LoadSeed(c: Sealing, fields: Fields, passphrase: Option<string>): Result<Array32, IdentityError> {
    if fields.header == ENC_HEADER then
      match passphrase
      case None => Err(PassphraseRequired)
      case Some(pp) => OpenSeed(c, fields.data, pp)
    else if fields.header == PLAIN_HEADER then DecodePlaintext(fields.data)
    else Err(UnknownHeader)
  }

  // ---------- reading back what was written ----------

  predicate Printable(s: string) {
    forall i :: 0 <= i < |s| ==> !Key.IsWhite(s[i])
  }

  lemma Base58Printable(b: seq<byte>)
    ensures Printable(Base58.Encode(b))
  {
    Base58.DecodeExactly(Base58.Encode(b), b);
    assert Base58.IsText(Base58.Encode(b));
  }

  lemma {:induction false} LineEndOf(line: string, rest: string)
    requires Printable(line)
    ensures LineEnd(line + "\n" + rest) == |line|
  {
    var s := line + "\n" + rest;
    if line != [] {
      assert s[1..] == line[1..] + "\n" + rest;
      LineEndOf(line[1..], rest);
    }
  }

  lemma NextLineOf(line: string, rest: string)
    requires Printable(line)
    ensures NextLine(line + "\n" + rest) == Some((line, rest))
    ensures Key.Trim(line) == line
  {
    var s := line + "\n" + rest;
    LineEndOf(line, rest);
    assert s[..|line|] == line && s[|line| + 1..] == rest;
  }

  lemma HeadersPrintable()
    ensures Printable(ENC_HEADER) && Printable(PLAIN_HEADER)
  {}

  lemma FileTextSplit(header: string, data: string, public: Array32)
    ensures FileText(header, data, public)
         == header + "\n" + (data + "\n" + (Key.ToBase58(public) + "\n" + ""))
  {}

  lemma ParseFieldsOf(header: string, data: string, public: Array32)
    requires header == ENC_HEADER || header == PLAIN_HEADER
    requires Printable(data)
    ensures ParseFields(FileText(header, data, public)) == Ok(Fields(header, data, Key.ToBase58(public)))
  {
    hide NextLine, FileText, Key.Trim, Key.ToBase58;
    var third := Key.ToBase58(public);
    var r2 := third + "\n" + "";
    var r1 := data + "\n" + r2;
    FileTextSplit(header, data, public);
    HeadersPrintable();
    KeyPrintable(public);
    NextLineOf(header, r1);
    NextLineOf(data, r2);
    NextLineOf(third, "");
  }

  lemma KeyPrintable(public: Array32)
    ensures Printable(Key.ToBase58(public))
  {
    Base58Printable(public);
  }

  lemma BlobParts(costs: Costs, salt: Salt, nonce: SealNonce, ct: seq<byte>)
    ensures var data := Blob(costs, salt, nonce, ct);
            && |data| >= 40
            && data[0..4] == U32Bytes(costs.m) && data[4..8] == U32Bytes(costs.t)
            && data[8..12] == U32Bytes(costs.p)
            && data[12..28] == salt && data[28..40] == nonce && data[40..] == ct
  {}

  lemma OpenInvertsSeal(
      c: Sealing, costs: Costs, seed: Array32, passphrase: string, salt: Salt, nonce: SealNonce)
    requires c.Correct() && costs.m < U32_SIZE && costs.t < U32_SIZE && costs.p < U32_SIZE
    requires SealSeed(c, costs, seed, passphrase, salt, nonce).Ok?
    ensures var text := SealSeed(c, costs, seed, passphrase, salt, nonce).value;
            OpenSeed(c, text, passphrase) == Ok(seed) && Printable(text)
  {
    var key := c.kdf(costs, Utf8.Encode(passphrase), salt).value;
    var ct := c.seal(key, nonce, seed).value;
    var data := Blob(costs, salt, nonce, ct);
    assert Base58.Decode(Base58.Encode(data)) == Some(data) by {
      Base58.DecodeExactly(Base58.Encode(data), data);
    }
    Base58Printable(data);
    BlobCosts(costs, salt, nonce, ct);
    BlobParts(costs, salt, nonce, ct);
    assert c.open(key, nonce, ct) == Some(seed);
    hide Blob, U32Bytes, U32Value, Base58.Decode, Base58.Encode;
  }

  lemma BlobCosts(costs: Costs, salt: Salt, nonce: SealNonce, ct: seq<byte>)
    requires costs.m < U32_SIZE && costs.t < U32_SIZE && costs.p < U32_SIZE
    ensures var data := Blob(costs, salt, nonce, ct);
            |data| >= 40
            && Costs(U32Value(data[0..4]), U32Value(data[4..8]), U32Value(data[8..12])) == costs
  {
    BlobParts(costs, salt, nonce, ct);
    U32ValueOfBytes(costs.m);
    U32ValueOfBytes(costs.t);
    U32ValueOfBytes(costs.p);
    hide Blob, U32Bytes, U32Value;
  }

  // For every seed, passphrase choice, salt, nonce and recorded cost triple:
  // the file names its form, gives the public key without the passphrase, and
  // loads to the same signer; a sealed file is of no use without a passphrase.
  lemma FileRoundTrip(
      p: Primitives, c: Sealing, costs: Costs, seed: Array32, passphrase: Option<string>,
      salt: Salt, nonce: SealNonce, other: Option<string>)
    requires c.Correct() && costs.m < U32_SIZE && costs.t < U32_SIZE && costs.p < U32_SIZE
    requires NewIdentity(p, c, costs, seed, passphrase, salt, nonce).Ok?
    ensures var content := NewIdentity(p, c, costs, seed, passphrase, salt, nonce).value;
            && IsEncrypted(content) == Ok(passphrase.Some?)
            && ReadPublic(content) == Ok(p.public(seed))
            && Load(p, c, content, passphrase) == Ok(seed)
            && (passphrase.Some? ==> Load(p, c, content, None) == Err(PassphraseRequired))
            && (passphrase.None? ==> Load(p, c, content, other) == Ok(seed))
  {
    var public := p.public(seed);
    Key.FromBase58Exactly(Key.ToBase58(public), public);
    match passphrase {
      case None =>
        Base58Printable(seed);
        Base58.DecodeExactly(Base58.Encode(seed), seed);
        ParseFieldsOf(PLAIN_HEADER, Base58.Encode(seed), public);
      case Some(pp) =>
        OpenInvertsSeal(c, costs, seed, pp, salt, nonce);
        ParseFieldsOf(ENC_HEADER, SealSeed(c, costs, seed, pp, salt, nonce).value, public);
    }
  }

  // The file reads, line by line: the header of its form, the seed in base58 or
  // sealed, and the public key in base58.
  lemma FileReads(
      p: Primitives, c: Sealing, costs: Costs, seed: Array32, passphrase: Option<string>,
      salt: Salt, nonce: SealNonce)
    ensures var r := NewIdentity(p, c, costs, seed, passphrase, salt, nonce);
            var public := Base58.Encode(p.public(seed));
            match passphrase
            case None =>
              r == Ok("SQNR-ED25519-PRIVATE-KEY" + "\n" + Base58.Encode(seed) + "\n" + public + "\n")
            case Some(pp) =>
              match SealSeed(c, costs, seed, pp, salt, nonce)
              case Err(e) => r == Err(e)
              case Ok(data) => r == Ok("SQNR-ED25519-ENCRYPTED-KEY" + "\n" + data + "\n" + public + "\n")
  {
    hide Base58.Encode, SealSeed;
  }

  // Exactly when a file loads: its seed opens, by the form its header names, and
  // the public key it shows is the one of that seed.
  lemma LoadExactly(p: Primitives, c: Sealing, content: string, passphrase: Option<string>, seed: Array32)
    ensures Load(p, c, content, passphrase) == Ok(seed) <==>
              && ParseFields(content).Ok?
              && var f := ParseFields(content).value;
                 && f.public == Base58.Encode(p.public(seed))
                 && (if f.header == "SQNR-ED25519-ENCRYPTED-KEY"
                     then passphrase.Some? && OpenSeed(c, f.data, passphrase.value) == Ok(seed)
                     else f.data == Base58.Encode(seed))
  {
    hide ParseFields, OpenSeed, DecodePlaintext, Key.FromBase58, Base58.Encode;
    if ParseFields(content).Ok? {
      var f := ParseFields(content).value;
      HeaderOfFields(content);
      PlainExactly(f.data, seed);
      Key.FromBase58Exactly(f.public, p.public(seed));
    }
  }

  // It is inconsistent exactly when it names another key than that of its seed.
  lemma InconsistentExactly(p: Primitives, c: Sealing, content: string, passphrase: Option<string>)
    ensures Load(p, c, content, passphrase) == Err(Inconsistent) <==>
              && ParseFields(content).Ok?
              && var f := ParseFields(content).value;
                 && LoadSeed(c, f, passphrase).Ok?
                 && exists k: Array32 :: f.public == Base58.Encode(k) && k != p.public(LoadSeed(c, f, passphrase).value)
  {
    ParseErrors(content);
    hide ParseFields, LoadSeed, Key.FromBase58, Base58.Encode;
    if ParseFields(content).Ok? {
      var f := ParseFields(content).value;
      NamedKeys(f.public);
      SeedErrors(c, f, passphrase);
    }
  }

  lemma ParseErrors(content: string)
    ensures ParseFields(content) != Err(Inconsistent)
  {
    hide NextLine, Key.Trim;
  }

  lemma NamedKeys(text: string)
    ensures forall k: Array32 :: Key.FromBase58(text) == Ok(k) <==> text == Base58.Encode(k)
  {
    forall k: Array32 ensures Key.FromBase58(text) == Ok(k) <==> text == Base58.Encode(k) {
      Key.FromBase58Exactly(text, k);
    }
  }

  // What a file shows without its passphrase: its form by the header, and the
  // public key on its third line or that there is none there.
  lemma ShownExactly(content: string, k: Array32)
    requires ParseFields(content).Ok?
    ensures var f := ParseFields(content).value;
            && IsEncrypted(content) == Ok(f.header == "SQNR-ED25519-ENCRYPTED-KEY")
            && (ReadPublic(content) == Ok(k) <==> f.public == Base58.Encode(k))
            && (ReadPublic(content) == Err(BadPublicLine) <==> forall key: Array32 :: f.public != Base58.Encode(key))
  {
    hide ParseFields, Key.FromBase58, Base58.Encode;
    NamedKeys(ParseFields(content).value.public);
    if ReadPublic(content).Ok? {
      assert ParseFields(content).value.public == Base58.Encode(ReadPublic(content).value);
    }
  }

  lemma HeaderOfFields(content: string)
    requires ParseFields(content).Ok?
    ensures var h := ParseFields(content).value.header; h == ENC_HEADER || h == PLAIN_HEADER
  {
    hide NextLine, Key.Trim;
  }

  lemma PlainExactly(data: string, seed: Array32)
    ensures DecodePlaintext(data) == Ok(seed) <==> data == Base58.Encode(seed)
  {
    Base58.DecodeExactly(data, seed);
    hide Base58.Decode, Base58.Encode;
  }

  lemma PlainRefuses(data: string)
    ensures DecodePlaintext(data) == Err(BadBase58) <==> forall b :: data != Base58.Encode(b)
    ensures DecodePlaintext(data) == Err(WrongSeedLength) <==> exists b :: |b| != 32 && data == Base58.Encode(b)
  {
    NoBase58(data);
    hide Base58.Decode, Base58.Encode;
  }

  // Why a file does not load, in this order: it does not read as an identity; a
  // sealed seed is given no passphrase, or does not open; a bare one is no base58
  // or has another length; or the third line holds no key.
  lemma LoadRefuses(p: Primitives, c: Sealing, content: string, passphrase: Option<string>)
    ensures var r := Load(p, c, content, passphrase);
            match ParseFields(content)
            case Err(e) => r == Err(e) && IsEncrypted(content) == Err(e) && ReadPublic(content) == Err(e)
            case Ok(f) =>
              if f.header == "SQNR-ED25519-ENCRYPTED-KEY" && passphrase == None then r == Err(PassphraseRequired)
              else if f.header == "SQNR-ED25519-ENCRYPTED-KEY" && OpenSeed(c, f.data, passphrase.value).Err? then
                r == Err(OpenSeed(c, f.data, passphrase.value).error)
              else if f.header == "SQNR-ED25519-PRIVATE-KEY" && (forall b :: f.data != Base58.Encode(b)) then
                r == Err(BadBase58)
              else if f.header == "SQNR-ED25519-PRIVATE-KEY" && (exists b :: |b| != 32 && f.data == Base58.Encode(b)) then
                r == Err(WrongSeedLength)
              else (r == Err(BadPublicLine) <==> forall k: Array32 :: f.public != Base58.Encode(k))
  {
    hide ParseFields, OpenSeed, DecodePlaintext, Key.FromBase58, Base58.Encode;
    if ParseFields(content).Ok? {
      var f := ParseFields(content).value;
      HeaderOfFields(content);
      HeadersDiffer();
      PlainRefuses(f.data);
      PlainErrors(f.data);
      NamedKeys(f.public);
      if Key.FromBase58(f.public).Ok? { assert f.public == Base58.Encode(Key.FromBase58(f.public).value); }
    }
  }

  lemma HeadersDiffer()
    ensures ENC_HEADER != PLAIN_HEADER
  {
    assert ENC_HEADER[13] != PLAIN_HEADER[13];
  }

  lemma PlainErrors(data: string)
    ensures var r := DecodePlaintext(data); r.Err? ==> r.error == BadBase58 || r.error == WrongSeedLength
  {
    hide Base58.Decode;
  }

  lemma SeedErrors(c: Sealing, f: Fields, passphrase: Option<string>)
    ensures LoadSeed(c, f, passphrase) != Err(Inconsistent)
  {
    hide Base58.Decode, Utf8.Encode, U32Value;
  }

  // On any file at all: a signer that loads has the public key the file shows,
  // and only a file in a known form loads, a sealed one only with a passphrase.
  lemma LoadedSignerMatchesFile(
      p: Primitives, c: Sealing, content: string, passphrase: Option<string>, seed: Array32)
    ensures Load(p, c, content, passphrase) == Ok(seed) ==>
              && ReadPublic(content) == Ok(p.public(seed))
              && IsEncrypted(content).Ok?
              && (IsEncrypted(content) == Ok(true) ==> passphrase.Some?)
  {
    hide ParseFields;
  }

  // ---------- the file system ----------

  datatype File = File(content: string, mode: nat)

  // 0600 in octal: read and write for the owner only.
  const OWNER_ONLY := 0x180

  // What the file system does to one write and the chmod after it. A write that
  // fails may have left nothing, or a file with the first bytes in it; a new
  // file has the mode of the process until it is changed.
  datatype Fate =
    | Written
    | ChmodFails(mode: nat)
    | WriteFails(left: Option<(nat, nat)>)

  function Prefix(s: string, n: nat): string {
    if n <= |s| then s[..n] else s
  }

  function AfterWrite(files: map<string, File>, path: string, content: string, fate: Fate): map<string, File> {
    match fate
    case Written => files[path := File(content, OWNER_ONLY)]
    case ChmodFails(mode) => files[path := File(content, mode)]
    case WriteFails(None) => files
    case WriteFails(Some((n, mode))) => files[path := File(Prefix(content, n), mode)]
  }

  // Whatever becomes of a write, no other file changes, and what is at `path` is
  // the content or its first part; where all went well it is the content, which
  // the owner may read and write and nobody else may touch.
  lemma WriteTouchesOnly(files: map<string, File>, path: string, content: string, fate: Fate)
    requires path !in files
    ensures var after := AfterWrite(files, path, content, fate);
            && (forall other :: other != path ==> (other in after <==> other in files))
            && (forall other :: other != path && other in files ==> after[other] == files[other])
            && (path in after ==> after[path].content <= content)
            && (!fate.WriteFails? ==> path in after && after[path].content == content)
            && (fate.Written? ==> after[path].mode / 64 == 6 && after[path].mode % 64 == 0)
  {}

  class Store {
    var files: map<string, File>

    ghost function LoadAt(p: Primitives, c: Sealing, path: string, passphrase: Option<string>)
      : Result<Array32, IdentityError>
      reads this
    {
      if path in files then Load(p, c, files[path].content, passphrase) else Err(CannotRead)
    }

    method WriteFile(path: string, content: string, fate: Fate) returns (r: Result<(), IdentityError>)
      modifies this
      ensures files == AfterWrite(old(files), path, content, fate)
      ensures r == match fate case Written => Ok(()) case ChmodFails(_) => Err(ChmodFailed) case _ => Err(WriteFailed)
    {
      match fate {
        case WriteFails(left) =>
          if left.Some? {
            files := files[path := File(Prefix(content, left.value.0), left.value.1)];
          }
          return Err(WriteFailed);
        case ChmodFails(mode) =>
          files := files[path := File(content, mode)];
          return Err(ChmodFailed);
        case Written =>
          files := files[path := File(content, OWNER_ONLY)];
          return Ok(());
      }
    }

    // An existing file is never touched; a failed sealing writes nothing; what
    // is written is for the owner only and loads with the same passphrase to
    // the seed just made. A failed chmod is reported with the file in place,
    // and that file loads all the same.
    method Generate(
        p: Primitives, c: Sealing, path: string, passphrase: Option<string>,
        seed: Array32, salt: Salt, nonce: SealNonce, fate: Fate)
      returns (r: Result<Array32, IdentityError>)
      requires c.Correct()
      modifies this
      ensures if path in old(files) then r == Err(AlreadyExists) && files == old(files)
              else
                match NewIdentity(p, c, ARGON_COSTS, seed, passphrase, salt, nonce)
                case Err(e) => r == Err(e) && files == old(files)
                case Ok(content) =>
                  && files == AfterWrite(old(files), path, content, fate)
                  && r == (match fate
                           case Written => Ok(p.public(seed))
                           case ChmodFails(_) => Err(ChmodFailed)
                           case WriteFails(_) => Err(WriteFailed))
      ensures r.Ok? || r == Err(ChmodFailed) ==>
                && LoadAt(p, c, path, passphrase) == Ok(seed)
                && IsEncrypted(files[path].content) == Ok(passphrase.Some?)
                && ReadPublic(files[path].content) == Ok(p.public(seed))
      ensures r.Ok? ==> files[path].mode == OWNER_ONLY
    {
      if path in files {
        return Err(AlreadyExists);
      }
      var public := p.public(seed);
      var header, data := PLAIN_HEADER, Base58.Encode(seed);
      if passphrase.Some? {
        header := ENC_HEADER;
        data :- EncryptSeed(c, seed, passphrase.value, salt, nonce);
      }
      var content := header + "\n" + data + "\n" + Key.ToBase58(public) + "\n";
      assert content == NewIdentity(p, c, ARGON_COSTS, seed, passphrase, salt, nonce).value;
      FileRoundTrip(p, c, ARGON_COSTS, seed, passphrase, salt, nonce, None);
      hide Load, IsEncrypted, ReadPublic, NewIdentity, Prefix;
      var written := WriteFile(path, content, fate);
      if written.Err? {
        return Err(written.error);
      }
      r := Ok(public);
    }
  }
}
