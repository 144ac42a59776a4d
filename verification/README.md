# Verified model of sqnr

This project models the signer `sqnr` in Dafny and proves what its code and
documentation promise: the canonical encoding of signed transactions, what a
signature binds, the authority protocol between clients and a server, the card
thread, the text forms of public keys, and the identity file. `dafny verify
dfyconfig.toml` checks all of it.

## How the model is laid out

| file | what it holds |
|---|---|
| `Bytes.dfy`, `Utf8.dfy` | big-endian words, and UTF-8 as in sections 3 and 4 of RFC 3629 |
| `TxFormat.dfy`, `Canonical.dfy` | the transaction format as functions on bytes; canonical form, damaged input, sizes |
| `Layout.dfy`, `Faults.dfy` | the wire form by position; which complaint the decoder makes |
| `Codec.dfy` | the encoder's loops and the decoder's cursor, proved against the format |
| `Signing.dfy` | signing bytes, `create`, `verify`, and what a signature binds |
| `Flow.dfy` | one `sign_and_submit`, as ordered effects |
| `Protocol.dfy`, `Authority.dfy` | runs of many clients, one server and a hostile network |
| `Radix.dfy`, `Base58.dfy`, `Key.dfy` | change of base, base58, hexadecimal, `PubKey` text forms |
| `Identity.dfy` | the identity file and its sealed seed |
| `CardText.dfy` | the error texts of the card thread and the lost-card classifier |
| `Card.dfy`, `CardRuns.dfy`, `CardSafety.dfy` | the card thread, its runs, PINs and the slot key |
| `CardAnswers.dfy` | the card calls of each request, and what each answer means |
| `CardSigning.dfy` | from the key the card reports to the signature the server verifies |
| `Fingerprint.dfy` | the OpenPGP v4 fingerprint input |

Conventions. A Rust `String` is a Dafny `string`: a Dafny `char` is a Unicode
scalar value, and `Utf8.Encode` gives the bytes whose number the code compares.
SHA-256, Ed25519, argon2id, ChaCha20-Poly1305 and SHA-1 are function parameters.
Nothing is assumed of the hashes; results that need one say "or here is a
collision". Of Ed25519 only that honest signatures verify is assumed, of the
AEAD only that opening undoes sealing. `usize` has 64 bits. A decoding error is
a datatype (`Malformed`) in place of the message text inside `Error::Malformed`.

Assumptions that come from outside the code:

- `Protocol.Next`: the server hands out each nonce once, takes it once and only
  for listed admins (`tx.rs` leaves this to the caller), and nobody makes a
  signature for a listed key except by signing with it.
- `Card.Effect`, `Card.FailedEffect` and `Card.Refuses`: opening the card clears
  the user PIN; the card signs only with that PIN verified and a key in its slot,
  and changes the slot only with the admin PIN verified. A call that fails may
  still have taken effect, and a PIN in it may be unseen, refused, or accepted
  with the answer lost.
- `Card.AfterOthers`: other users of the card may lock it or change its key
  between transactions, but not unlock it.
- `CardSigning.SignsWithSlot`, only where a lemma names it: what the card signs
  verifies under the key in its slot. Two lemmas there also ask, in their own
  hypotheses, that the signature verify under no second key.

Where the code does not do what it says, or its promise has an end:

- The encoder casts lengths to 32 bits, so "exactly one representation"
  (`tx.rs:54-56`) fails for over-long values. The bound is exact: an encoding of
  fewer than `n` bytes stands for one transaction only, if and only if `n` is at
  most 2^32 + 80 (`Canonical.LeastSharedSize`). At that size two given
  transactions share their encoding, and one signature covers both
  (`Canonical.WrappedLengthsCollide`, `Signing.WrappedLengthsShareSignatures`).
  Among values whose lengths all fit 32 bits there is no such pair at any size.
- A value survives the wire if and only if it is within the four caps, which
  `sign_and_submit` does not check before asking for a signature
  (`Canonical.SurvivesWireIffInBounds`, `Authority.OversizedIsNeverApplied`).
- A signature needs an earlier Unlock (`card.rs:82-84`), but not one answered Ok.
  A Sign is answered Ok if and only if the card took the PIN of an earlier
  Unlock, has stayed unlocked on that connection, and lets the Sign through
  (`CardSafety.SignIffUnlocked`). When the answer to the PIN is lost behind a
  text that is not a lost-card text, without a reset, the operator reads "PIN
  rejected" and the card still signs (`CardSafety.LostAnswerUnlocks`). An Unlock
  answered Ok is needed, over all runs, if and only if no answer is lost in this
  way, where the calls around such an answer are undisturbed; the "if" needs no
  such condition (`CardSafety.OkUnlockNeededIff`, `CardSafety.SignNeedsOkUnlock`).
- "A captured signature cannot be double-applied" (`flow.rs:6-9`) holds for each
  signature. A retry after a lost answer makes a second one, and the batch is
  applied twice (`Authority.RetryAppliesAgain`).
- The fingerprint announces 263 bits whatever the length of the point, which is
  right for exactly the 32-byte points (`Fingerprint.PointFieldReads`).
- A chmod that fails is reported as an error with the identity file in place; it
  loads, and a second `generate` refuses to replace it (`Identity.Store.Generate`).

## Model

| member | source | states |
|---|---|---|
| Utf8.DecodeIffEncode | crates/sqnr-core/src/tx.rs:259-262 | `from_utf8` accepts exactly the UTF-8 encodings of strings of scalar values, each with its one shortest form: the reader by grammar (RFC 3629 section 4) inverts the writer by ranges (section 3) |
| Utf8.EncodeScalarOfDecode | crates/sqnr-core/src/tx.rs:259-262 | octets read as one scalar value are the one encoding of it, so overlong forms and surrogates are refused |
| Utf8.ByteLength | crates/sqnr-core/src/key.rs:80-87 | byte length equals character count exactly for ASCII text |
| Utf8.Examples | crates/sqnr-core/src/tx.rs:259-262 | the encodings of the examples in section 7 of RFC 3629, one to four octets |
| Utf8.EncodeJoins | crates/sqnr-core/src/tx.rs:63-66 | the bytes of a text are those of its parts in order |
| TxFormat.TransactionRoundTrip | crates/sqnr-core/src/tx.rs:57-99 | for any suffix, decoding an in-bounds encoding gives the transaction back and stops at its last byte, under any caps below 2^32 |
| TxFormat.TransactionCanonical | crates/sqnr-core/src/tx.rs:73-99 | what the decoder accepts is in bounds, and the bytes it consumed are the encoding of what it returned |
| Layout.WordIsBigEndian | crates/sqnr-core/src/tx.rs:61-64 | a length or count is written as four bytes, most significant first, as the big-endian numeral of its value modulo 2^32 |
| Layout.TransactionLayout | crates/sqnr-core/src/tx.rs:57-71 | by position: the server in bytes 0 to 31, the nonce in 32 to 63, the number of operations in 64 to 67, and every operation where the ones before it end |
| Layout.EmptyLayout | crates/sqnr-core/src/tx.rs:57-71 | an empty batch is server, nonce and four zero bytes |
| Layout.OpLayout | crates/sqnr-core/src/tx.rs:62-69 | by position: the summary behind its length, the number of lines, the lines, the payload behind its length, and nothing else |
| Layout.LineLayout | crates/sqnr-core/src/tx.rs:65-67 | every detail line stands behind its length where the lines before it end |
| Layout.SignedLayout | crates/sqnr-core/src/tx.rs:187-194 | the admin key and then the signature follow the transaction, 96 bytes in all |
| Canonical.SignedRoundTrip | crates/sqnr-core/src/tx.rs:189-207 | a signed transaction followed by anything decodes to itself when nothing follows and is refused with the exact number of trailing bytes otherwise |
| Canonical.DecodeExactly | crates/sqnr-core/src/tx.rs:54-98 | for all bytes and values, `decode(b) = Ok(s)` if and only if `b = s.encode()` and `s` is within the four caps |
| Canonical.SurvivesWireIffInBounds | crates/sqnr-core/src/tx.rs:26-30 | a value of any size survives encode and decode if and only if it is within the caps; over them it is refused and never misread |
| Canonical.TooManyOpsIsNamed | crates/sqnr-core/src/tx.rs:76-79 | a batch whose 32-bit count exceeds 64 is refused with that count, before any operation is read |
| Faults.DecodeNamesFault | crates/sqnr-core/src/tx.rs:73-99 | a value whose lengths fit 32 bits is read back, or refused with the first of 64 operations, 32 lines, 4096 bytes of text and 65536 of payload that it exceeds, by name and number |
| Faults.TextFault | crates/sqnr-core/src/tx.rs:249-262 | a text field is refused for its length first, then as invalid exactly when its bytes are the encoding of no string |
| Canonical.PrefixFree | crates/sqnr-core/src/tx.rs:54-71 | an encoding shorter than 2^32 + 80 bytes has no other transaction's encoding, however long that is, as a prefix; nor has any encoding among transactions whose lengths fit 32 bits |
| Canonical.SignedInjective | crates/sqnr-core/src/tx.rs:189-194 | the same for the wire form: it determines the signed transaction, against values of any size |
| Canonical.WrappedLengthsCollide | crates/sqnr-core/src/tx.rs:57-71 | two given different transactions have the same encoding, of exactly 2^32 + 80 bytes |
| Canonical.LeastSharedSize | crates/sqnr-core/src/tx.rs:54-71 | every encoding of fewer than `n` bytes stands for one transaction only, and is prefixed by no other encoding, if and only if `n` is at most 2^32 + 80 |
| Canonical.DamagedIsRejected | crates/sqnr-core/src/tx.rs:226-272 | every proper prefix of an in-bounds encoding is refused as ending unexpectedly, every proper extension as having exactly the added bytes trailing |
| Canonical.AcceptedSize | crates/sqnr-core/src/tx.rs:26-30 | `decode` accepts only 164 to 12,854,180 bytes |
| Canonical.SizesAreTight | crates/sqnr-core/src/tx.rs:26-30 | both ends of that range are reached |
| Codec.PutBytes | crates/sqnr-core/src/tx.rs:210-213 | appends the length prefix and the bytes |
| Codec.EncodeTransaction | crates/sqnr-core/src/tx.rs:57-71 | the nested appending loops produce the canonical encoding (its bytes by position: `Layout.TransactionLayout`) |
| Codec.EncodeOp | crates/sqnr-core/src/tx.rs:62-69 | one turn of the outer loop appends the operation's encoding |
| Codec.EncodeSigned | crates/sqnr-core/src/tx.rs:189-194 | the wire form: transaction, admin, signature |
| Codec.Reader.constructor | crates/sqnr-core/src/tx.rs:222-224 | the cursor starts at the first byte |
| Codec.Reader.Take | crates/sqnr-core/src/tx.rs:226-237 | returns the next `n` bytes and moves past them, or fails without moving; the cursor never leaves the buffer or goes back |
| Codec.Reader.TakeArray32 | crates/sqnr-core/src/tx.rs:239-243 | the next 32 bytes |
| Codec.Reader.TakeArray64 | crates/sqnr-core/src/tx.rs:239-243 | the next 64 bytes |
| Codec.Reader.TakeU32 | crates/sqnr-core/src/tx.rs:245-247 | the next four bytes, read as a big-endian numeral |
| Codec.Reader.TakeBytes | crates/sqnr-core/src/tx.rs:249-257 | a length-prefixed field within a cap, refused before reading it when over the cap |
| Codec.Reader.TakeString | crates/sqnr-core/src/tx.rs:259-262 | such a field as text, refused when it is not UTF-8 |
| Codec.Reader.Finish | crates/sqnr-core/src/tx.rs:264-272 | succeeds exactly at the end of the buffer, else reports how many bytes are left |
| Codec.ReadLoopIsMany | crates/sqnr-core/src/tx.rs:80-97 | pushing items to the back in a counted loop gives the list the format describes |
| Codec.DecodeLines | crates/sqnr-core/src/tx.rs:88-90 | the inner loop reads the detail lines with at most two reads each |
| Codec.DecodeOp | crates/sqnr-core/src/tx.rs:82-96 | one operation, or the first thing wrong with it, in at most 69 reads |
| Codec.DecodeOps | crates/sqnr-core/src/tx.rs:81-97 | the outer loop reads the operations in order |
| Codec.DecodeFrom | crates/sqnr-core/src/tx.rs:73-99 | reads a transaction as the format describes and leaves the cursor just behind it |
| Codec.DecodeSigned | crates/sqnr-core/src/tx.rs:196-207 | the cursor-driven decoder computes `Decode` on every input, with at most 4,421 reads whatever lengths the input claims |
| Signing.HashForSigning | crates/sqnr-core/src/tx.rs:104-110 | the signed message is the ten bytes "sqnr-tx-v1" followed by the SHA-256 of the encoding |
| Signing.SigningBytesLayout | crates/sqnr-core/src/tx.rs:22-24 | the tag comes first and reads "sqnr-tx-v1", and the digest of the encoding is all that follows |
| Signing.VerifyAnswers | crates/sqnr-core/src/tx.rs:171-185 | WrongServer exactly for another server, Key exactly for one's own server and a key that is no point, BadSignature exactly when only the signature over tag and digest fails, and success otherwise |
| Signing.SignatureBindsTransaction | crates/sqnr-core/src/tx.rs:9-14 | the signed bytes of a transaction shorter than 2^32 + 80 bytes, as all within the caps are, agree with those of any other if and only if the two are equal or their encodings are a SHA-256 collision |
| Signing.WrappedLengthsShareSignatures | crates/sqnr-core/src/tx.rs:57-71 | at 2^32 + 80 bytes one signature covers two different transactions under any hash |
| Signing.VerifiesForOneServer | crates/sqnr-core/src/tx.rs:174-185 | what verifies for one server is WrongServer for every other |
| Signing.SoftwareEndToEnd | crates/sqnr-core/src/tx.rs:163-207 | what `create` makes holds the transaction given and the signer's key, verifies for its own server only, and decodes to itself if and only if it is in bounds |
| Signing.VerifiedFromWire | crates/sqnr-core/src/tx.rs:174-207 | bytes that decode and verify carry a valid signature over the only transaction, of any size, whose encoding they begin with |
| Flow.ClientRunMore | crates/sqnr/src/flow.rs:23-61 | the protocol of one client can be followed effect by effect |
| Flow.SignAndSubmit | crates/sqnr/src/flow.rs:23-61 | performs exactly the effects of the flow in order (challenge, review, touch for a card, sign, post) and ends with the first failure, the server's refusal as text, or its answer as JSON, null when it is none |
| Flow.FlowStopsEarly | crates/sqnr/src/flow.rs:31-37 | an empty batch sends nothing; a failed or unacceptable challenge ends the attempt with its own error, nothing shown and nothing signed |
| Flow.FlowSigns | crates/sqnr/src/flow.rs:38-53 | on a good challenge a software identity signs with its seed without a touch and posts; a card is touched first, its signature is posted under the backend's key, and its refusal ends the attempt |
| Flow.FlowEndsAs | crates/sqnr/src/flow.rs:53-60 | once posted, the attempt ends with the connection's error, the refusal text, or the value answered |
| Flow.RejectionReads | crates/sqnr/src/flow.rs:54-59 | for every answer, a refusal reads `kind (status) detail`: the kind is the text under "error" or else "error", the status is in decimal, the detail is the text under "detail" if any, and the white space before the kind and after the detail is gone, as is the blank for either when it has nothing else in it |
| Flow.FlowFollowsProtocol | crates/sqnr/src/flow.rs:1-61 | from any earlier point and however far it comes, each effect of the flow is allowed by the protocol: review before signature, touch for a card only, post only what was signed |
| Flow.PostedWasReviewed | crates/sqnr/src/flow.rs:31-60 | success means posted and answered 200, with the JSON of that answer, or null, as the value; what is posted is the signed form of the one transaction shown, over the caller's ops, server and the challenge nonce, and the server reads it back if and only if it is within the caps |
| Flow.SoftwarePost | crates/sqnr/src/signer.rs:26-69 | from a software identity the posted value equals `SignedTransaction::create`, verifies for its server, and decodes there if and only if in bounds |
| Protocol.StepKeeps | crates/sqnr/src/flow.rs:31-53 | every step of clients, network and server keeps the invariant |
| Protocol.RunKeeps | crates/sqnr/src/flow.rs:31-53 | the invariant holds in every state of every run |
| Authority.AppliedAtMostOnce | crates/sqnr/src/flow.rs:6-9 | in every run, no transaction is applied twice, whatever the network repeats |
| Authority.AppliedWasShown | crates/sqnr/src/flow.rs:16-53 | in every run, everything applied was within the caps, addressed to this server, signed with the listed key itself, which is the signing client's own, and last shown in this form to the operator of that client, after a tap for a card; or there is a SHA-256 collision |
| Authority.BatchAppliedAtMostAsSigned | crates/sqnr/src/flow.rs:3-9 | in every run, a batch is applied at most as often as it was signed with a listed key, or there is a SHA-256 collision |
| Authority.HonestPostAppliesOnce | crates/sqnr/src/flow.rs:40-53 | an honest post within the caps on a fresh nonce is applied, exactly as reviewed, when it arrives, and is refused when it arrives again |
| Authority.OversizedIsNeverApplied | crates/sqnr/src/flow.rs:31-53 | a batch over the caps, by however much, is applied in no run, and its encoding is accepted in no state |
| Authority.HonestRunExists | crates/sqnr/src/flow.rs:31-60 | a complete run exists whose whole history is the batch shown, signed and applied |
| Authority.RetryAppliesAgain | crates/sqnr/src/flow.rs:6-9 | a run exists in which a retry applies the same batch a second time under a second signature, so the bound by the signatures is reached |
| Radix.RebaseInverts | crates/sqnr-core/src/key.rs:28-50 | changing base and back is the identity on digit strings of any length, leading zeros included |
| Radix.RebaseExactly | crates/sqnr-core/src/key.rs:28-50 | a change of base gives the one numeral with the same value and as many leading zeros |
| Base58.DecodeExactly | crates/sqnr-core/src/key.rs:28-50 | `decode(s) = b` if and only if `s = encode(b)`, for byte strings of any length |
| Base58.EncodeExactly | crates/sqnr-core/src/key.rs:28-30 | base58 text is the base-58 numeral of the big-endian value of the bytes, with a leading `1` for each leading zero byte |
| Base58.AlphabetIs | crates/sqnr-core/src/key.rs:28-30 | the alphabet is digits and letters in code point order without `0`, `O`, `I` and `l` |
| Base58.TextLength | crates/sqnr-core/src/key.rs:28-30 | base58 never has fewer characters than bytes, and up to 32 bytes at most 12 more |
| Base58.KeyTextLength | crates/sqnr-core/src/key.rs:45-68 | a 32-byte key has 32 to 44 characters, and text longer than 44 decodes to more than 32 bytes |
| Key.HexExactly | crates/sqnr-core/src/key.rs:52-55 | hexadecimal text decodes to exactly the bytes it spells, in any letter case |
| Key.HexSpells | crates/sqnr-core/src/key.rs:52-55 | a byte is spelt by its high hex digit and then its low one |
| Key.LowerIsAscii | crates/sqnr/src/card.rs:280-297 | only the 26 capital letters of ASCII change, each to its small letter |
| Key.FromHexExactly | crates/sqnr-core/src/key.rs:52-55 | hexadecimal text names a key if and only if it spells its 32 bytes; bad hex is an odd length or a character that is no hex digit, and any other length is refused by its number of bytes |
| Key.TrimExactly | crates/sqnr-core/src/key.rs:80-82 | trimming gives a text if and only if that text has no white space at its ends and the input is that text with only white space around it |
| Key.WhiteExactly | crates/sqnr-core/src/key.rs:80-82 | white space is the 25 characters of the Unicode property, tab and newline among them |
| Key.FromBase58Exactly | crates/sqnr-core/src/key.rs:45-68 | base58 text names a key if and only if it is that key's own text |
| Key.ShapesAreDisjoint | crates/sqnr-core/src/key.rs:79-87 | 64 hex digits always read as hex and never name a key in base58 |
| Key.FromStrExactly | crates/sqnr-core/src/key.rs:76-88 | `from_str` gives a key for exactly its base58 text or its 64 hex digits, trimmed |
| Key.FromStrRefuses | crates/sqnr-core/src/key.rs:57-88 | a text is refused as bad base58 exactly when it is the base58 of nothing, or for its length exactly when it stands for other than 32 bytes; never as bad hex |
| Key.DisplayRoundTrip | crates/sqnr-core/src/key.rs:70-88 | what is displayed parses back to the same key, also between white space |
| Identity.NextLineTakesOneLine | crates/sqnr/src/identity.rs:126-140 | a line of `str::lines` holds no newline, and the text is that line, its ending (`\n` or `\r\n`, or none at the end) and the rest |
| Identity.ReadLines | crates/sqnr/src/identity.rs:122-142 | the three trimmed lines, or which one is missing or wrong |
| Identity.FieldsExactly | crates/sqnr/src/identity.rs:122-142 | by the lines of the file: not an identity without a known header on the first, key data or public key missing with one or two lines, and else the first three lines trimmed |
| Identity.EncryptSeed | crates/sqnr/src/identity.rs:158-190 | the blob of cost triple, salt, nonce and ciphertext, in base58 |
| Identity.SealExactly | crates/sqnr/src/identity.rs:158-190 | the sealed text is base58 of the costs 65536, 3 and 4 as words, the salt, the nonce, and the seed sealed under the key derived from the passphrase and that salt |
| Identity.SealRefuses | crates/sqnr/src/identity.rs:158-180 | sealing fails exactly as the key derivation or the cipher does |
| Identity.OpenInvertsSeal | crates/sqnr/src/identity.rs:157-220 | a sealed seed opens with its passphrase under any recorded cost triple |
| Identity.OpenExactly | crates/sqnr/src/identity.rs:192-220 | a seed opens if and only if the text is base58 of a blob of 40 bytes or more, and the key derived from the passphrase under the blob's costs and salt opens the rest to those 32 bytes |
| Identity.OtherPassphrase | crates/sqnr/src/identity.rs:208-216 | any passphrase tried on a sealed seed is judged by the key derived from it: it opens what that key opens and is refused as wrong exactly when the key opens nothing |
| Identity.OpenRefuses | crates/sqnr/src/identity.rs:192-199 | text that is no base58 and a blob under 40 bytes are refused as such, and nothing else is |
| Identity.FileRoundTrip | crates/sqnr/src/identity.rs:58-141 | for every seed, passphrase choice, salt, nonce and cost triple the file names its form, shows the public key without the passphrase and loads to the same signer; a sealed file needs a passphrase |
| Identity.FileReads | crates/sqnr/src/identity.rs:64-75 | the file is its header, the seed in base58 or sealed, and the public key in base58, one to a line |
| Identity.LoadedSignerMatchesFile | crates/sqnr/src/identity.rs:85-112 | for any file contents, a signer that loads has the public key the file shows |
| Identity.LoadExactly | crates/sqnr/src/identity.rs:94-112 | a file loads if and only if its seed opens in the form its header names and the public key it shows is that of the seed |
| Identity.InconsistentExactly | crates/sqnr/src/identity.rs:94-112 | a file is called inconsistent if and only if its seed opens and the key it shows is another one |
| Identity.LoadRefuses | crates/sqnr/src/identity.rs:78-156 | which error a file that does not load gives: the one of reading its lines, a missing passphrase, what opening a sealed seed says, bad base58 or another length of a bare one, and else a third line that holds no key |
| Identity.ShownExactly | crates/sqnr/src/identity.rs:78-89 | the form is told by the header, and the public key is the one whose base58 is on the third line |
| Identity.Store.Generate | crates/sqnr/src/identity.rs:58-120 | never overwrites, writes nothing when sealing fails; what it writes loads with the same passphrase; a write or chmod that fails is reported |
| Identity.WriteTouchesOnly | crates/sqnr/src/identity.rs:114-120 | no other file changes, a failed write leaves at most a first part of the content, and a successful one the content with mode 0600: owner only |
| CardText.ContainsIffOccurs | crates/sqnr/src/card.rs:280-297 | the search finds a needle if and only if it occurs somewhere, up to ASCII case |
| CardText.NoStraddle | crates/sqnr/src/card.rs:280-297 | a needle never straddles a character it does not have |
| CardText.CommTextExactly | crates/sqnr/src/card.rs:280-297 | a text means a lost card if and only if it contains removed, reset, transmit, no smart card, not transacted or disconnected, up to ASCII case |
| CardText.WrappingKeepsDecision | crates/sqnr/src/card.rs:156-228 | for every card error and every wrapper, the wrapped text is classed as a lost card if and only if the error is |
| CardText.LocalTextsKeepCard | crates/sqnr/src/card.rs:170-228 | no message written locally, with any PIN length in it, is classed as a lost card |
| Card.ReadPubkeyOn | crates/sqnr/src/card.rs:185-194 | reads the slot and maps every outcome to a key or a text |
| Card.ProvisionOn | crates/sqnr/src/card.rs:202-229 | PIN length, PW3, algorithm, generation, in this order, stopping at the first failure (when it succeeds: `CardAnswers.ProvisionSucceedsIff`) |
| Card.HandleOn | crates/sqnr/src/card.rs:148-183 | one call sequence and one reply for each kind of request, and the keep decision |
| Card.HandleReq | crates/sqnr/src/card.rs:136-145 | one request in its own transaction, answered also when the transaction cannot begin |
| Card.CardLoop | crates/sqnr/src/card.rs:110-133 | the nested loops answer every request exactly as a server with an optional connection, and return once the queue is empty and closed |
| CardRuns.OneReplyEach | crates/sqnr/src/card.rs:110-183 | one reply to each request, to its own channel, with the answer of its own handling, of its own kind, in order of arrival |
| CardRuns.OpensBalance | crates/sqnr/src/card.rs:110-145 | opens equal drops, plus one if a connection is held at the end and less one if one was held at the start |
| CardRuns.OpensOnlyWhenNeeded | crates/sqnr/src/card.rs:110-145 | the card is opened exactly when a request is in hand and nothing is held; whatever runs does so in a transaction begun without error |
| CardRuns.NothingRunsOnDropped | crates/sqnr/src/card.rs:123-131 | no request runs on a connection whose last handling gave it up |
| CardRuns.HandleCalls | crates/sqnr/src/card.rs:148-229 | a request stops at the first card call that fails and never opens the card itself |
| CardRuns.KeptUnlessCardLost | crates/sqnr/src/card.rs:147-183 | a request that ran gives up the connection if and only if the card itself answered one of its calls with a lost-card text |
| CardAnswers.BegunExactly | crates/sqnr/src/card.rs:110-145 | a request runs if and only if the card opens, when none is held, and a transaction begins; otherwise the error of that call is the answer as it stands |
| CardAnswers.CallsFollowScript | crates/sqnr/src/card.rs:148-229 | each request makes its own card calls in order, carrying its own PIN or message, and stops early only where one fails |
| CardAnswers.FailureIsNamed | crates/sqnr/src/card.rs:156-228 | a card call that fails is answered with its error in the sentence of that call |
| CardAnswers.OwnRefusals | crates/sqnr/src/card.rs:170-228 | where every call succeeded, the only refusals are a key of the wrong kind or length, a signature of the wrong length and an admin PIN under eight bytes, each in its own words and the last with its number |
| CardAnswers.UnlockSucceedsIff | crates/sqnr/src/card.rs:156-163 | an Unlock that runs is answered Ok if and only if the card's call succeeds |
| CardAnswers.SignSucceedsIff | crates/sqnr/src/card.rs:170-182 | a Sign that runs hands on the card's own 64 bytes, if and only if the PIN is verified, a key is in the slot and the call succeeds |
| CardAnswers.ProvisionSucceedsIff | crates/sqnr/src/card.rs:202-229 | a Provision reports a key if and only if it runs, its PIN has eight bytes or more, its three calls succeed and the card made that 32-byte point |
| CardSafety.SignIffUnlocked | crates/sqnr/src/card.rs:82-84 | in every run and environment, a Sign is answered Ok if and only if the card took the PIN of an earlier Unlock, has stayed unlocked on that connection since, and lets the Sign itself through |
| CardSafety.SignNeedsOkUnlock | crates/sqnr/src/card.rs:82-84 | where no answer to an accepted PIN is lost without a reset behind a text that keeps the connection, every Sign answered Ok has an Unlock answered Ok before it on its connection |
| CardSafety.LostAnswerUnlocks | crates/sqnr/src/card.rs:156-163 | for every call and every text at which such an answer is lost, a run in which the Unlock is answered "PIN rejected" and the next Sign is answered Ok |
| CardSafety.OkUnlockNeededIff | crates/sqnr/src/card.rs:82-84 | an Unlock answered Ok is needed for a Sign, over all runs, if and only if no such answer is lost; the two calls on either side of a lost answer being undisturbed |
| CardSafety.TimeoutLoses | crates/sqnr/src/card.rs:280-297 | a reader that times out once, after the card took the PIN, loses such an answer |
| CardSafety.OneUnlockManySigns | crates/sqnr/src/card.rs:103-109 | with a key in the slot and nothing going wrong, one Unlock serves any number of Signs |
| CardSafety.SlotChangesOnlyByProvision | crates/sqnr/src/card.rs:196-229 | in every run, slot key and algorithm change within a transaction only in a Provision with a PIN of eight bytes or more, after PW3 was accepted and the algorithm set in the same request |
| CardSafety.ShortPinSparesCard | crates/sqnr/src/card.rs:203-213 | a PIN under eight bytes makes no card call, so slot, algorithm and retry counter stay, and the connection is kept |
| CardSafety.PubkeyReportsSlot | crates/sqnr/src/card.rs:185-194 | a key is reported if and only if the slot holds that 32-byte point and the card let it be read |
| CardSafety.ProvisionReportsNewKey | crates/sqnr/src/card.rs:214-228 | a provisioning answered Ok leaves the slot on Ed25519 with the key it reports |
| CardSafety.PubkeyAfterProvision | crates/sqnr/src/card.rs:185-229 | a following Pubkey, undisturbed, reports the same key |
| CardSigning.SoleUserKeepsSlot | crates/sqnr/src/card.rs:103-109 | over every run with no other user of the card, the slot is kept from one request to a later one if and only if no Provision lies between |
| CardSigning.SignedByReportedKey | crates/sqnr/src/signer.rs:36-69 | over every run, a signature given after the card reported a key, read or just made, verifies under that key for the transaction's server, if neither a Provision nor another user changed the slot in between |
| CardSigning.OnlySlotKeyVerifies | crates/sqnr/src/signer.rs:11-16 | where signatures verify under one key only, the transaction verifies if and only if it names the key that was in the slot at the signature |
| CardSigning.ProvisionEndsOldKey | crates/sqnr/src/card.rs:65-68 | over every run, what is signed after a Provision verifies under the key it made and under no other, such as one reported before; signatures verifying under one key only |
| CardSigning.CardEndToEnd | crates/sqnr/src/flow.rs:43-53 | over every run, an attempt with a reported key posts if and only if the card signs; what it posts names that key, verifies for its server, and is read back there if and only if it is within the caps |
| CardSigning.CardRefusalEndsFlow | crates/sqnr/src/signer.rs:62-68 | a card that does not sign ends the attempt with its own words |
| Fingerprint.Ed25519Fingerprint | crates/sqnr/src/card.rs:242-276 | the pushes build the packet body, and the digest is of prefix, length and body; a key that is not ECC is an error |
| Fingerprint.InputOctets | crates/sqnr/src/card.rs:255-272 | the hashed input octet by octet: 0x99, length 51, version 4, time, algorithm 22, the object identifier 1.3.6.1.4.1.11591.15.1 behind its length, 263 bits, 0x40 and the point |
| Fingerprint.PointHas263Bits | crates/sqnr/src/card.rs:264-267 | with 0x40 in front, every 32-byte point has bit length exactly 263 |
| Fingerprint.PointFieldReads | crates/sqnr/src/card.rs:264-267 | the point field reads back as a multiprecision integer (RFC 4880 section 3.2) with nothing left over if and only if the point has 32 bytes |
| Fingerprint.HashInputInjective | crates/sqnr/src/card.rs:256-272 | distinct (time, point) pairs give distinct hashed inputs; the body of a 32-byte point has 51 octets and says so |

## Left out

- The insides of Ed25519, SHA-256, SHA-1, argon2id and ChaCha20-Poly1305, and the choice of random seeds, salts and nonces: parameters.
- The body of `bs58` and `hex`: base58 is defined as the big-endian numeral with one `1` for each leading zero byte, hexadecimal by digit pairs.
- Canonical.PrefixFree: which transactions of 2^32 + 80 bytes or more share their encoding is not characterised beyond the given pair.
- Codec.DecodeSigned: the input is no longer than `isize::MAX`, as every Rust slice is; the bodies of the outer loops and the counted loops are methods of their own in place of nested loops in one function.
- Card.CardLoop: the queue is the whole list of requests ever sent; blocking, thread start and the caller that no longer waits for its reply are not modelled.
- Card.HandleOn: PC/SC, applet selection, touch and PIN comparison are an environment that may fail any call, before or after it took effect, lose the answer to an accepted PIN, and reset the card.
- Flow.SignAndSubmit: HTTP/3, sQUIC and the parsing of JSON text are parameters; errors other than the server's refusal are datatypes in place of their texts.
- Protocol.RunKeeps: the server's nonce and admin checks, and that signatures cannot be forged, are assumptions, since the server is not in the repository.
- Identity.Store.Generate: the home directory, read errors other than a missing file, races between the existence check and the write, and wiping of memory are not modelled.
- `client.rs`, `main.rs`, `config.rs`: connection plumbing, prompts, flags and configuration.
- `PubKey::short` and the ordering and hashing of keys: display and collection support that no result here depends on.
