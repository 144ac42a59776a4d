// The texts of card errors, and the classifier that reads them to decide
// whether the card is gone.
module CardText {
  import opened Bytes
  import Key

  // ---------- the texts the card thread writes ----------

  // The wrappers put around an error `e` of the card.
  function Wrapped(what: string, e: string): string {
    what + ": " + e
  }

  const PIN_REJECTED := "PIN rejected"
  const SIGN_FAILED := "sign failed"
  const ADMIN_PIN_REJECTED := "admin PIN rejected"
  const SET_ALGORITHM_FAILED := "could not set the" + SLOT_TO_ED25519
  const SLOT_TO_ED25519 := " slot to Ed25519"
  const GENERATION_FAILED := "key generation" + FAILED_WORD
  const FAILED_WORD := " failed"

  const WRAPPERS := [PIN_REJECTED, SIGN_FAILED, ADMIN_PIN_REJECTED, SET_ALGORITHM_FAILED, GENERATION_FAILED]

  const NO_AUTH_KEY := "no Ed25519 auth key "
  const GENERATE_HINT := "; generate one with" + PROVISION_COMMAND
  const PROVISION_COMMAND := " `sqnr --yubikey" + PROVISION_WORD
  const PROVISION_WORD := " provision`"

  function NoAuthKey(e: string): string {
    NO_AUTH_KEY + "(" + e + ")" + GENERATE_HINT
  }

  const NOT_A_POINT := "auth key is not a" + ED25519_POINT
  const ED25519_POINT := " 32-byte" + POINT_WORDS
  const POINT_WORDS := " Ed25519 point"
  const IS_RSA := "auth key is RSA," + NOT_ED25519
  const NOT_ED25519 := " not Ed25519"
  const BAD_SIGNATURE_LENGTH := "card returned a" + NON_64_SIGNATURE
  const NON_64_SIGNATURE := " non-64-byte" + SIGNATURE_WORD
  const SIGNATURE_WORD := " signature"
  const GENERATED_NOT_A_POINT := "generated key is not a" + ED25519_POINT
  const GENERATED_NOT_ECC := "card generated a" + NON_ECC_KEY
  const NON_ECC_KEY := " non-ECC key"

  const LOCAL_TEXTS := [NOT_A_POINT, IS_RSA, BAD_SIGNATURE_LENGTH, GENERATED_NOT_A_POINT, GENERATED_NOT_ECC]

  // The complaint about an admin PIN of `n` bytes; only given below eight.
  function ShortPin(n: nat): string
    requires n < 8
  {
    "admin PIN is " + [('0' as int + n) as char] + SHORT_PIN_TAIL
  }

  const SHORT_PIN_TAIL := " characters; PW3 needs" + AT_LEAST_8
  const AT_LEAST_8 := " at least 8. That is the" + ADMIN_PIN_NOTE
  const ADMIN_PIN_NOTE := " ADMIN PIN" + DEFAULT_PIN
  const DEFAULT_PIN := " (default 12345678)," + NOT_USER_PIN
  const NOT_USER_PIN := " not the 6-digit" + USER_PIN
  const USER_PIN := " user PIN."

  // ---------- the classifier ----------

  // `str::contains`.
  predicate Contains(s: string, needle: string) {
    |needle| <= |s| && (needle <= s || Contains(s[1..], needle))
  }

  const NEEDLES := ["removed", "reset", "transmit", "no smart card", "not transacted", "disconnected"]

  predicate IsCommText(e: string) {
    exists k :: 0 <= k < |NEEDLES| && Contains(Key.LowerText(e), NEEDLES[k])
  }

  // Whether a result says that the card is gone rather than that it refused.
  predicate IsCommFailure<T>(r: Result<T, string>) {
    r.Err? && IsCommText(r.error)
  }

  // ---------- where a needle can lie ----------

  // The needle begins at `i`, up to ASCII case.
  ghost predicate OccursAt(s: string, needle: string, i: nat) {
    i + |needle| <= |s| && forall j :: 0 <= j < |needle| ==> Key.Lower(s[i + j]) == needle[j]
  }

  ghost predicate Occurs(s: string, needle: string) {
    exists i: nat :: OccursAt(s, needle, i)
  }

  lemma {:induction false} ContainsIffOccurs(s: string, needle: string)
    requires needle != []
    ensures Contains(Key.LowerText(s), needle) <==> Occurs(s, needle)
  {
    var low := Key.LowerText(s);
    if |needle| <= |s| {
      assert needle <= low <==> OccursAt(s, needle, 0) by {
        assert forall j :: 0 <= j < |needle| ==> low[j] == Key.Lower(s[j]);
        if OccursAt(s, needle, 0) {
          forall j | 0 <= j < |needle| ensures low[j] == needle[j] {
            assert Key.Lower(s[0 + j]) == needle[j];
          }
        }
      }
      assert low[1..] == Key.LowerText(s[1..]);
      ContainsIffOccurs(s[1..], needle);
      OccursLater(s, needle);
    }
  }

  lemma OccursShifted(a: string, b: string, needle: string, i: nat)
    ensures OccursAt(b, needle, i) <==> OccursAt(a + b, needle, |a| + i)
  {
    if OccursAt(a + b, needle, |a| + i) {
      forall j | 0 <= j < |needle| ensures Key.Lower(b[i + j]) == needle[j] {
        assert Key.Lower((a + b)[|a| + i + j]) == needle[j];
      }
    }
  }

  lemma OccursLater(s: string, needle: string)
    requires 0 < |needle| <= |s|
    ensures Occurs(s, needle) <==> OccursAt(s, needle, 0) || Occurs(s[1..], needle)
  {
    assert s == s[..1] + s[1..];
    forall i: nat ensures OccursAt(s[1..], needle, i) <==> OccursAt(s, needle, i + 1) {
      OccursShifted(s[..1], s[1..], needle, i);
    }
    if Occurs(s, needle) && !OccursAt(s, needle, 0) {
      var i: nat :| OccursAt(s, needle, i);
      assert OccursAt(s[1..], needle, i - 1);
    }
    if Occurs(s[1..], needle) {
      var i: nat :| OccursAt(s[1..], needle, i);
      assert OccursAt(s, needle, i + 1);
    }
  }

  lemma OccurrenceAvoids(s: string, g: char, needle: string, i: nat)
    requires OccursAt(s, needle, i) && Key.Lower(g) !in needle
    ensures forall k :: i <= k < i + |needle| ==> s[k] != g
  {
    forall k | i <= k < i + |needle| ensures s[k] != g {
      assert Key.Lower(s[i + (k - i)]) == needle[k - i];
    }
  }

  // No occurrence straddles a character that the needle does not have.
  lemma NoStraddle(a: string, g: char, b: string, needle: string)
    requires needle != [] && Key.Lower(g) !in needle
    ensures Occurs(a + [g] + b, needle) <==> Occurs(a, needle) || Occurs(b, needle)
  {
    var s := a + [g] + b;
    if Occurs(s, needle) {
      var i: nat :| OccursAt(s, needle, i);
      OccurrenceAvoids(s, g, needle, i);
      assert s[|a|] == g;
      if i + |needle| <= |a| {
        assert OccursAt(a, needle, i);
      } else {
        OccursShifted(a + [g], b, needle, i - |a| - 1);
        assert OccursAt(b, needle, i - |a| - 1);
      }
    }
    if Occurs(a, needle) {
      var i: nat :| OccursAt(a, needle, i);
      assert OccursAt(s, needle, i);
    }
    if Occurs(b, needle) {
      var i: nat :| OccursAt(b, needle, i);
      OccursShifted(a + [g], b, needle, i);
      assert OccursAt(s, needle, |a + [g]| + i);
    }
  }

  lemma NoFalseStart(c: char, b: string, needle: string)
    requires needle != [] && Key.Lower(c) != needle[0]
    ensures Occurs([c] + b, needle) <==> Occurs(b, needle)
  {
    var s := [c] + b;
    assert s[1..] == b;
    if |needle| <= |s| {
      OccursLater(s, needle);
      assert s[0 + 0] == c;
    }
  }

  lemma CommTextIffOccurs(e: string)
    ensures IsCommText(e) <==> exists k :: 0 <= k < |NEEDLES| && Occurs(e, NEEDLES[k])
  {
    forall k | 0 <= k < |NEEDLES|
      ensures Contains(Key.LowerText(e), NEEDLES[k]) <==> Occurs(e, NEEDLES[k])
    {
      ContainsIffOccurs(e, NEEDLES[k]);
    }
  }

  // The texts that say a card is gone, up to ASCII case, and no others.
  lemma CommTextExactly(e: string)
    ensures IsCommText(e) <==>
              || Occurs(e, "removed") || Occurs(e, "reset") || Occurs(e, "transmit")
              || Occurs(e, "no smart card") || Occurs(e, "not transacted") || Occurs(e, "disconnected")
  {
    CommTextIffOccurs(e);
    hide IsCommText, Occurs;
    assert NEEDLES[0] == "removed" && NEEDLES[1] == "reset" && NEEDLES[2] == "transmit";
    assert NEEDLES[3] == "no smart card" && NEEDLES[4] == "not transacted" && NEEDLES[5] == "disconnected";
  }

  // The needles share what the wrappers rely on.
  lemma NeedleShape(k: nat)
    requires k < |NEEDLES|
    ensures var n := NEEDLES[k];
            && |n| >= 5 && n[0] != ' '
            && ':' !in n && '(' !in n && ')' !in n
  {}

  // ---------- texts without a needle ----------

  // Each needle has one of these pairs of neighbouring letters; no text
  // written here has any: remo-ve-d, r-es-et, tran-sm-it, no sm-art card,
  // not tra-ns-acted, di-sc-onnected.
  predicate Telling(x: char, y: char) {
    || (x == 'v' && y == 'e')
    || ((x == 'e' || x == 'n') && y == 's')
    || (x == 's' && (y == 'm' || y == 'c'))
  }

  ghost predicate TellingAt(s: string, i: nat) {
    i + 1 < |s| && Telling(Key.Lower(s[i]), Key.Lower(s[i + 1]))
  }

  ghost predicate Quiet(s: string) {
    forall i: nat :: !TellingAt(s, i)
  }

  lemma OccurrenceIsTelling(s: string, needle: string, i: nat, p: nat)
    requires OccursAt(s, needle, i) && p + 1 < |needle| && Telling(needle[p], needle[p + 1])
    ensures TellingAt(s, i + p)
  {
    assert Key.Lower(s[i + p]) == needle[p] && Key.Lower(s[i + (p + 1)]) == needle[p + 1];
  }

  lemma QuietHasNoNeedle(s: string, k: nat)
    requires Quiet(s) && k < |NEEDLES|
    ensures !Occurs(s, NEEDLES[k])
  {
    if Occurs(s, NEEDLES[k]) {
      var i: nat :| OccursAt(s, NEEDLES[k], i);
      OccurrenceIsTelling(s, NEEDLES[k], i, [4, 1, 4, 3, 7, 2][k]);
    }
  }

  lemma QuietIsNotComm(s: string)
    requires Quiet(s)
    ensures !IsCommText(s)
  {
    CommTextIffOccurs(s);
    forall k | 0 <= k < |NEEDLES| ensures !Occurs(s, NEEDLES[k]) {
      QuietHasNoNeedle(s, k);
    }
  }

  predicate SpaceFirst(s: string) {
    s != [] && s[0] == ' '
  }

  // A text stays quiet when continued by a quiet one that starts with a space.
  lemma QuietJoin(a: string, b: string)
    requires Quiet(a) && Quiet(b) && SpaceFirst(b)
    ensures Quiet(a + b)
    ensures SpaceFirst(a) ==> SpaceFirst(a + b)
  {
    var s := a + b;
    forall i: nat ensures !TellingAt(s, i) {
      if i + 1 < |a| {
        assert !TellingAt(a, i);
      } else if i + 1 > |a| && i + 1 < |s| {
        assert !TellingAt(b, i - |a|);
      }
    }
  }

  lemma PinRejectedQuiet() ensures Quiet(PIN_REJECTED) {}
  lemma SignFailedQuiet() ensures Quiet(SIGN_FAILED) {}
  lemma AdminPinRejectedQuiet() ensures Quiet(ADMIN_PIN_REJECTED) {}
  lemma NoAuthKeyQuiet() ensures Quiet(NO_AUTH_KEY) {}

  lemma FailedQuiet() ensures Quiet(FAILED_WORD) && SpaceFirst(FAILED_WORD) {}
  lemma SlotQuiet() ensures Quiet(SLOT_TO_ED25519) && SpaceFirst(SLOT_TO_ED25519) {}
  lemma ProvisionWordQuiet() ensures Quiet(PROVISION_WORD) && SpaceFirst(PROVISION_WORD) {}
  lemma PointWordsQuiet() ensures Quiet(POINT_WORDS) && SpaceFirst(POINT_WORDS) {}
  lemma SignatureWordQuiet() ensures Quiet(SIGNATURE_WORD) && SpaceFirst(SIGNATURE_WORD) {}
  lemma NonEccKeyQuiet() ensures Quiet(NON_ECC_KEY) && SpaceFirst(NON_ECC_KEY) {}
  lemma UserPinQuiet() ensures Quiet(USER_PIN) && SpaceFirst(USER_PIN) {}

  lemma GenerationFailedQuiet()
    ensures Quiet(GENERATION_FAILED)
  {
    FailedQuiet();
    hide FAILED_WORD;
    QuietJoin("key generation", FAILED_WORD);
  }

  lemma GeneratedNotEccQuiet()
    ensures Quiet(GENERATED_NOT_ECC)
  {
    NonEccKeyQuiet();
    hide NON_ECC_KEY;
    QuietJoin("card generated a", NON_ECC_KEY);
  }

  lemma ProvisionQuiet()
    ensures Quiet(PROVISION_COMMAND) && SpaceFirst(PROVISION_COMMAND)
  {
    ProvisionWordQuiet();
    hide PROVISION_WORD;
    QuietJoin(" `sqnr --yubikey", PROVISION_WORD);
  }

  lemma PointQuiet()
    ensures Quiet(ED25519_POINT) && SpaceFirst(ED25519_POINT)
  {
    PointWordsQuiet();
    hide POINT_WORDS;
    QuietJoin(" 32-byte", POINT_WORDS);
  }

  lemma Non64Quiet()
    ensures Quiet(NON_64_SIGNATURE) && SpaceFirst(NON_64_SIGNATURE)
  {
    SignatureWordQuiet();
    hide SIGNATURE_WORD;
    QuietJoin(" non-64-byte", SIGNATURE_WORD);
  }

  lemma NotUserPinQuiet()
    ensures Quiet(NOT_USER_PIN) && SpaceFirst(NOT_USER_PIN)
  {
    UserPinQuiet();
    hide USER_PIN;
    QuietJoin(" not the 6-digit", USER_PIN);
  }

  lemma DefaultPinQuiet()
    ensures Quiet(DEFAULT_PIN) && SpaceFirst(DEFAULT_PIN)
  {
    NotUserPinQuiet();
    hide NOT_USER_PIN;
    QuietJoin(" (default 12345678),", NOT_USER_PIN);
  }

  lemma SetAlgorithmQuiet()
    ensures Quiet(SET_ALGORITHM_FAILED)
  {
    SlotQuiet();
    hide SLOT_TO_ED25519;
    QuietJoin("could not set the", SLOT_TO_ED25519);
  }

  lemma HintQuiet()
    ensures Quiet(GENERATE_HINT)
  {
    ProvisionQuiet();
    hide PROVISION_COMMAND;
    QuietJoin("; generate one with", PROVISION_COMMAND);
  }

  lemma NotEd25519Quiet() ensures Quiet(NOT_ED25519) && SpaceFirst(NOT_ED25519) {}

  lemma IsRsaQuiet()
    ensures Quiet(IS_RSA)
  {
    NotEd25519Quiet();
    hide NOT_ED25519;
    QuietJoin("auth key is RSA,", NOT_ED25519);
  }

  lemma NotAPointQuiet()
    ensures Quiet(NOT_A_POINT)
  {
    PointQuiet();
    hide ED25519_POINT;
    QuietJoin("auth key is not a", ED25519_POINT);
  }

  lemma GeneratedNotAPointQuiet()
    ensures Quiet(GENERATED_NOT_A_POINT)
  {
    PointQuiet();
    hide ED25519_POINT;
    QuietJoin("generated key is not a", ED25519_POINT);
  }

  lemma BadSignatureLengthQuiet()
    ensures Quiet(BAD_SIGNATURE_LENGTH)
  {
    Non64Quiet();
    hide NON_64_SIGNATURE;
    QuietJoin("card returned a", NON_64_SIGNATURE);
  }

  lemma AdminPinNoteQuiet()
    ensures Quiet(ADMIN_PIN_NOTE) && SpaceFirst(ADMIN_PIN_NOTE)
  {
    DefaultPinQuiet();
    hide DEFAULT_PIN;
    QuietJoin(" ADMIN PIN", DEFAULT_PIN);
  }

  lemma AtLeast8Quiet()
    ensures Quiet(AT_LEAST_8) && SpaceFirst(AT_LEAST_8)
  {
    AdminPinNoteQuiet();
    hide ADMIN_PIN_NOTE;
    QuietJoin(" at least 8. That is the", ADMIN_PIN_NOTE);
  }

  lemma ShortPinTailQuiet()
    ensures Quiet(SHORT_PIN_TAIL) && SpaceFirst(SHORT_PIN_TAIL)
  {
    AtLeast8Quiet();
    hide AT_LEAST_8;
    QuietJoin(" characters; PW3 needs", AT_LEAST_8);
  }

  lemma ShortPinQuiet(n: nat)
    requires n < 8
    ensures Quiet(ShortPin(n))
  {
    ShortPinTailQuiet();
    hide SHORT_PIN_TAIL;
    QuietJoin("admin PIN is " + [('0' as int + n) as char], SHORT_PIN_TAIL);
  }

  lemma WrappersQuiet(m: nat)
    requires m < |WRAPPERS|
    ensures Quiet(WRAPPERS[m])
  {
    PinRejectedQuiet();
    SignFailedQuiet();
    AdminPinRejectedQuiet();
    SetAlgorithmQuiet();
    GenerationFailedQuiet();
    hide PIN_REJECTED, SIGN_FAILED, ADMIN_PIN_REJECTED, SET_ALGORITHM_FAILED, GENERATION_FAILED;
  }

  lemma LocalTextsQuiet(m: nat)
    requires m < |LOCAL_TEXTS|
    ensures Quiet(LOCAL_TEXTS[m])
  {
    NotAPointQuiet();
    IsRsaQuiet();
    BadSignatureLengthQuiet();
    GeneratedNotAPointQuiet();
    GeneratedNotEccQuiet();
    hide NOT_A_POINT, IS_RSA, BAD_SIGNATURE_LENGTH, GENERATED_NOT_A_POINT, GENERATED_NOT_ECC;
  }

  // ---------- the session decision ----------

  lemma WrappedKeepsNeedle(what: string, e: string, k: nat)
    requires Quiet(what) && k < |NEEDLES|
    ensures Occurs(Wrapped(what, e), NEEDLES[k]) <==> Occurs(e, NEEDLES[k])
  {
    var n := NEEDLES[k];
    NeedleShape(k);
    assert Wrapped(what, e) == what + [':'] + ([' '] + e);
    NoStraddle(what, ':', [' '] + e, n);
    QuietHasNoNeedle(what, k);
    NoFalseStart(' ', e, n);
  }

  lemma NoAuthKeyKeepsNeedle(e: string, k: nat)
    requires k < |NEEDLES|
    ensures Occurs(NoAuthKey(e), NEEDLES[k]) <==> Occurs(e, NEEDLES[k])
  {
    var n := NEEDLES[k];
    NeedleShape(k);
    NoAuthKeyQuiet();
    HintQuiet();
    hide NO_AUTH_KEY, GENERATE_HINT;
    assert NoAuthKey(e) == NO_AUTH_KEY + ['('] + (e + [')'] + GENERATE_HINT);
    NoStraddle(NO_AUTH_KEY, '(', e + [')'] + GENERATE_HINT, n);
    NoStraddle(e, ')', GENERATE_HINT, n);
    QuietHasNoNeedle(NO_AUTH_KEY, k);
    QuietHasNoNeedle(GENERATE_HINT, k);
  }

  // Whatever the card says, putting it into one of the messages of the card
  // thread leaves it a lost card or a refusal, as it was.
  lemma WrappingKeepsDecision(e: string, m: nat)
    requires m < |WRAPPERS|
    ensures IsCommText(Wrapped(WRAPPERS[m], e)) <==> IsCommText(e)
    ensures IsCommText(NoAuthKey(e)) <==> IsCommText(e)
  {
    WrappersQuiet(m);
    CommTextIffOccurs(e);
    CommTextIffOccurs(Wrapped(WRAPPERS[m], e));
    CommTextIffOccurs(NoAuthKey(e));
    forall k | 0 <= k < |NEEDLES|
      ensures Occurs(Wrapped(WRAPPERS[m], e), NEEDLES[k]) <==> Occurs(e, NEEDLES[k])
      ensures Occurs(NoAuthKey(e), NEEDLES[k]) <==> Occurs(e, NEEDLES[k])
    {
      WrappedKeepsNeedle(WRAPPERS[m], e, k);
      NoAuthKeyKeepsNeedle(e, k);
    }
  }

  // No message the card thread makes up itself is taken for a lost card.
  lemma LocalTextsKeepCard(m: nat, n: nat)
    requires m < |LOCAL_TEXTS| && n < 8
    ensures !IsCommText(LOCAL_TEXTS[m]) && !IsCommText(ShortPin(n))
  {
    LocalTextsQuiet(m);
    QuietIsNotComm(LOCAL_TEXTS[m]);
    ShortPinQuiet(n);
    QuietIsNotComm(ShortPin(n));
  }
}
