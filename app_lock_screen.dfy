/** The lock screen of src/components/AppLockScreen.tsx: the choice between
    fingerprint, password and recovery screens, the count of failed
    fingerprint attempts that falls back on the password after five, the
    registration of a fingerprint credential, and the two loops that turn
    the credential id's bytes into a binary string and back. The WebAuthn
    calls, the password check and the recovery e-mail are outcomes passed in
    as parameters; `localStorage` is a map from key to value. */
module AppLockScreen {
  import opened Common

  const BIOMETRIC_CREDENTIAL_KEY: string := "app_biometric_credential_id"
  const MAX_BIOMETRIC_FAILURES: nat := 5

  newtype byte = b: int | 0 <= b < 256

  datatype Mode = Biometric | Password | Recovery

  // ---------------------------------------------------------------------
  // Bytes and binary strings

  /** `String.fromCharCode(b)` of each byte, in order. */
  function BinaryOf(bytes: seq<byte>): (s: string)
    ensures |s| == |bytes| && forall i :: 0 <= i < |s| ==> s[i] as int == bytes[i] as int
  {
    seq(|bytes|, i requires 0 <= i < |bytes| => bytes[i] as int as char)
  }

  /** `charCodeAt(i)` of each character, stored into a `Uint8Array`, which
      keeps the code modulo 256. */
  function BytesOf(binary: string): (b: seq<byte>)
    ensures |b| == |binary| && forall i :: 0 <= i < |b| ==> b[i] as int == binary[i] as int % 256
  {
    seq(|binary|, i requires 0 <= i < |binary| => (binary[i] as int % 256) as byte)
  }

  /** A binary string: every character code is below 256. */
  predicate IsBinary(s: string) {
    forall i :: 0 <= i < |s| ==> s[i] as int < 256
  }

  /** The bytes come back from their binary string. */
  lemma BytesOfBinary(bytes: seq<byte>)
    ensures IsBinary(BinaryOf(bytes))
    ensures BytesOf(BinaryOf(bytes)) == bytes
  {
    var s := BinaryOf(bytes);
    assert forall i :: 0 <= i < |bytes| ==> BytesOf(s)[i] == bytes[i];
  }

  /** A binary string comes back from its bytes; a character of code 256 or
      more does not. */
  lemma BinaryOfBytes(s: string)
    ensures IsBinary(s) <==> BinaryOf(BytesOf(s)) == s
  {
    var t := BinaryOf(BytesOf(s));
    if IsBinary(s) {
      assert forall i :: 0 <= i < |s| ==> t[i] == s[i];
    } else {
      var i :| 0 <= i < |s| && s[i] as int >= 256;
      assert t[i] as int < 256;
    }
  }

  /** The `forEach` of `bufferToBase64` that builds the binary string. */
  method BytesToBinary(bytes: seq<byte>) returns (binary: string)
    ensures binary == BinaryOf(bytes)
  {
    binary := "";
    var i := 0;
    while i < |bytes|
      invariant 0 <= i <= |bytes|
      invariant binary == BinaryOf(bytes[..i])
    {
      binary := binary + [bytes[i] as int as char];
      i := i + 1;
      assert binary == BinaryOf(bytes[..i]) by {
        assert forall k :: 0 <= k < i ==> binary[k] as int == bytes[..i][k] as int;
      }
    }
    assert bytes[..i] == bytes;
  }

  /** The `for` loop of `base64ToBuffer` that fills the buffer. */
  method BinaryToBytes(binary: string) returns (buffer: array<byte>)
    ensures fresh(buffer)
    ensures buffer[..] == BytesOf(binary)
  {
    buffer := new byte[|binary|];
    for i := 0 to |binary|
      invariant forall k :: 0 <= k < i ==> buffer[k] as int == binary[k] as int % 256
    {
      buffer[i] := (binary[i] as int % 256) as byte;
    }
    assert forall k :: 0 <= k < buffer.Length ==> buffer[..][k] == BytesOf(binary)[k];
  }

  // ---------------------------------------------------------------------
  // Modes and failures

  /** The mode after mounting: password unless a credential is stored and
      the browser supports WebAuthn. */
  function InitialMode(stored: bool, supported: bool): (m: Mode)
    ensures m == Password <==> !(stored && supported)
    ensures m != Recovery
  {
    if !stored || !supported then Password else Biometric
  }

  /** A failed fingerprint attempt: one more failure, and the password
      screen from the fifth on. */
  function AfterFailure(failures: nat, mode: Mode): (r: (nat, Mode))
    ensures r.0 == failures + 1
    ensures r.0 >= MAX_BIOMETRIC_FAILURES ==> r.1 == Password
    ensures r.0 < MAX_BIOMETRIC_FAILURES ==> r.1 == mode
  {
    var n := failures + 1;
    (n, if n >= MAX_BIOMETRIC_FAILURES then Password else mode)
  }

  /** `n` failures in a row, starting from the fingerprint screen. */
  function Failures(n: nat): (nat, Mode) {
    if n == 0 then (0, Biometric) else AfterFailure(Failures(n - 1).0, Failures(n - 1).1)
  }

  /** The count grows by one per failure, and the fingerprint screen holds
      for four failures and gives way to the password at the fifth. */
  lemma {:induction false} FailuresCount(n: nat)
    ensures Failures(n).0 == n
    ensures Failures(n).1 == (if n >= MAX_BIOMETRIC_FAILURES then Password else Biometric)
  {
    if n > 0 {
      FailuresCount(n - 1);
    }
  }

  /** The screens each mode offers a button for; the fingerprint screen
      from the password one only with a registered fingerprint. */
  function Offered(mode: Mode, hasBiometric: bool): (r: set<Mode>)
    ensures mode !in r
    ensures Biometric in r <==> mode == Password && hasBiometric
    ensures Recovery in r <==> mode == Password
    ensures Password in r <==> mode != Password
  {
    match mode
    case Biometric => {Password}
    case Password => if hasBiometric then {Recovery, Biometric} else {Recovery}
    case Recovery => {Password}
  }

  /** What `navigator.credentials.get` gives: an assertion, null, or an
      error (a rejected or cancelled request, or an unreadable id). */
  datatype Assertion = Asserted | NoAssertion | AssertionFailed

  /** What `navigator.credentials.create` gives. */
  datatype Creation = Created(rawId: seq<byte>) | NotCreated | CreationFailed

  class LockScreen {
    var mode: Mode
    var biometricFailures: nat
    var hasBiometric: bool
    var loading: bool
    var recoverySent: bool
    var localStorage: map<string, string>

    /** Mounting, with the effect that reads the stored credential;
        `supported` is `isBiometricSupported()`. */
    constructor (localStorage: map<string, string>, supported: bool)
      ensures this.localStorage == localStorage
      ensures hasBiometric == (BIOMETRIC_CREDENTIAL_KEY in localStorage && localStorage[BIOMETRIC_CREDENTIAL_KEY] != "" && supported)
      ensures mode == InitialMode(BIOMETRIC_CREDENTIAL_KEY in localStorage && localStorage[BIOMETRIC_CREDENTIAL_KEY] != "", supported)
      ensures biometricFailures == 0 && !loading && !recoverySent
    {
      this.localStorage := localStorage;
      biometricFailures := 0;
      loading := false;
      recoverySent := false;
      mode := Biometric;
      var stored := BIOMETRIC_CREDENTIAL_KEY in localStorage && localStorage[BIOMETRIC_CREDENTIAL_KEY] != "";
      hasBiometric := stored && supported;
      if !stored || !supported {
        mode := Password;
      }
    }

    /** `handleBiometricAuth`; the result is whether `onUnlock` is called. */
    method BiometricAuth(outcome: Assertion) returns (unlock: bool)
      modifies this
      ensures !loading && localStorage == old(localStorage) && hasBiometric == old(hasBiometric)
      ensures recoverySent == old(recoverySent)
      ensures !(BIOMETRIC_CREDENTIAL_KEY in localStorage && localStorage[BIOMETRIC_CREDENTIAL_KEY] != "") ==>
        !unlock && mode == Password && biometricFailures == old(biometricFailures)
      ensures BIOMETRIC_CREDENTIAL_KEY in localStorage && localStorage[BIOMETRIC_CREDENTIAL_KEY] != "" ==>
        unlock == (outcome == Asserted)
        && (outcome == AssertionFailed ==> (biometricFailures, mode) == AfterFailure(old(biometricFailures), old(mode)))
        && (outcome != AssertionFailed ==> biometricFailures == old(biometricFailures) && mode == old(mode))
    {
      loading := true;
      unlock := false;
      if !(BIOMETRIC_CREDENTIAL_KEY in localStorage && localStorage[BIOMETRIC_CREDENTIAL_KEY] != "") {
        mode := Password;
      } else {
        match outcome
        case Asserted =>
          unlock := true;
        case NoAssertion =>
        case AssertionFailed =>
          var newFailures := biometricFailures + 1;
          biometricFailures := newFailures;
          if newFailures >= MAX_BIOMETRIC_FAILURES {
            mode := Password;
          }
      }
      loading := false;
    }

    /** `handleRegisterBiometric`. The credential id is stored as its binary
        string; the base64 step is not part of this model. */
    method RegisterBiometric(supported: bool, outcome: Creation)
      modifies this
      ensures !supported ==> mode == old(mode) && hasBiometric == old(hasBiometric)
                             && localStorage == old(localStorage) && loading == old(loading)
      ensures supported && outcome.Created? ==>
        hasBiometric && mode == Biometric && !loading
        && localStorage == old(localStorage)[BIOMETRIC_CREDENTIAL_KEY := BinaryOf(outcome.rawId)]
      ensures supported && !outcome.Created? ==>
        mode == old(mode) && hasBiometric == old(hasBiometric) && localStorage == old(localStorage) && !loading
      ensures biometricFailures == old(biometricFailures) && recoverySent == old(recoverySent)
    {
      if !supported {
        return;
      }
      loading := true;
      if outcome.Created? {
        var credentialId := BytesToBinary(outcome.rawId);
        localStorage := localStorage[BIOMETRIC_CREDENTIAL_KEY := credentialId];
        hasBiometric := true;
        mode := Biometric;
      }
      loading := false;
    }

    /** A mode button; only the offered buttons are on screen. */
    method ChooseMode(target: Mode)
      requires target in Offered(mode, hasBiometric)
      modifies this
      ensures mode == target
      ensures biometricFailures == old(biometricFailures) && hasBiometric == old(hasBiometric)
      ensures localStorage == old(localStorage) && loading == old(loading) && recoverySent == old(recoverySent)
    {
      mode := target;
    }

    /** `handlePasswordSubmit`; `accepted` is whether the backend accepts the
        password. The result is whether `onUnlock` is called. */
    method PasswordSubmit(accepted: bool) returns (unlock: bool)
      modifies this
      ensures unlock == accepted && !loading
      ensures mode == old(mode) && biometricFailures == old(biometricFailures) && hasBiometric == old(hasBiometric)
      ensures localStorage == old(localStorage) && recoverySent == old(recoverySent)
    {
      loading := true;
      unlock := accepted;
      loading := false;
    }

    /** `handlePasswordRecovery`; `sent` is whether the e-mail request
        succeeds. */
    method PasswordRecovery(sent: bool)
      modifies this
      ensures recoverySent == (old(recoverySent) || sent) && !loading
      ensures mode == old(mode) && biometricFailures == old(biometricFailures) && hasBiometric == old(hasBiometric)
      ensures localStorage == old(localStorage)
    {
      loading := true;
      if sent {
        recoverySent := true;
      }
      loading := false;
    }
  }
}
