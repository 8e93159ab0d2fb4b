/**
 * The secret codec of the backend (backend/src/security.js): e-mail
 * normalisation, the formatting of the six-digit one-time code, and the
 * keyed code hash and password hash.
 *
 * The two hashes are modelled symbolically: a digest is the term that
 * records its inputs, so equal inputs give equal digests (the functions are
 * deterministic) and, as the ideal HMAC-SHA256 and bcrypt are assumed to be,
 * different inputs never collide. bcrypt's input is not the password itself
 * but its key: 72 bytes read cyclically from the password's UTF-8 encoding
 * followed by a NUL byte, so two passwords that give the same 72 bytes have
 * the same digest. The bcrypt salt is drawn at random by the library, so it is
 * a parameter.
 */
module Security {
  import opened Common
  import opened Text

  /** `hashCode(code)`: HMAC-SHA256 keyed with the server secret. */
  datatype CodeDigest = Hmac(key: string, message: string)

  /** A bcrypt digest of the key bytes `key` under `salt`. */
  datatype PasswordDigest = Bcrypt(key: seq<int>, salt: nat)

  function HashCode(key: string, code: string): CodeDigest { Hmac(key, code) }

  /** bcrypt's key schedule reads this many key bytes. */
  const BcryptKeyBytes: nat := 72

  /** The first `n` bytes of `t` read over and over. */
  function Cycle(t: seq<int>, n: nat): (r: seq<int>)
    requires t != []
    ensures |r| == n
    ensures n <= |t| ==> r == t[..n]
    ensures n > |t| ==> r[..|t|] == t
    decreases n
  {
    if n <= |t| then t[..n] else t + Cycle(t, n - |t|)
  }

  /** Reading a sequence twice over is reading it over and over. */
  lemma {:induction false} CycleDouble(t: seq<int>, n: nat)
    requires t != []
    ensures Cycle(t + t, n) == Cycle(t, n)
    decreases n
  {
    if n <= |t| {
      assert (t + t)[..n] == t[..n];
    } else if n <= 2 * |t| {
      assert (t + t)[..n] == t + t[..n - |t|];
    } else {
      CycleDouble(t, n - 2 * |t|);
      assert Cycle(t, n - |t|) == t + Cycle(t, n - 2 * |t|);
    }
  }

  /** The bytes of a password that bcrypt uses. The key is the UTF-8 encoding followed by a
      NUL byte, and the key schedule reads it cyclically until it has 72 bytes. So a long
      password contributes its first 72 bytes, and a short one its bytes, the NUL, and then
      its bytes again from the start. */
  function BcryptKey(password: string): (k: seq<int>)
    ensures |k| == BcryptKeyBytes
    ensures |Utf8(password)| >= BcryptKeyBytes ==> k == Utf8(password)[..BcryptKeyBytes]
    ensures |Utf8(password)| < BcryptKeyBytes ==> k[..|Utf8(password)| + 1] == Utf8(password) + [0]
  {
    var terminated := Utf8(password) + [0];
    assert |terminated| > BcryptKeyBytes ==> terminated[..BcryptKeyBytes] == Utf8(password)[..BcryptKeyBytes];
    Cycle(terminated, BcryptKeyBytes)
  }

  /** `hashPassword(password)`: `bcrypt.hash` once the library has drawn `salt`. */
  function HashPassword(password: string, salt: nat): PasswordDigest { Bcrypt(BcryptKey(password), salt) }

  /** `verifyPassword(password, hash)`: `bcrypt.compare`, true exactly when the candidate's key
      is the key the digest was made from. */
  predicate VerifyPassword(password: string, digest: PasswordDigest) { digest.key == BcryptKey(password) }

  /** The code-hash lookups rely on this: a stored digest matches a submitted code
      exactly when the submitted code is the one that was hashed. */
  lemma HashCodeMatches(key: string, issued: string, submitted: string)
    ensures HashCode(key, issued) == HashCode(key, submitted) <==> issued == submitted
  {
  }

  /** The password itself always verifies, and so does every candidate that agrees with a long
      password on its first 72 bytes. Between passwords without NUL characters that is all: a
      password shorter than 72 bytes is matched by nothing else, a longer one only by those. */
  lemma PasswordRoundTrip(password: string, candidate: string, salt: nat)
    ensures VerifyPassword(password, HashPassword(password, salt))
    ensures |Utf8(password)| >= BcryptKeyBytes && |Utf8(candidate)| >= BcryptKeyBytes
            && Utf8(candidate)[..BcryptKeyBytes] == Utf8(password)[..BcryptKeyBytes]
            ==> VerifyPassword(candidate, HashPassword(password, salt))
    ensures '\0' !in password && '\0' !in candidate && |Utf8(password)| < BcryptKeyBytes ==>
              (VerifyPassword(candidate, HashPassword(password, salt)) <==> candidate == password)
    ensures '\0' !in password && '\0' !in candidate && |Utf8(password)| >= BcryptKeyBytes ==>
              (VerifyPassword(candidate, HashPassword(password, salt)) <==>
                 |Utf8(candidate)| >= BcryptKeyBytes
                 && Utf8(candidate)[..BcryptKeyBytes] == Utf8(password)[..BcryptKeyBytes])
  {
    if '\0' !in password && '\0' !in candidate && VerifyPassword(candidate, HashPassword(password, salt)) {
      var e, f, k := Utf8(password), Utf8(candidate), BcryptKey(password);
      KeyFirstZero(password);
      KeyFirstZero(candidate);
      if |e| < BcryptKeyBytes {
        assert |f| == |e|;
        assert e == k[..|e|] == f;
        Utf8Injective(candidate, password);
      } else {
        assert |f| >= BcryptKeyBytes;
      }
    }
  }

  /** Without NUL characters, the key's first zero byte is the terminator: there is one exactly
      when the password is shorter than 72 bytes, right after its bytes. */
  lemma KeyFirstZero(password: string)
    requires '\0' !in password
    ensures forall j :: 0 <= j < |Utf8(password)| && j < BcryptKeyBytes ==> BcryptKey(password)[j] != 0
    ensures |Utf8(password)| < BcryptKeyBytes ==> BcryptKey(password)[|Utf8(password)|] == 0
  {
    var e, k := Utf8(password), BcryptKey(password);
    Utf8ZeroFree(password);
    forall j | 0 <= j < |e| && j < BcryptKeyBytes
      ensures k[j] != 0
    {
      if |e| < BcryptKeyBytes {
        assert k[j] == k[..|e| + 1][j] == e[j];
      } else {
        assert k[j] == e[..BcryptKeyBytes][j];
      }
    }
    if |e| < BcryptKeyBytes {
      assert k[|e|] == k[..|e| + 1][|e|];
    }
  }

  /** The truncation in action: once a password fills bcrypt's 72 bytes, anything appended to it
      verifies against its digest too. */
  lemma LongPasswordExtensionsVerify(password: string, suffix: string, salt: nat)
    requires |Utf8(password)| >= BcryptKeyBytes
    ensures VerifyPassword(password + suffix, HashPassword(password, salt))
  {
    Utf8Append(password, suffix);
    assert Utf8(password + suffix)[..BcryptKeyBytes] == Utf8(password)[..BcryptKeyBytes];
  }

  /** The NUL terminator and the cyclic key in action: a short password, a NUL and the password
      again verifies against the short password's digest ("ab" and "ab\u0000ab" share one). */
  lemma NulRepeatVerifies(password: string, salt: nat)
    requires |Utf8(password)| < BcryptKeyBytes
    ensures VerifyPassword(password + "\0" + password, HashPassword(password, salt))
  {
    var t := Utf8(password) + [0];
    Utf8Append(password, "\0");
    Utf8Append(password + "\0", password);
    assert Utf8("\0") == [0];
    assert Utf8(password + "\0" + password) + [0] == t + t;
    CycleDouble(t, BcryptKeyBytes);
  }

  /** `normalizeEmail(email)`: `String(email || '').trim().toLowerCase()`; a missing or
      null value is `None`. */
  function NormalizeEmail(email: Option<string>): (r: string)
    ensures |r| <= |email.GetOr("")|
    ensures IsLower(r)
    ensures r == [] || (!IsSpace(r[0]) && !IsSpace(r[|r| - 1]))
    ensures email.None? ==> r == ""
  {
    var t := Trim(email.GetOr(""));
    LowerIsLower(t);
    LowerKeepsTrimmed(t);
    Lower(t)
  }

  /** Letters beyond ASCII fold as well: an address typed in capitals finds the account. */
  lemma NormalizeEmailFoldsAccents()
    ensures NormalizeEmail(Some(" \U{00C4}NNE@X.DE")) == "\U{00E4}nne@x.de"
  {
    assert Trim(" \U{00C4}NNE@X.DE") == "\U{00C4}NNE@X.DE";
  }

  /** Normalising twice is normalising once. */
  lemma {:induction false} NormalizeEmailIdempotent(email: Option<string>)
    ensures NormalizeEmail(Some(NormalizeEmail(email))) == NormalizeEmail(email)
  {
    var n := NormalizeEmail(email);
    TrimOfTrimmed(n);
    LowerIsLower(Trim(email.GetOr("")));
  }

  /** The shape test every auth handler applies after normalising: non-empty and containing '@'. */
  predicate IsPlausibleEmail(email: string) { email != "" && Contains(email, '@') }

  const CodeSpace: nat := 1_000_000

  /** `randomCode6()` once `crypto.randomInt(0, 1_000_000)` has drawn `n`:
      `String(n).padStart(6, '0')`. */
  function Code6(n: nat): (code: string)
    requires n < CodeSpace
    ensures |code| == 6 && AllDigits(code)
    ensures DecimalValue(code) == n
    ensures |NatToDecimal(n)| <= 6 && code == Repeat('0', 6 - |NatToDecimal(n)|) + NatToDecimal(n)
  {
    var digits := NatToDecimal(n);
    assert Pow10(6) == CodeSpace;
    DecimalLength(n, 6);
    LeadingZerosValue(6 - |digits|, digits);
    DecimalRoundTrip(n);
    PadStart(digits, 6, '0')
  }

  /** Different draws give different codes. */
  lemma Code6Injective(m: nat, n: nat)
    requires m < CodeSpace && n < CodeSpace
    ensures Code6(m) == Code6(n) ==> m == n
  {
  }
}
