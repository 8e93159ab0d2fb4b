/**
 * What each account handler of the backend (backend/src/index.js) does to the
 * account tables, as a function from the tables before the request to the
 * tables after it and the reply: registration with a pending record, e-mail
 * verification, password login with an optional second factor, password reset,
 * and the signed-in settings (profile, password, e-mail change, second factor,
 * deactivation, deletion). The class in module AuthWorkflow runs the same
 * handlers as sequences of writes and is proved to agree with these functions.
 *
 * `now()` is the parameter `now`, in seconds; the server secret that keys
 * `hashCode` is `key`. The six-digit code a handler draws is `drawn`, the bcrypt
 * salt `salt`, and the outcome of handing a mail to the transport `mail`; mails
 * the transport accepted are appended to `outbox`. A signed-in handler receives
 * the user id that `requireAuth` (module AuthGate) put in `req.user.sub`.
 */
module AuthHandlers {
  import opened Common
  import opened Text
  import opened JsValues
  import opened Security
  import opened AccountStore

  /** `interval '15 minutes'` and `interval '10 minutes'`, in seconds. */
  const RegistrationTtl: int := 900
  const LoginCodeTtl: int := 600
  const ResetCodeTtl: int := 900
  const EmailChangeTtl: int := 900

  datatype MailKind = VerificationCode | LoginCode | ResetCode | EmailChangeCode

  /** A mail handed to the transport: recipient, purpose and the code in its text. */
  datatype Mail = Mail(to: string, kind: MailKind, code: string)

  /** What `sendMail` did: returned, or threw an error carrying `message`. */
  datatype MailResult = Delivered | Failed(message: string)

  /** The 500 body after a failed send: the error's message, or a fixed text when it has none. */
  function MailFailure(message: string): (r: string)
    ensures r != ""
  {
    if message != "" then message else "Email could not be sent"
  }

  /** The status and JSON body a handler answers with. */
  datatype Reply =
    | Error(status: int, message: string)
    | Done(status: int)
    | Token(claims: Claims)
    | Challenge(challengeId: Option<CodeId>)
    | ChangeRequested(requestId: Option<CodeId>)
    | EmailChanged(email: string)
    | TwoFactorSet(enabled: bool)

  const InvalidEmail: Reply := Error(400, "Invalid email")
  const InvalidCode: Reply := Error(400, "Invalid code")
  const ShortPassword: Reply := Error(400, "Password must be at least 6 chars")
  const BadCredentials: Reply := Error(401, "Invalid credentials")
  const Unauthorized: Reply := Error(401, "Unauthorized")
  const Deactivated: Reply := Error(403, "Account deactivated")
  const NotVerified: Reply := Error(403, "Email not verified")
  const EmailTaken: Reply := Error(409, "Email already registered")

  /** `isValidPassword`: a string (`Some`) whose `length`, in UTF-16 code units, is at least six. */
  predicate IsValidPassword(pw: Option<string>) {
    pw.Some? && Utf16Length(pw.value) >= 6
  }

  /** `String(x || '').trim()` for a request field; `None` is a missing or falsy field. */
  function FormText(v: Option<string>): string {
    Trim(v.GetOr(""))
  }

  /** The username a profile update asks for: trimmed and lower-cased, `None` when empty. */
  function DesiredUsername(raw: Option<string>): (r: Option<string>)
    ensures r.None? <==> raw.None? || Trim(raw.value) == ""
    ensures r.Some? ==> r.value == Lower(Trim(raw.value)) && r.value != "" && IsLower(r.value)
  {
    var t := if raw.Some? then Trim(raw.value) else "";
    LowerIsLower(t);
    if t == "" then None else Some(Lower(t))
  }

  /** The Kelvin sign lower-cases to an ASCII 'k', so "\u212Aate" asks for "kate". */
  lemma KelvinSignUsername()
    ensures DesiredUsername(Some("\U{212A}ate")) == Some("kate")
  {
    var t := "\U{212A}ate";
    assert Trim(t) == t;
    assert LowerChar(t[0]) == 'k' && LowerChar(t[1]) == 'a' && LowerChar(t[2]) == 't' && LowerChar(t[3]) == 'e';
    assert Lower(t) == "kate";
  }

  /** Three emoji are six UTF-16 code units, enough for a password. */
  lemma EmojiPasswordLength()
    ensures IsValidPassword(Some("\U{1F600}\U{1F600}\U{1F600}"))
  {
  }

  predicate UsernameChar(c: char) {
    ('a' <= c <= 'z') || ('0' <= c <= '9') || c == '_' || c == '.'
  }

  /** `/^[a-z0-9_.]+$/` once the length is known to be positive. */
  predicate UsernameChars(u: string) {
    forall i :: 0 <= i < |u| ==> UsernameChar(u[i])
  }

  /** A `length` of 3 to 20, every character matching `[a-z0-9_.]`. */
  predicate ValidUsername(u: string) {
    3 <= Utf16Length(u) <= 20 && UsernameChars(u)
  }

  /** A user's username is truthy. */
  predicate HasUsername(u: User) {
    u.username.Some? && u.username.value != ""
  }

  const AvatarStyles: set<string> := {"pixel-art", "bottts", "avataaars", "identicon", "thumbs", "lorelei"}

  /** The profile fields a profile update stores, from the raw request fields. */
  function ProfileBio(raw: Option<string>): (r: string)
    ensures Utf16Length(r) <= 280
    ensures raw.None? ==> r == ""
    ensures raw.Some? ==> |r| <= |raw.value| && r == raw.value[..|r|]
    ensures raw.Some? && Utf16Length(raw.value) <= 280 ==> r == raw.value
  {
    if raw.Some? then SliceUnits(raw.value, 280) else ""
  }

  function ProfileAvatarStyle(raw: Option<string>): string {
    if raw.Some? && raw.value != "" then Trim(raw.value) else "pixel-art"
  }

  function ProfileAvatarSeed(raw: Option<string>): (r: string)
    ensures Utf16Length(r) <= 80
    ensures raw.None? || raw.value == "" ==> r == ""
    ensures raw.Some? && raw.value != "" ==>
              |r| <= |Trim(raw.value)| && r == Trim(raw.value)[..|r|]
              && (Utf16Length(Trim(raw.value)) <= 80 ==> r == Trim(raw.value))
  {
    if raw.Some? && raw.value != "" then SliceUnits(Trim(raw.value), 80) else ""
  }

  /** The account tables, the id counter for new users, and the mails sent. */
  datatype Db = Db(
    users: map<UserId, User>,
    nextUserId: UserId,
    pending: map<string, PendingRegistration>,
    verificationCodes: seq<CodeRow>,
    loginCodes: seq<CodeRow>,
    resetCodes: seq<CodeRow>,
    emailChangeCodes: seq<CodeRow>,
    outbox: seq<Mail>)

  /** The table invariants: unique e-mails and usernames, user ids below the counter, and
      pending registrations keyed by plausible normalised e-mails (one row per e-mail). */
  ghost predicate ValidDb(db: Db) {
    && EmailsUnique(db.users)
    && UsernamesUnique(db.users)
    && (forall id :: id in db.users ==> id < db.nextUserId)
    && (forall e :: e in db.pending ==> IsPlausibleEmail(e))
  }

  /** The legacy verification of an unverified user keeps the invariants and rewrites no
      verified user. */
  lemma LegacyVerifyKeeps(db: Db, id: UserId, after: Db)
    requires ValidDb(db) && id in db.users && !db.users[id].emailVerified
    requires after.users == db.users[id := db.users[id].(emailVerified := true)]
    requires after.nextUserId == db.nextUserId && after.pending == db.pending
    ensures ValidDb(after) && KeepsVerifiedUsers(db.users, after.users)
    ensures VerifiedOwner(after.users, db.users[id].email)
  {
    UpdateKeepsUnique(db.users, id, db.users[id].(emailVerified := true));
    assert after.users[id].email == db.users[id].email && after.users[id].emailVerified;
  }

  /** Promoting a matching pending registration keeps the invariants. */
  lemma PromoteKeepsValid(db: Db, email: string, after: Db)
    requires ValidDb(db) && email in db.pending
    requires after.users == PromoteUser(db.users, email, db.pending[email].passwordHash, db.nextUserId)
    requires after.nextUserId == db.nextUserId + 1 && after.pending == db.pending - {email}
    ensures ValidDb(after) && KeepsVerifiedUsers(db.users, after.users) && VerifiedOwner(after.users, email)
    ensures !VerifiedOwner(db.users, email) ==> HoldsVerified(after.users, email, db.pending[email].passwordHash)
  {
    PromoteUserKeeps(db.users, email, db.pending[email].passwordHash, db.nextUserId);
  }

  /** Rewriting one user's columns other than the e-mail keeps the invariants, provided the
      username is unchanged or one nobody else holds. */
  lemma UpdateKeepsValid(db: Db, id: UserId, u: User, after: Db)
    requires ValidDb(db) && id in db.users && u.email == db.users[id].email
    requires u.username == db.users[id].username || (u.username.Some? && !UsernameTaken(db.users, u.username.value, id))
    requires after.users == db.users[id := u] && after.nextUserId == db.nextUserId && after.pending == db.pending
    ensures ValidDb(after)
  {
    var users := db.users[id := u];
    forall a, b | a in users && b in users && a != b && users[a].username.Some?
      ensures users[a].username != users[b].username
    {
      if a != id && b != id {
        assert users[a] == db.users[a] && users[b] == db.users[b];
      } else if u.username != db.users[id].username {
        var other := if a == id then b else a;
        assert users[other] == db.users[other];
        assert db.users[other].username != u.username;
      } else {
        assert users[a].username == db.users[a].username && users[b].username == db.users[b].username;
      }
    }
  }

  /** Moving a user to an e-mail nobody holds keeps the invariants. */
  lemma EmailChangeKeepsValid(db: Db, id: UserId, email: string, after: Db)
    requires ValidDb(db) && id in db.users && !Registered(db.users, email)
    requires after.users == db.users[id := db.users[id].(email := email)]
    requires after.nextUserId == db.nextUserId && after.pending == db.pending
    ensures ValidDb(after)
  {
    var users := after.users;
    forall a, b | a in users && b in users && a != b
      ensures users[a].email != users[b].email
    {
      if a != id && b != id {
        assert users[a] == db.users[a] && users[b] == db.users[b];
      } else {
        var other := if a == id then b else a;
        assert users[other] == db.users[other];
      }
    }
    assert UsernamesUnique(users) by {
      UpdateKeepsUnique(db.users, id, db.users[id]);
      forall a, b | a in users && b in users && a != b && users[a].username.Some?
        ensures users[a].username != users[b].username
      {
        assert users[a].username == db.users[a].username && users[b].username == db.users[b].username;
      }
    }
  }

  /** A username once set stays: every user of `before` with a username is still there with it. */
  ghost predicate UsernamesKept(before: map<UserId, User>, after: map<UserId, User>) {
    forall id :: id in before && HasUsername(before[id]) ==> id in after && after[id].username == before[id].username
  }

  /** The tables after a request, and the reply. */
  datatype Outcome = Outcome(db: Db, reply: Reply)

  /** The pending registration for `email` holds `digest` and has not expired. */
  predicate PendingMatches(pending: map<string, PendingRegistration>, email: string, digest: CodeDigest, now: int) {
    email in pending && pending[email].codeHash == digest && pending[email].expiresAt > now
  }

  /** `a` and `b` hold the same users, pending registrations and counter. */
  ghost predicate SameAccounts(a: Db, b: Db) {
    a.users == b.users && a.pending == b.pending && a.nextUserId == b.nextUserId
  }

  /** The four code tables are the same, except possibly the login codes. */
  ghost predicate SameCodesButLogin(a: Db, b: Db) {
    a.verificationCodes == b.verificationCodes && a.resetCodes == b.resetCodes
    && a.emailChangeCodes == b.emailChangeCodes
  }

  // The write phases of the handlers: what each one does to the tables once its checks have
  // passed. The handlers below end in these, and so do the methods of AuthWorkflow.AuthServer.

  /** Registration: the e-mail's unverified holders are deleted when there were any, expired
      registrations are swept, `row` is upserted for the e-mail, and then the mail is queued or,
      when it could not be sent, the row is deleted again. */
  function StoreRegistration(db: Db, now: int, email: string, clearHolder: bool, row: PendingRegistration,
                             code: string, mail: MailResult): Outcome
  {
    var users := if clearHolder then RemoveUnverified(db.users, email) else db.users;
    var pending := SweepExpired(db.pending, now)[email := row];
    if mail.Failed? then
      Outcome(db.(users := users, pending := pending - {email}), Error(500, MailFailure(mail.message)))
    else
      Outcome(db.(users := users, pending := pending, outbox := db.outbox + [Mail(email, VerificationCode, code)]),
              Done(201))
  }

  /** Verification by a pending registration: the user upsert, then the pending row is deleted. */
  function PromotePending(db: Db, email: string): Outcome
    requires ValidDb(db) && email in db.pending
  {
    Outcome(db.(users := PromoteUser(db.users, email, db.pending[email].passwordHash, db.nextUserId),
                nextUserId := db.nextUserId + 1,
                pending := db.pending - {email}),
            Done(200))
  }

  /** Legacy verification: code row `c` is used up and user `id` is marked verified. */
  function MarkVerified(db: Db, now: int, id: UserId, c: CodeId): Outcome
    requires id in db.users && c < |db.verificationCodes|
  {
    Outcome(db.(verificationCodes := Consume(db.verificationCodes, c, now),
                users := db.users[id := db.users[id].(emailVerified := true)]),
            Done(200))
  }

  /** A second-factor challenge: the code row is inserted, the mail is sent, and the reply names
      the newest usable login code of the user. */
  function IssueLoginCode(db: Db, now: int, email: string, row: CodeRow, code: string, mail: MailResult): (o: Outcome)
    ensures SameAccounts(o.db, db) && SameCodesButLogin(o.db, db) && o.db.loginCodes == db.loginCodes + [row]
  {
    var loginCodes := db.loginCodes + [row];
    if mail.Failed? then Outcome(db.(loginCodes := loginCodes), Error(500, MailFailure(mail.message)))
    else
      Outcome(db.(loginCodes := loginCodes, outbox := db.outbox + [Mail(email, LoginCode, code)]),
              Challenge(LatestSelected(loginCodes, CodeFilter(row.owner, None, None), now)))
  }

  /** A reset request for a known e-mail: the code row is inserted, then the mail is sent. */
  function IssueResetCode(db: Db, email: string, row: CodeRow, code: string, mail: MailResult): (o: Outcome)
    ensures SameAccounts(o.db, db) && o.db.resetCodes == db.resetCodes + [row]
    ensures o.db.verificationCodes == db.verificationCodes && o.db.loginCodes == db.loginCodes
    ensures o.db.emailChangeCodes == db.emailChangeCodes
  {
    var resetCodes := db.resetCodes + [row];
    if mail.Failed? then Outcome(db.(resetCodes := resetCodes), Error(500, MailFailure(mail.message)))
    else Outcome(db.(resetCodes := resetCodes, outbox := db.outbox + [Mail(email, ResetCode, code)]), Done(200))
  }

  /** A reset: code row `c` is used up and user `id` gets the new password hash. */
  function ApplyReset(db: Db, now: int, id: UserId, c: CodeId, hash: PasswordDigest): Outcome
    requires id in db.users && c < |db.resetCodes|
  {
    Outcome(db.(resetCodes := Consume(db.resetCodes, c, now),
                users := db.users[id := db.users[id].(passwordHash := hash)]),
            Done(200))
  }

  /** An e-mail change request: the code row is inserted, the mail is sent to the new address,
      and the reply names the newest usable code of the user for that address. */
  function IssueEmailChangeCode(db: Db, now: int, row: CodeRow, code: string, mail: MailResult): (o: Outcome)
    requires row.newEmail.Some?
    ensures SameAccounts(o.db, db) && o.db.emailChangeCodes == db.emailChangeCodes + [row]
    ensures o.db.verificationCodes == db.verificationCodes && o.db.loginCodes == db.loginCodes
    ensures o.db.resetCodes == db.resetCodes
  {
    var codes := db.emailChangeCodes + [row];
    if mail.Failed? then Outcome(db.(emailChangeCodes := codes), Error(500, MailFailure(mail.message)))
    else
      Outcome(db.(emailChangeCodes := codes, outbox := db.outbox + [Mail(row.newEmail.value, EmailChangeCode, code)]),
              ChangeRequested(LatestSelected(codes, CodeFilter(row.owner, None, row.newEmail), now)))
  }

  /** An e-mail change: code row `r` is used up, then the user's e-mail is rewritten (an update
      that matches no row when the user is gone). */
  function ApplyEmailChange(db: Db, now: int, userId: UserId, r: CodeId, newEmail: string): Outcome
    requires r < |db.emailChangeCodes|
  {
    var codes := Consume(db.emailChangeCodes, r, now);
    if userId in db.users then
      Outcome(db.(emailChangeCodes := codes, users := db.users[userId := db.users[userId].(email := newEmail)]),
              EmailChanged(newEmail))
    else Outcome(db.(emailChangeCodes := codes), EmailChanged(newEmail))
  }

  /** POST /auth/register. */
  function Register(db: Db, key: string, now: int, emailIn: Option<string>, password: Option<string>,
                    salt: nat, drawn: nat, mail: MailResult): (o: Outcome)
    requires ValidDb(db) && drawn < CodeSpace
    ensures ValidDb(o.db)
    ensures o.db.nextUserId == db.nextUserId && SameCodesButLogin(o.db, db) && o.db.loginCodes == db.loginCodes
  {
    var email := NormalizeEmail(emailIn);
    if !IsPlausibleEmail(email) then Outcome(db, InvalidEmail)
    else if !IsValidPassword(password) then Outcome(db, ShortPassword)
    else
      var existing := OwnerOf(db.users, email);
      OwnerOfVerified(db.users, email);
      if existing.Some? && db.users[existing.value].emailVerified then Outcome(db, EmailTaken)
      else
        CleanupFreesEmail(db.users, email);
        var code := Code6(drawn);
        var row := PendingRegistration(HashPassword(password.value, salt), HashCode(key, code), now + RegistrationTtl, now);
        SweepThenUpsert(db.pending, now, email, row);
        StoreRegistration(db, now, email, existing.Some?, row, code, mail)
  }

  /** What registration promises: which requests it refuses, and the pending row and mail it leaves otherwise. */
  lemma RegisterRules(db: Db, key: string, now: int, emailIn: Option<string>, password: Option<string>,
                      salt: nat, drawn: nat, mail: MailResult, o: Outcome)
    requires ValidDb(db) && drawn < CodeSpace
    requires o == Register(db, key, now, emailIn, password, salt, drawn, mail)
    // a malformed request, and an e-mail a verified user holds, are refused with nothing written
    ensures var email := NormalizeEmail(emailIn);
      && (!IsPlausibleEmail(email) ==> o == Outcome(db, InvalidEmail))
      && (IsPlausibleEmail(email) && !IsValidPassword(password) ==> o == Outcome(db, ShortPassword))
      && (IsPlausibleEmail(email) && IsValidPassword(password) && VerifiedOwner(db.users, email) ==>
            o == Outcome(db, EmailTaken))
    // otherwise: unverified holders of the e-mail are deleted and every other user kept as is,
    // expired registrations are swept, and the e-mail is left with one pending row that expires
    // in 15 minutes, unless the mail failed, in which case it has none and the reply is 500
    ensures var email := NormalizeEmail(emailIn);
      IsPlausibleEmail(email) && IsValidPassword(password) && !VerifiedOwner(db.users, email) ==>
        var code := Code6(drawn);
        && !Registered(o.db.users, email)
        && (forall id :: id in o.db.users ==> id in db.users && o.db.users[id] == db.users[id])
        && (forall id :: id in db.users && db.users[id].email != email ==> id in o.db.users)
        && OthersSwept(db.pending, o.db.pending, email, now)
        && if mail.Delivered? then
             && o.reply == Done(201)
             && email in o.db.pending
             && o.db.pending[email] == PendingRegistration(
                  HashPassword(password.value, salt), HashCode(key, code), now + RegistrationTtl, now)
             && o.db.outbox == db.outbox + [Mail(email, VerificationCode, code)]
           else
             && o.reply == Error(500, MailFailure(mail.message))
             && email !in o.db.pending
             && o.db.outbox == db.outbox
  {
    var email := NormalizeEmail(emailIn);
    if IsPlausibleEmail(email) && IsValidPassword(password) {
      OwnerOfVerified(db.users, email);
      if !VerifiedOwner(db.users, email) {
        CleanupFreesEmail(db.users, email);
        var code := Code6(drawn);
        var row := PendingRegistration(HashPassword(password.value, salt), HashCode(key, code), now + RegistrationTtl, now);
        SweepThenUpsert(db.pending, now, email, row);
        assert o == StoreRegistration(db, now, email, OwnerOf(db.users, email).Some?, row, code, mail);
      }
    }
  }

  /** POST /auth/verify-email. */
  function VerifyEmail(db: Db, key: string, now: int, emailIn: Option<string>, codeIn: Option<string>): (o: Outcome)
    requires ValidDb(db)
    ensures ValidDb(o.db)
    ensures o.db.outbox == db.outbox && o.db.loginCodes == db.loginCodes
    ensures o.db.resetCodes == db.resetCodes && o.db.emailChangeCodes == db.emailChangeCodes
  {
    var email := NormalizeEmail(emailIn);
    var code := FormText(codeIn);
    if !IsPlausibleEmail(email) then Outcome(db, InvalidEmail)
    else if code == "" then Outcome(db, InvalidCode)
    else
      var existing := OwnerOf(db.users, email);
      OwnerOfVerified(db.users, email);
      if existing.Some? && db.users[existing.value].emailVerified then Outcome(db, Done(200))
      else
        var digest := HashCode(key, code);
        if PendingMatches(db.pending, email, digest, now) then
          var o := PromotePending(db, email);
          PromoteKeepsValid(db, email, o.db);
          o
        else if existing.None? then Outcome(db, InvalidCode)
        else
          HolderCodeLookup(db.users, db.verificationCodes, email, digest, now);
          var id := existing.value;
          match LatestSelected(db.verificationCodes, CodeFilter(id, Some(digest), None), now)
          case None => Outcome(db, InvalidCode)
          case Some(c) =>
            var o := MarkVerified(db, now, id, c);
            LegacyVerifyKeeps(db, id, o.db);
            o
  }

  /** What e-mail verification promises: a verified owner gets 200 again, a matching pending row becomes a verified user, a legacy unverified user is verified by its latest matching code, and anything else is "Invalid code". */
  lemma VerifyEmailRules(db: Db, key: string, now: int, emailIn: Option<string>, codeIn: Option<string>, o: Outcome)
    requires ValidDb(db)
    requires o == VerifyEmail(db, key, now, emailIn, codeIn)
    // every refusal after the e-mail check is the same 400, and a refusal writes nothing
    ensures o.reply == Done(200) || o.reply == InvalidEmail || o.reply == InvalidCode
    ensures o.reply != Done(200) ==> o.db == db
    ensures o.reply == Done(200) ==> VerifiedOwner(o.db.users, NormalizeEmail(emailIn))
    // no user is deleted, and a verified user is never rewritten
    ensures KeepsVerifiedUsers(db.users, o.db.users)
    ensures var email := NormalizeEmail(emailIn);
      var code := FormText(codeIn);
      var digest := HashCode(key, code);
      && (!IsPlausibleEmail(email) ==> o.reply == InvalidEmail)
      && (IsPlausibleEmail(email) && code == "" ==> o.reply == InvalidCode)
      && (IsPlausibleEmail(email) && code != "" ==>
            && (VerifiedOwner(db.users, email) ==> o == Outcome(db, Done(200)))
            && (!VerifiedOwner(db.users, email) && PendingMatches(db.pending, email, digest, now) ==>
                  && o.reply == Done(200)
                  && HoldsVerified(o.db.users, email, db.pending[email].passwordHash)
                  && o.db.pending == db.pending - {email})
            && (!VerifiedOwner(db.users, email) && !PendingMatches(db.pending, email, digest, now) ==>
                  (o.reply == Done(200) <==> HolderCodeMatches(db.users, db.verificationCodes, email, digest, now))))
  {
    var email := NormalizeEmail(emailIn);
    var code := FormText(codeIn);
    if IsPlausibleEmail(email) && code != "" {
      OwnerOfVerified(db.users, email);
      var existing := OwnerOf(db.users, email);
      var digest := HashCode(key, code);
      if existing.Some? && db.users[existing.value].emailVerified {
      } else if PendingMatches(db.pending, email, digest, now) {
        PromoteKeepsValid(db, email, o.db);
      } else if existing.Some? {
        HolderCodeLookup(db.users, db.verificationCodes, email, digest, now);
        var id := existing.value;
        var c := LatestSelected(db.verificationCodes, CodeFilter(id, Some(digest), None), now);
        if c.Some? {
          LegacyVerifyKeeps(db, id, o.db);
        }
      } else {
        HolderCodeLookup(db.users, db.verificationCodes, email, digest, now);
      }
    }
  }

  /** POST /auth/login. */
  function Login(db: Db, key: string, now: int, emailIn: Option<string>, password: Option<string>,
                 drawn: nat, mail: MailResult): (o: Outcome)
    requires ValidDb(db) && drawn < CodeSpace
    ensures ValidDb(o.db)
    ensures SameAccounts(o.db, db) && SameCodesButLogin(o.db, db)
  {
    var email := NormalizeEmail(emailIn);
    if !IsPlausibleEmail(email) then Outcome(db, InvalidEmail)
    else if password.None? then Outcome(db, Error(400, "Invalid password"))
    else
      var existing := OwnerOf(db.users, email);
      OwnerOfVerified(db.users, email);
      if existing.None? then Outcome(db, BadCredentials)
      else
        var id := existing.value;
        var u := db.users[id];
        if !u.active then Outcome(db, Deactivated)
        else if !VerifyPassword(password.value, u.passwordHash) then Outcome(db, BadCredentials)
        else if !u.emailVerified then Outcome(db, NotVerified)
        else if u.twoFactorEnabled then
          var code := Code6(drawn);
          var row := CodeRow(id, HashCode(key, code), now + LoginCodeTtl, None, now, None);
          LatestIsAppended(db.loginCodes, row, CodeFilter(id, None, None), now);
          IssueLoginCode(db, now, email, row, code, mail)
        else Outcome(db, Token(Claims(id, email)))
  }

  /** What password login promises: the refusals, the token for a user without a second factor, and the login code issued for one with it. */
  lemma LoginRules(db: Db, key: string, now: int, emailIn: Option<string>, password: Option<string>,
                   drawn: nat, mail: MailResult, o: Outcome)
    requires ValidDb(db) && drawn < CodeSpace
    requires o == Login(db, key, now, emailIn, password, drawn, mail)
    // only a second-factor challenge, or a failed challenge mail, writes anything
    ensures !o.reply.Challenge? && !(o.reply.Error? && o.reply.status == 500) ==> o.db == db
    // a token goes only to an active, verified user without a second factor who gave the right password
    ensures o.reply.Token? ==>
      var id := o.reply.claims.sub;
      && o.reply.claims.email == NormalizeEmail(emailIn)
      && id in db.users && db.users[id].email == NormalizeEmail(emailIn)
      && db.users[id].active && db.users[id].emailVerified && !db.users[id].twoFactorEnabled
      && password.Some? && VerifyPassword(password.value, db.users[id].passwordHash)
    ensures var email := NormalizeEmail(emailIn);
      && (!IsPlausibleEmail(email) ==> o.reply == InvalidEmail)
      && (IsPlausibleEmail(email) && password.None? ==> o.reply == Error(400, "Invalid password"))
      && (IsPlausibleEmail(email) && password.Some? && !Registered(db.users, email) ==> o.reply == BadCredentials)
      // an unknown e-mail gets the same 401 as a wrong password
    ensures var email := NormalizeEmail(emailIn);
      IsPlausibleEmail(email) && password.Some? ==>
        forall id :: id in db.users && db.users[id].email == email ==>
          var u := db.users[id];
          var right := VerifyPassword(password.value, u.passwordHash);
          && (!u.active ==> o.reply == Deactivated)
          && (u.active && !right ==> o.reply == BadCredentials)
          && (u.active && right && !u.emailVerified ==> o.reply == NotVerified)
          && (u.active && right && u.emailVerified && !u.twoFactorEnabled ==> o.reply == Token(Claims(id, email)))
          && (u.active && right && u.emailVerified && u.twoFactorEnabled ==>
                var code := Code6(drawn);
                && o.db.loginCodes == db.loginCodes + [CodeRow(id, HashCode(key, code), now + LoginCodeTtl, None, now, None)]
                && if mail.Delivered? then
                     o.reply == Challenge(Some(|db.loginCodes|)) && o.db.outbox == db.outbox + [Mail(email, LoginCode, code)]
                   else
                     o.reply == Error(500, MailFailure(mail.message)) && o.db.outbox == db.outbox)
  {
  }

  /** POST /auth/login-2fa; `challengeId` is `None` when the field is missing or empty. */
  function LoginSecondFactor(db: Db, key: string, now: int, emailIn: Option<string>, challengeId: Option<CodeId>,
                             codeIn: Option<string>): (o: Outcome)
    requires ValidDb(db)
    ensures ValidDb(o.db)
    ensures SameAccounts(o.db, db) && SameCodesButLogin(o.db, db) && o.db.outbox == db.outbox
    ensures !o.reply.Token? ==> o.db == db
    // a token only for the right, unused, unexpired code of this challenge, which is then used up
    ensures o.reply.Token? ==>
      var id := o.reply.claims.sub;
      var email := NormalizeEmail(emailIn);
      && challengeId.Some? && o.reply.claims.email == email
      && id in db.users && db.users[id].email == email
      && db.users[id].active && db.users[id].emailVerified && db.users[id].twoFactorEnabled
      && SelectedById(db.loginCodes, challengeId.value, CodeFilter(id, Some(HashCode(key, FormText(codeIn))), None), now)
      && o.db.loginCodes == Consume(db.loginCodes, challengeId.value, now)
  {
    var email := NormalizeEmail(emailIn);
    var code := FormText(codeIn);
    if !IsPlausibleEmail(email) then Outcome(db, InvalidEmail)
    else if challengeId.None? then Outcome(db, Error(400, "Invalid challengeId"))
    else if code == "" then Outcome(db, InvalidCode)
    else
      var existing := OwnerOf(db.users, email);
      OwnerOfVerified(db.users, email);
      if existing.None? then Outcome(db, BadCredentials)
      else
        var id := existing.value;
        var u := db.users[id];
        if !u.active then Outcome(db, Deactivated)
        else if !u.emailVerified then Outcome(db, NotVerified)
        else if !u.twoFactorEnabled then Outcome(db, Error(400, "2FA not enabled"))
        else if !SelectedById(db.loginCodes, challengeId.value, CodeFilter(id, Some(HashCode(key, code)), None), now) then
          Outcome(db, InvalidCode)
        else
          Outcome(db.(loginCodes := Consume(db.loginCodes, challengeId.value, now)), Token(Claims(id, email)))
  }

  /** The order of the second-factor checks: an unknown e-mail gets the same 401 as at
      login, the account must be active, verified and have the second factor on, and then only
      the right, unused, unexpired code of this very challenge is accepted; a wrong, used or
      expired one gets "Invalid code". */
  lemma LoginSecondFactorRules(db: Db, key: string, now: int, emailIn: Option<string>, challengeId: Option<CodeId>,
                               codeIn: Option<string>, o: Outcome)
    requires ValidDb(db)
    requires o == LoginSecondFactor(db, key, now, emailIn, challengeId, codeIn)
    ensures var email := NormalizeEmail(emailIn);
      var code := FormText(codeIn);
      && (!IsPlausibleEmail(email) ==> o.reply == InvalidEmail)
      && (IsPlausibleEmail(email) && challengeId.None? ==> o.reply == Error(400, "Invalid challengeId"))
      && (IsPlausibleEmail(email) && challengeId.Some? && code == "" ==> o.reply == InvalidCode)
      && (IsPlausibleEmail(email) && challengeId.Some? && code != "" ==>
            && (!Registered(db.users, email) ==> o.reply == BadCredentials)
            && forall id :: id in db.users && db.users[id].email == email ==>
                 var u := db.users[id];
                 && (!u.active ==> o.reply == Deactivated)
                 && (u.active && !u.emailVerified ==> o.reply == NotVerified)
                 && (u.active && u.emailVerified && !u.twoFactorEnabled ==> o.reply == Error(400, "2FA not enabled"))
                 && (u.active && u.emailVerified && u.twoFactorEnabled ==>
                       if SelectedById(db.loginCodes, challengeId.value, CodeFilter(id, Some(HashCode(key, code)), None), now)
                       then o.reply == Token(Claims(id, email))
                       else o.reply == InvalidCode))
  {
    OwnerOfVerified(db.users, NormalizeEmail(emailIn));
  }

  /** POST /auth/request-password-reset. */
  function RequestPasswordReset(db: Db, key: string, now: int, emailIn: Option<string>, drawn: nat,
                                mail: MailResult): (o: Outcome)
    requires ValidDb(db) && drawn < CodeSpace
    ensures ValidDb(o.db)
    ensures SameAccounts(o.db, db)
    ensures o.db.verificationCodes == db.verificationCodes && o.db.loginCodes == db.loginCodes
    ensures o.db.emailChangeCodes == db.emailChangeCodes
  {
    var email := NormalizeEmail(emailIn);
    if !IsPlausibleEmail(email) then Outcome(db, InvalidEmail)
    else
      var existing := OwnerOf(db.users, email);
      OwnerOfVerified(db.users, email);
      if existing.None? then Outcome(db, Done(200))
      else
        var code := Code6(drawn);
        IssueResetCode(db, email, CodeRow(existing.value, HashCode(key, code), now + ResetCodeTtl, None, now, None), code, mail)
  }

  /** What a reset request promises: an unknown e-mail learns nothing (200), a known one gets a fresh 15-minute reset code mailed. */
  lemma RequestPasswordResetRules(db: Db, key: string, now: int, emailIn: Option<string>, drawn: nat,
                                  mail: MailResult, o: Outcome)
    requires ValidDb(db) && drawn < CodeSpace
    requires o == RequestPasswordReset(db, key, now, emailIn, drawn, mail)
    ensures var email := NormalizeEmail(emailIn);
      && (!IsPlausibleEmail(email) ==> o == Outcome(db, InvalidEmail))
      && (IsPlausibleEmail(email) && !Registered(db.users, email) ==> o == Outcome(db, Done(200)))
      && (IsPlausibleEmail(email) && mail.Delivered? ==> o.reply == Done(200))
      && (IsPlausibleEmail(email) ==>
            forall id :: id in db.users && db.users[id].email == email ==>
              var code := Code6(drawn);
              && o.db.resetCodes == db.resetCodes + [CodeRow(id, HashCode(key, code), now + ResetCodeTtl, None, now, None)]
              && if mail.Delivered? then o.db.outbox == db.outbox + [Mail(email, ResetCode, code)]
                 else o.reply == Error(500, MailFailure(mail.message)) && o.db.outbox == db.outbox)
  {
  }

  /** POST /auth/reset-password. */
  function ResetPassword(db: Db, key: string, now: int, emailIn: Option<string>, codeIn: Option<string>,
                         newPassword: Option<string>, salt: nat): (o: Outcome)
    requires ValidDb(db)
    ensures ValidDb(o.db)
    ensures o.db.pending == db.pending && o.db.nextUserId == db.nextUserId && o.db.outbox == db.outbox
    ensures o.db.verificationCodes == db.verificationCodes && o.db.loginCodes == db.loginCodes
    ensures o.db.emailChangeCodes == db.emailChangeCodes
  {
    var email := NormalizeEmail(emailIn);
    var code := FormText(codeIn);
    if !IsPlausibleEmail(email) then Outcome(db, InvalidEmail)
    else if code == "" then Outcome(db, InvalidCode)
    else if !IsValidPassword(newPassword) then Outcome(db, ShortPassword)
    else
      var existing := OwnerOf(db.users, email);
      var digest := HashCode(key, code);
      HolderCodeLookup(db.users, db.resetCodes, email, digest, now);
      if existing.None? then Outcome(db, InvalidCode)
      else
        var id := existing.value;
        var f := CodeFilter(id, Some(digest), None);
        match LatestSelected(db.resetCodes, f, now)
        case None => Outcome(db, InvalidCode)
        case Some(c) =>
          var o := ApplyReset(db, now, id, c, HashPassword(newPassword.value, salt));
          ConsumedMatchWitness(db.resetCodes, c, f, now);
          UpdateKeepsValid(db, id, o.db.users[id], o.db);
          o
  }

  /** What a password reset promises: it succeeds exactly when the holder of the e-mail has a live matching reset code, and then consumes that code and changes only that password. */
  lemma ResetPasswordRules(db: Db, key: string, now: int, emailIn: Option<string>, codeIn: Option<string>,
                           newPassword: Option<string>, salt: nat, o: Outcome)
    requires ValidDb(db)
    requires o == ResetPassword(db, key, now, emailIn, codeIn, newPassword, salt)
    // every refusal is a 400 that writes nothing; an unknown e-mail and a wrong, used or expired
    // code all get "Invalid code"
    ensures o.reply == Done(200) || o.reply == InvalidEmail || o.reply == InvalidCode || o.reply == ShortPassword
    ensures o.reply != Done(200) ==> o.db == db
    ensures var email := NormalizeEmail(emailIn);
      var code := FormText(codeIn);
      var digest := HashCode(key, code);
      && (!IsPlausibleEmail(email) ==> o.reply == InvalidEmail)
      && (IsPlausibleEmail(email) && code == "" ==> o.reply == InvalidCode)
      && (IsPlausibleEmail(email) && code != "" && !IsValidPassword(newPassword) ==> o.reply == ShortPassword)
      && (IsPlausibleEmail(email) && code != "" && IsValidPassword(newPassword) ==>
            && (o.reply == Done(200) <==> HolderCodeMatches(db.users, db.resetCodes, email, digest, now))
            && (o.reply == Done(200) ==>
                  forall id :: id in db.users && db.users[id].email == email ==>
                    && ConsumedMatch(db.resetCodes, o.db.resetCodes, CodeFilter(id, Some(digest), None), now)
                    && o.db.users == db.users[id := db.users[id].(passwordHash := HashPassword(newPassword.value, salt))]))
  {
    var email := NormalizeEmail(emailIn);
    var code := FormText(codeIn);
    if IsPlausibleEmail(email) && code != "" && IsValidPassword(newPassword) {
      var digest := HashCode(key, code);
      HolderCodeLookup(db.users, db.resetCodes, email, digest, now);
      OwnerOfVerified(db.users, email);
      var existing := OwnerOf(db.users, email);
      if existing.Some? {
        var id := existing.value;
        var f := CodeFilter(id, Some(digest), None);
        var c := LatestSelected(db.resetCodes, f, now);
        if c.Some? {
          ConsumedMatchWitness(db.resetCodes, c.value, f, now);
        }
      }
    }
  }

  /** The username a successful profile update leaves: `COALESCE(usernameToSet, username)`,
      where a username is only set when the user has none. */
  function UsernameAfterUpdate(current: User, desired: Option<string>): (r: Option<string>)
    ensures HasUsername(current) ==> r == current.username
    ensures !HasUsername(current) && desired.Some? ==> r == desired
  {
    if !HasUsername(current) && desired.Some? then desired else current.username
  }

  /** PUT /me/profile. */
  function UpdateProfile(db: Db, userId: UserId, usernameIn: Option<string>, bioIn: Option<string>,
                         avatarStyleIn: Option<string>, avatarSeedIn: Option<string>): (o: Outcome)
    requires ValidDb(db)
    ensures ValidDb(o.db)
    ensures o.db == db.(users := o.db.users)
    ensures o.reply != Done(200) ==> o.db == db
  {
    var desired := DesiredUsername(usernameIn);
    var bio := ProfileBio(bioIn);
    var avatarStyle := ProfileAvatarStyle(avatarStyleIn);
    var avatarSeed := ProfileAvatarSeed(avatarSeedIn);
    if avatarStyle !in AvatarStyles then Outcome(db, Error(400, "Invalid avatarStyle"))
    else if userId !in db.users then Outcome(db, Unauthorized)
    else
      var current := db.users[userId];
      if desired.Some? && !ValidUsername(desired.value) then Outcome(db, Error(400, "Invalid username"))
      else if desired.Some? && HasUsername(current) && desired.value != Lower(current.username.value) then
        Outcome(db, Error(400, "Username cannot be changed"))
      else if desired.Some? && !HasUsername(current) && UsernameTaken(db.users, desired.value, userId) then
        Outcome(db, Error(409, "Username already taken"))
      else
        var u := current.(username := UsernameAfterUpdate(current, desired), bio := bio,
                          avatarStyle := avatarStyle, avatarSeed := avatarSeed);
        var after := db.(users := db.users[userId := u]);
        UpdateKeepsValid(db, userId, u, after);
        Outcome(after, Done(200))
  }

  /** A profile update's refusals, and what a successful one writes: a username, once set,
      never changes, for anyone. */
  lemma UpdateProfileRules(db: Db, userId: UserId, usernameIn: Option<string>, bioIn: Option<string>,
                           avatarStyleIn: Option<string>, avatarSeedIn: Option<string>, o: Outcome)
    requires ValidDb(db)
    requires o == UpdateProfile(db, userId, usernameIn, bioIn, avatarStyleIn, avatarSeedIn)
    ensures UsernamesKept(db.users, o.db.users)
    ensures var desired := DesiredUsername(usernameIn);
      var style := ProfileAvatarStyle(avatarStyleIn);
      && (style !in AvatarStyles ==> o.reply == Error(400, "Invalid avatarStyle"))
      && (style in AvatarStyles && userId !in db.users ==> o.reply == Unauthorized)
      && (style in AvatarStyles && userId in db.users && desired.Some? ==>
            var current := db.users[userId];
            && (!ValidUsername(desired.value) ==> o.reply == Error(400, "Invalid username"))
            // a different name is refused; the same name again (in any case) changes nothing
            && (ValidUsername(desired.value) && HasUsername(current) ==>
                  (o.reply == Error(400, "Username cannot be changed") <==> desired.value != Lower(current.username.value)))
            // a first name is refused when someone else holds it
            && (ValidUsername(desired.value) && !HasUsername(current) ==>
                  (o.reply == Error(409, "Username already taken") <==> UsernameTaken(db.users, desired.value, userId))))
      // a successful update rewrites the caller's profile columns and nothing else
      && (o.reply == Done(200) ==>
            && userId in db.users && style in AvatarStyles
            && (desired.Some? ==> ValidUsername(desired.value))
            && o.db.users == db.users[userId := db.users[userId].(
                 username := UsernameAfterUpdate(db.users[userId], desired),
                 bio := ProfileBio(bioIn), avatarStyle := style, avatarSeed := ProfileAvatarSeed(avatarSeedIn))])
  {
  }

  /** POST /me/password. */
  function ChangePassword(db: Db, userId: UserId, oldPassword: Option<string>, newPassword: Option<string>,
                          salt: nat): (o: Outcome)
    requires ValidDb(db)
    ensures ValidDb(o.db)
    ensures o.db == db.(users := o.db.users)
  {
    if oldPassword.None? then Outcome(db, Error(400, "Invalid oldPassword"))
    else if !IsValidPassword(newPassword) then Outcome(db, ShortPassword)
    else if userId !in db.users then Outcome(db, Unauthorized)
    else if !VerifyPassword(oldPassword.value, db.users[userId].passwordHash) then Outcome(db, BadCredentials)
    else
      var u := db.users[userId].(passwordHash := HashPassword(newPassword.value, salt));
      var after := db.(users := db.users[userId := u]);
      UpdateKeepsValid(db, userId, u, after);
      Outcome(after, Done(200))
  }

  /** What a password change promises: only the current password unlocks it, and only the signed-in user's hash changes. */
  lemma ChangePasswordRules(db: Db, userId: UserId, oldPassword: Option<string>, newPassword: Option<string>,
                            salt: nat, o: Outcome)
    requires ValidDb(db)
    requires o == ChangePassword(db, userId, oldPassword, newPassword, salt)
    ensures o.reply != Done(200) ==> o.db == db
    ensures && (oldPassword.None? ==> o.reply == Error(400, "Invalid oldPassword"))
            && (oldPassword.Some? && !IsValidPassword(newPassword) ==> o.reply == ShortPassword)
            && (oldPassword.Some? && IsValidPassword(newPassword) && userId !in db.users ==> o.reply == Unauthorized)
    // the new hash is stored only for a caller who gave the current password
    ensures o.reply == Done(200) <==>
      && oldPassword.Some? && IsValidPassword(newPassword) && userId in db.users
      && VerifyPassword(oldPassword.value, db.users[userId].passwordHash)
    ensures o.reply == Done(200) ==>
      o.db.users == db.users[userId := db.users[userId].(passwordHash := HashPassword(newPassword.value, salt))]
  {
  }

  /** POST /me/email-change/request. */
  function RequestEmailChange(db: Db, key: string, now: int, userId: UserId, newEmailIn: Option<string>,
                              drawn: nat, mail: MailResult): (o: Outcome)
    requires ValidDb(db) && drawn < CodeSpace
    ensures ValidDb(o.db)
    ensures SameAccounts(o.db, db)
    ensures o.db.verificationCodes == db.verificationCodes && o.db.loginCodes == db.loginCodes
    ensures o.db.resetCodes == db.resetCodes
  {
    var newEmail := NormalizeEmail(newEmailIn);
    if !IsPlausibleEmail(newEmail) then Outcome(db, InvalidEmail)
    else
      OwnerOfVerified(db.users, newEmail);
      if OwnerOf(db.users, newEmail).Some? then Outcome(db, EmailTaken)
      else
        var code := Code6(drawn);
        var row := CodeRow(userId, HashCode(key, code), now + EmailChangeTtl, None, now, Some(newEmail));
        LatestIsAppended(db.emailChangeCodes, row, CodeFilter(userId, None, Some(newEmail)), now);
        IssueEmailChangeCode(db, now, row, code, mail)
  }

  /** What an e-mail change request promises: a taken address is refused, otherwise a 15-minute code bound to the new address is stored and mailed there. */
  lemma RequestEmailChangeRules(db: Db, key: string, now: int, userId: UserId, newEmailIn: Option<string>,
                                drawn: nat, mail: MailResult, o: Outcome)
    requires ValidDb(db) && drawn < CodeSpace
    requires o == RequestEmailChange(db, key, now, userId, newEmailIn, drawn, mail)
    ensures var newEmail := NormalizeEmail(newEmailIn);
      && (!IsPlausibleEmail(newEmail) ==> o == Outcome(db, InvalidEmail))
      && (IsPlausibleEmail(newEmail) && Registered(db.users, newEmail) ==> o == Outcome(db, EmailTaken))
      && (IsPlausibleEmail(newEmail) && !Registered(db.users, newEmail) ==>
            var code := Code6(drawn);
            && o.db.emailChangeCodes == db.emailChangeCodes
                 + [CodeRow(userId, HashCode(key, code), now + EmailChangeTtl, None, now, Some(newEmail))]
            && if mail.Delivered? then
                 o.reply == ChangeRequested(Some(|db.emailChangeCodes|))
                 && o.db.outbox == db.outbox + [Mail(newEmail, EmailChangeCode, code)]
               else
                 o.reply == Error(500, MailFailure(mail.message)) && o.db.outbox == db.outbox)
  {
  }

  /** POST /me/email-change/confirm; `requestId` is `None` when the field is missing or empty. */
  function ConfirmEmailChange(db: Db, key: string, now: int, userId: UserId, requestId: Option<CodeId>,
                              newEmailIn: Option<string>, codeIn: Option<string>): (o: Outcome)
    requires ValidDb(db)
    ensures ValidDb(o.db)
    ensures o.db.pending == db.pending && o.db.nextUserId == db.nextUserId && o.db.outbox == db.outbox
    ensures o.db.verificationCodes == db.verificationCodes && o.db.loginCodes == db.loginCodes
    ensures o.db.resetCodes == db.resetCodes
  {
    var newEmail := NormalizeEmail(newEmailIn);
    var code := FormText(codeIn);
    if requestId.None? then Outcome(db, Error(400, "Invalid requestId"))
    else if !IsPlausibleEmail(newEmail) then Outcome(db, InvalidEmail)
    else if code == "" then Outcome(db, InvalidCode)
    else
      OwnerOfVerified(db.users, newEmail);
      if OwnerOf(db.users, newEmail).Some? then Outcome(db, EmailTaken)
      else
        var f := CodeFilter(userId, Some(HashCode(key, code)), Some(newEmail));
        if !SelectedById(db.emailChangeCodes, requestId.value, f, now) then Outcome(db, InvalidCode)
        else
          var o := ApplyEmailChange(db, now, userId, requestId.value, newEmail);
          if userId in db.users then
            EmailChangeKeepsValid(db, userId, newEmail, o.db);
            o
          else o
  }

  /** What confirming an e-mail change promises: it succeeds exactly when the named request is live and matches, and then consumes it and moves the user to the new address. */
  lemma ConfirmEmailChangeRules(db: Db, key: string, now: int, userId: UserId, requestId: Option<CodeId>,
                                newEmailIn: Option<string>, codeIn: Option<string>, o: Outcome)
    requires ValidDb(db)
    requires o == ConfirmEmailChange(db, key, now, userId, requestId, newEmailIn, codeIn)
    ensures !o.reply.EmailChanged? ==> o.db == db
    ensures var newEmail := NormalizeEmail(newEmailIn);
      var code := FormText(codeIn);
      && (requestId.None? ==> o.reply == Error(400, "Invalid requestId"))
      && (requestId.Some? && !IsPlausibleEmail(newEmail) ==> o.reply == InvalidEmail)
      && (requestId.Some? && IsPlausibleEmail(newEmail) && code == "" ==> o.reply == InvalidCode)
      && (requestId.Some? && IsPlausibleEmail(newEmail) && code != "" ==>
            var f := CodeFilter(userId, Some(HashCode(key, code)), Some(newEmail));
            && (Registered(db.users, newEmail) ==> o.reply == EmailTaken)
            && (!Registered(db.users, newEmail) ==>
                  (o.reply.EmailChanged? <==> SelectedById(db.emailChangeCodes, requestId.value, f, now)))
            && (o.reply.EmailChanged? ==>
                  && o.reply.email == newEmail
                  && o.db.emailChangeCodes == Consume(db.emailChangeCodes, requestId.value, now)
                  && o.db.users == if userId in db.users then db.users[userId := db.users[userId].(email := newEmail)]
                                   else db.users))
  {
    var newEmail := NormalizeEmail(newEmailIn);
    if requestId.Some? && IsPlausibleEmail(newEmail) && FormText(codeIn) != "" {
      OwnerOfVerified(db.users, newEmail);
    }
  }

  /** POST /me/2fa: `Boolean(req.body?.enabled)`. */
  function SetTwoFactor(db: Db, userId: UserId, enabled: Option<Json>): (o: Outcome)
    requires ValidDb(db)
    ensures ValidDb(o.db)
    ensures o.db == db.(users := o.db.users)
  {
    var on := Truthy(enabled);
    if userId in db.users then
      var u := db.users[userId].(twoFactorEnabled := on);
      var after := db.(users := db.users[userId := u]);
      UpdateKeepsValid(db, userId, u, after);
      Outcome(after, TwoFactorSet(on))
    else Outcome(db, TwoFactorSet(on))
  }

  /** What the two-factor switch promises: the flag becomes the truthiness of the body field and nothing else changes. */
  lemma SetTwoFactorRules(db: Db, userId: UserId, enabled: Option<Json>, o: Outcome)
    requires ValidDb(db)
    requires o == SetTwoFactor(db, userId, enabled)
    ensures o.reply == TwoFactorSet(Truthy(enabled))
    ensures userId in db.users ==>
      o.db.users == db.users[userId := db.users[userId].(twoFactorEnabled := Truthy(enabled))]
    ensures userId !in db.users ==> o.db.users == db.users
  {
  }

  /** POST /me/deactivate. */
  function Deactivate(db: Db, userId: UserId, password: Option<string>): (o: Outcome)
    requires ValidDb(db)
    ensures ValidDb(o.db)
    ensures o.db == db.(users := o.db.users)
  {
    if password.None? then Outcome(db, Error(400, "Invalid password"))
    else if userId !in db.users then Outcome(db, Unauthorized)
    else if !VerifyPassword(password.value, db.users[userId].passwordHash) then Outcome(db, BadCredentials)
    else
      var u := db.users[userId].(active := false);
      var after := db.(users := db.users[userId := u]);
      UpdateKeepsValid(db, userId, u, after);
      Outcome(after, Done(200))
  }

  /** What deactivation promises: only the right password deactivates the account, and nothing else changes. */
  lemma DeactivateRules(db: Db, userId: UserId, password: Option<string>, o: Outcome)
    requires ValidDb(db)
    requires o == Deactivate(db, userId, password)
    ensures o.reply != Done(200) ==> o.db == db
    ensures && (password.None? ==> o.reply == Error(400, "Invalid password"))
            && (password.Some? && userId !in db.users ==> o.reply == Unauthorized)
    // only the right password deactivates, and deactivating keeps the account's data
    ensures o.reply == Done(200) <==>
      password.Some? && userId in db.users && VerifyPassword(password.value, db.users[userId].passwordHash)
    ensures o.reply == Done(200) ==> o.db.users == db.users[userId := db.users[userId].(active := false)]
  {
  }

  /** POST /me/delete. */
  function DeleteAccount(db: Db, userId: UserId, password: Option<string>): (o: Outcome)
    requires ValidDb(db)
    ensures ValidDb(o.db)
    ensures o.db == db.(users := o.db.users)
  {
    if password.None? then Outcome(db, Error(400, "Invalid password"))
    else if userId !in db.users then Outcome(db, Unauthorized)
    else if !VerifyPassword(password.value, db.users[userId].passwordHash) then Outcome(db, BadCredentials)
    else
      var after := db.(users := db.users - {userId});
      RemovalKeepsUnique(db.users, after.users);
      Outcome(after, Done(200))
  }

  /** What account deletion promises: only the right password removes the account, and nothing else changes. */
  lemma DeleteAccountRules(db: Db, userId: UserId, password: Option<string>, o: Outcome)
    requires ValidDb(db)
    requires o == DeleteAccount(db, userId, password)
    ensures o.reply != Done(200) ==> o.db == db
    ensures && (password.None? ==> o.reply == Error(400, "Invalid password"))
            && (password.Some? && userId !in db.users ==> o.reply == Unauthorized)
    // only the right password deletes, and only the caller's row goes
    ensures o.reply == Done(200) <==>
      password.Some? && userId in db.users && VerifyPassword(password.value, db.users[userId].passwordHash)
    ensures o.reply == Done(200) ==> userId !in o.db.users && o.db.users == db.users - {userId}
  {
  }
}
