/**
 * The account handlers of the backend (backend/src/index.js) as the server runs
 * them: one `AuthServer` object holds the tables, and each handler validates its
 * input, reads a few rows and then writes, in the order the source does, with
 * an early return on every refusal. Each method is proved to leave the tables
 * and answer exactly as the matching function of module AuthHandlers says, and
 * so inherits the properties proved there; the table invariants are `Valid()`.
 *
 * `now()` is the `clock` field, in seconds, which only `Tick` moves. Handlers
 * run one at a time.
 */
module AuthWorkflow {
  import opened Common
  import opened Text
  import opened JsValues
  import opened Security
  import opened AccountStore
  import opened AuthHandlers

  class AuthServer {
    /** The server secret that keys `hashCode`. */
    const codeKey: string
    var clock: int
    var users: map<UserId, User>
    /** The id the next inserted user gets. */
    var nextUserId: UserId
    var pending: map<string, PendingRegistration>
    var verificationCodes: seq<CodeRow>
    var loginCodes: seq<CodeRow>
    var resetCodes: seq<CodeRow>
    var emailChangeCodes: seq<CodeRow>
    var outbox: seq<Mail>

    /** The tables as one value. */
    function Tables(): Db
      reads this
    {
      Db(users, nextUserId, pending, verificationCodes, loginCodes, resetCodes, emailChangeCodes, outbox)
    }

    ghost predicate Valid()
      reads this
    {
      ValidDb(Tables())
    }

    constructor(codeKey: string, now: int)
      ensures Valid()
      ensures this.codeKey == codeKey && clock == now
      ensures Tables() == Db(map[], 0, map[], [], [], [], [], [])
    {
      this.codeKey := codeKey;
      clock := now;
      users := map[];
      nextUserId := 0;
      pending := map[];
      verificationCodes := [];
      loginCodes := [];
      resetCodes := [];
      emailChangeCodes := [];
      outbox := [];
    }

    /** Time passes. */
    method Tick(seconds: nat)
      modifies this`clock
      ensures clock == old(clock) + seconds
    {
      clock := clock + seconds;
    }

    /** POST /auth/register. */
    method Register(emailIn: Option<string>, password: Option<string>, salt: nat, drawn: nat, mail: MailResult)
      returns (reply: Reply)
      requires Valid() && drawn < CodeSpace
      modifies this
      ensures Outcome(Tables(), reply) ==
        AuthHandlers.Register(old(Tables()), codeKey, clock, emailIn, password, salt, drawn, mail)
      ensures clock == old(clock) && Valid()
    {
      var email := NormalizeEmail(emailIn);
      if !IsPlausibleEmail(email) {
        return InvalidEmail;
      }
      if !IsValidPassword(password) {
        return ShortPassword;
      }
      var existing := OwnerOf(users, email);
      if existing.Some? && users[existing.value].emailVerified {
        return EmailTaken;
      }
      var passwordHash := HashPassword(password.value, salt);
      var code := Code6(drawn);
      var row := PendingRegistration(passwordHash, HashCode(codeKey, code), clock + RegistrationTtl, clock);
      reply := StoreRegistrationRows(email, existing.Some?, row, code, mail);
    }

    /** The writes of an accepted registration: the legacy cleanup when the e-mail had an
        unverified holder, the sweep of expired registrations, the upsert, and the mail, whose
        failure deletes the row just written. */
    method StoreRegistrationRows(email: string, clearHolder: bool, row: PendingRegistration, code: string,
                                 mail: MailResult) returns (reply: Reply)
      modifies this
      ensures clock == old(clock)
      ensures Outcome(Tables(), reply) == StoreRegistration(old(Tables()), clock, email, clearHolder, row, code, mail)
    {
      if clearHolder {
        users := RemoveUnverified(users, email);
      }
      pending := SweepExpired(pending, clock);
      pending := pending[email := row];
      match mail {
        case Failed(message) =>
          pending := pending - {email};
          reply := Error(500, MailFailure(message));
        case Delivered =>
          outbox := outbox + [Mail(email, VerificationCode, code)];
          reply := Done(201);
      }
    }

    /** POST /auth/verify-email. */
    method VerifyEmail(emailIn: Option<string>, codeIn: Option<string>) returns (reply: Reply)
      requires Valid()
      modifies this
      ensures Outcome(Tables(), reply) == AuthHandlers.VerifyEmail(old(Tables()), codeKey, clock, emailIn, codeIn)
      ensures clock == old(clock) && Valid()
    {
      var email := NormalizeEmail(emailIn);
      var code := FormText(codeIn);
      if !IsPlausibleEmail(email) {
        return InvalidEmail;
      }
      if code == "" {
        return InvalidCode;
      }
      var existing := OwnerOf(users, email);
      if existing.Some? && users[existing.value].emailVerified {
        return Done(200);
      }
      var digest := HashCode(codeKey, code);
      if PendingMatches(pending, email, digest, clock) {
        reply := PromotePendingRows(email);
        return;
      }
      if existing.None? {
        return InvalidCode;
      }
      var id := existing.value;
      var c := LatestSelected(verificationCodes, CodeFilter(id, Some(digest), None), clock);
      if c.None? {
        return InvalidCode;
      }
      reply := MarkVerifiedRows(id, c.value);
    }

    /** The writes of a verification by pending registration: the user upsert, then the
        deletion of the pending row. */
    method PromotePendingRows(email: string) returns (reply: Reply)
      requires Valid() && email in pending
      modifies this
      ensures clock == old(clock)
      ensures Outcome(Tables(), reply) == PromotePending(old(Tables()), email)
    {
      users := PromoteUser(users, email, pending[email].passwordHash, nextUserId);
      nextUserId := nextUserId + 1;
      pending := pending - {email};
      reply := Done(200);
    }

    /** The writes of a legacy verification: the code is used up, then the user is verified. */
    method MarkVerifiedRows(id: UserId, c: CodeId) returns (reply: Reply)
      requires id in users && c < |verificationCodes|
      modifies this
      ensures clock == old(clock)
      ensures Outcome(Tables(), reply) == MarkVerified(old(Tables()), clock, id, c)
    {
      verificationCodes := Consume(verificationCodes, c, clock);
      users := users[id := users[id].(emailVerified := true)];
      reply := Done(200);
    }

    /** POST /auth/login. */
    method Login(emailIn: Option<string>, password: Option<string>, drawn: nat, mail: MailResult)
      returns (reply: Reply)
      requires Valid() && drawn < CodeSpace
      modifies this
      ensures Outcome(Tables(), reply) == AuthHandlers.Login(old(Tables()), codeKey, clock, emailIn, password, drawn, mail)
      ensures clock == old(clock) && Valid()
    {
      var email := NormalizeEmail(emailIn);
      if !IsPlausibleEmail(email) {
        return InvalidEmail;
      }
      if password.None? {
        return Error(400, "Invalid password");
      }
      var existing := OwnerOf(users, email);
      if existing.None? {
        return BadCredentials;
      }
      var id := existing.value;
      var u := users[id];
      if !u.active {
        return Deactivated;
      }
      if !VerifyPassword(password.value, u.passwordHash) {
        return BadCredentials;
      }
      if !u.emailVerified {
        return NotVerified;
      }
      if u.twoFactorEnabled {
        var code := Code6(drawn);
        var row := CodeRow(id, HashCode(codeKey, code), clock + LoginCodeTtl, None, clock, None);
        reply := IssueLoginCodeRows(email, row, code, mail);
        return;
      }
      return Token(Claims(id, email));
    }

    /** The writes of a second-factor challenge: the code row, the mail, and the lookup of the
        newest usable login code of the user. */
    method IssueLoginCodeRows(email: string, row: CodeRow, code: string, mail: MailResult) returns (reply: Reply)
      modifies this
      ensures clock == old(clock)
      ensures Outcome(Tables(), reply) == IssueLoginCode(old(Tables()), clock, email, row, code, mail)
    {
      loginCodes := loginCodes + [row];
      match mail {
        case Failed(message) =>
          reply := Error(500, MailFailure(message));
        case Delivered =>
          outbox := outbox + [Mail(email, LoginCode, code)];
          reply := Challenge(LatestSelected(loginCodes, CodeFilter(row.owner, None, None), clock));
      }
    }

    /** POST /auth/login-2fa. */
    method LoginSecondFactor(emailIn: Option<string>, challengeId: Option<CodeId>, codeIn: Option<string>)
      returns (reply: Reply)
      requires Valid()
      modifies this
      ensures Outcome(Tables(), reply) ==
        AuthHandlers.LoginSecondFactor(old(Tables()), codeKey, clock, emailIn, challengeId, codeIn)
      ensures clock == old(clock) && Valid()
    {
      var email := NormalizeEmail(emailIn);
      var code := FormText(codeIn);
      if !IsPlausibleEmail(email) {
        return InvalidEmail;
      }
      if challengeId.None? {
        return Error(400, "Invalid challengeId");
      }
      if code == "" {
        return InvalidCode;
      }
      var existing := OwnerOf(users, email);
      if existing.None? {
        return BadCredentials;
      }
      var id := existing.value;
      var u := users[id];
      if !u.active {
        return Deactivated;
      }
      if !u.emailVerified {
        return NotVerified;
      }
      if !u.twoFactorEnabled {
        return Error(400, "2FA not enabled");
      }
      if !SelectedById(loginCodes, challengeId.value, CodeFilter(id, Some(HashCode(codeKey, code)), None), clock) {
        return InvalidCode;
      }
      reply := ConsumeLoginCode(challengeId.value, Claims(id, email));
    }

    /** `UPDATE login_2fa_codes SET used_at=now() WHERE id=$1`, then the token. */
    method ConsumeLoginCode(c: CodeId, claims: Claims) returns (reply: Reply)
      requires c < |loginCodes|
      modifies this`loginCodes
      ensures Outcome(Tables(), reply) ==
        Outcome(old(Tables()).(loginCodes := Consume(old(loginCodes), c, clock)), Token(claims))
    {
      loginCodes := Consume(loginCodes, c, clock);
      reply := Token(claims);
    }

    /** POST /auth/request-password-reset. */
    method RequestPasswordReset(emailIn: Option<string>, drawn: nat, mail: MailResult) returns (reply: Reply)
      requires Valid() && drawn < CodeSpace
      modifies this
      ensures Outcome(Tables(), reply) ==
        AuthHandlers.RequestPasswordReset(old(Tables()), codeKey, clock, emailIn, drawn, mail)
      ensures clock == old(clock) && Valid()
    {
      var email := NormalizeEmail(emailIn);
      if !IsPlausibleEmail(email) {
        return InvalidEmail;
      }
      var existing := OwnerOf(users, email);
      if existing.None? {
        return Done(200);
      }
      var code := Code6(drawn);
      var row := CodeRow(existing.value, HashCode(codeKey, code), clock + ResetCodeTtl, None, clock, None);
      reply := IssueResetCodeRows(email, row, code, mail);
    }

    /** The writes of a reset request for a known e-mail: the code row, then the mail. */
    method IssueResetCodeRows(email: string, row: CodeRow, code: string, mail: MailResult) returns (reply: Reply)
      modifies this
      ensures clock == old(clock)
      ensures Outcome(Tables(), reply) == IssueResetCode(old(Tables()), email, row, code, mail)
    {
      resetCodes := resetCodes + [row];
      match mail {
        case Failed(message) =>
          reply := Error(500, MailFailure(message));
        case Delivered =>
          outbox := outbox + [Mail(email, ResetCode, code)];
          reply := Done(200);
      }
    }

    /** POST /auth/reset-password. */
    method ResetPassword(emailIn: Option<string>, codeIn: Option<string>, newPassword: Option<string>, salt: nat)
      returns (reply: Reply)
      requires Valid()
      modifies this
      ensures Outcome(Tables(), reply) ==
        AuthHandlers.ResetPassword(old(Tables()), codeKey, clock, emailIn, codeIn, newPassword, salt)
      ensures clock == old(clock) && Valid()
    {
      var email := NormalizeEmail(emailIn);
      var code := FormText(codeIn);
      if !IsPlausibleEmail(email) {
        return InvalidEmail;
      }
      if code == "" {
        return InvalidCode;
      }
      if !IsValidPassword(newPassword) {
        return ShortPassword;
      }
      var existing := OwnerOf(users, email);
      if existing.None? {
        return InvalidCode;
      }
      var id := existing.value;
      var c := LatestSelected(resetCodes, CodeFilter(id, Some(HashCode(codeKey, code)), None), clock);
      if c.None? {
        return InvalidCode;
      }
      var passwordHash := HashPassword(newPassword.value, salt);
      reply := ApplyResetRows(id, c.value, passwordHash);
    }

    /** The writes of a reset: the code is used up, then the new password hash is stored. */
    method ApplyResetRows(id: UserId, c: CodeId, passwordHash: PasswordDigest) returns (reply: Reply)
      requires id in users && c < |resetCodes|
      modifies this
      ensures clock == old(clock)
      ensures Outcome(Tables(), reply) == ApplyReset(old(Tables()), clock, id, c, passwordHash)
    {
      resetCodes := Consume(resetCodes, c, clock);
      users := users[id := users[id].(passwordHash := passwordHash)];
      reply := Done(200);
    }

    /** PUT /me/profile. */
    method UpdateProfile(userId: UserId, usernameIn: Option<string>, bioIn: Option<string>,
                         avatarStyleIn: Option<string>, avatarSeedIn: Option<string>)
      returns (reply: Reply)
      requires Valid()
      modifies this
      ensures Outcome(Tables(), reply) ==
        AuthHandlers.UpdateProfile(old(Tables()), userId, usernameIn, bioIn, avatarStyleIn, avatarSeedIn)
      ensures clock == old(clock) && Valid()
    {
      var desired := DesiredUsername(usernameIn);
      var bio := ProfileBio(bioIn);
      var avatarStyle := ProfileAvatarStyle(avatarStyleIn);
      var avatarSeed := ProfileAvatarSeed(avatarSeedIn);
      if avatarStyle !in AvatarStyles {
        return Error(400, "Invalid avatarStyle");
      }
      if userId !in users {
        return Unauthorized;
      }
      var current := users[userId];
      var usernameToSet: Option<string> := None;
      if desired.Some? {
        if Utf16Length(desired.value) < 3 || Utf16Length(desired.value) > 20 {
          return Error(400, "Invalid username");
        }
        if !UsernameChars(desired.value) {
          return Error(400, "Invalid username");
        }
        if HasUsername(current) && desired.value != Lower(current.username.value) {
          return Error(400, "Username cannot be changed");
        }
        if !HasUsername(current) {
          if UsernameTaken(users, desired.value, userId) {
            return Error(409, "Username already taken");
          }
          usernameToSet := desired;
        }
      }
      // COALESCE($1, username)
      var username := if usernameToSet.Some? then usernameToSet else current.username;
      assert username == UsernameAfterUpdate(current, desired);
      reply := WriteUser(userId, current.(username := username, bio := bio, avatarStyle := avatarStyle,
                                          avatarSeed := avatarSeed));
    }

    /** `UPDATE users SET ... WHERE id=$n` on a row that exists. */
    method WriteUser(id: UserId, u: User) returns (reply: Reply)
      requires id in users
      modifies this`users
      ensures Outcome(Tables(), reply) == Outcome(old(Tables()).(users := old(users)[id := u]), Done(200))
    {
      users := users[id := u];
      reply := Done(200);
    }

    /** POST /me/password. */
    method ChangePassword(userId: UserId, oldPassword: Option<string>, newPassword: Option<string>, salt: nat)
      returns (reply: Reply)
      requires Valid()
      modifies this
      ensures Valid() && clock == old(clock)
      ensures Outcome(Tables(), reply) ==
        AuthHandlers.ChangePassword(old(Tables()), userId, oldPassword, newPassword, salt)
    {
      if oldPassword.None? {
        return Error(400, "Invalid oldPassword");
      }
      if !IsValidPassword(newPassword) {
        return ShortPassword;
      }
      if userId !in users {
        return Unauthorized;
      }
      if !VerifyPassword(oldPassword.value, users[userId].passwordHash) {
        return BadCredentials;
      }
      var newHash := HashPassword(newPassword.value, salt);
      users := users[userId := users[userId].(passwordHash := newHash)];
      return Done(200);
    }

    /** POST /me/email-change/request. */
    method RequestEmailChange(userId: UserId, newEmailIn: Option<string>, drawn: nat, mail: MailResult)
      returns (reply: Reply)
      requires Valid() && drawn < CodeSpace
      modifies this
      ensures Valid() && clock == old(clock)
      ensures Outcome(Tables(), reply) ==
        AuthHandlers.RequestEmailChange(old(Tables()), codeKey, clock, userId, newEmailIn, drawn, mail)
    {
      var newEmail := NormalizeEmail(newEmailIn);
      if !IsPlausibleEmail(newEmail) {
        return InvalidEmail;
      }
      if OwnerOf(users, newEmail).Some? {
        return EmailTaken;
      }
      var code := Code6(drawn);
      var row := CodeRow(userId, HashCode(codeKey, code), clock + EmailChangeTtl, None, clock, Some(newEmail));
      reply := IssueEmailChangeCodeRows(row, code, mail);
    }

    /** The writes of an e-mail change request: the code row, the mail to the new address, and
        the lookup of the newest usable code of the user for that address. */
    method IssueEmailChangeCodeRows(row: CodeRow, code: string, mail: MailResult) returns (reply: Reply)
      requires row.newEmail.Some?
      modifies this
      ensures clock == old(clock)
      ensures Outcome(Tables(), reply) == IssueEmailChangeCode(old(Tables()), clock, row, code, mail)
    {
      emailChangeCodes := emailChangeCodes + [row];
      match mail {
        case Failed(message) =>
          reply := Error(500, MailFailure(message));
        case Delivered =>
          outbox := outbox + [Mail(row.newEmail.value, EmailChangeCode, code)];
          reply := ChangeRequested(LatestSelected(emailChangeCodes, CodeFilter(row.owner, None, row.newEmail), clock));
      }
    }

    /** POST /me/email-change/confirm. */
    method ConfirmEmailChange(userId: UserId, requestId: Option<CodeId>, newEmailIn: Option<string>, codeIn: Option<string>)
      returns (reply: Reply)
      requires Valid()
      modifies this
      ensures Outcome(Tables(), reply) ==
        AuthHandlers.ConfirmEmailChange(old(Tables()), codeKey, clock, userId, requestId, newEmailIn, codeIn)
      ensures clock == old(clock) && Valid()
    {
      var newEmail := NormalizeEmail(newEmailIn);
      var code := FormText(codeIn);
      if requestId.None? {
        return Error(400, "Invalid requestId");
      }
      if !IsPlausibleEmail(newEmail) {
        return InvalidEmail;
      }
      if code == "" {
        return InvalidCode;
      }
      if OwnerOf(users, newEmail).Some? {
        return EmailTaken;
      }
      var f := CodeFilter(userId, Some(HashCode(codeKey, code)), Some(newEmail));
      if !SelectedById(emailChangeCodes, requestId.value, f, clock) {
        return InvalidCode;
      }
      reply := ApplyEmailChangeRows(userId, requestId.value, newEmail);
    }

    /** The writes of an e-mail change: the code is used up, then the user's e-mail is rewritten
        (an UPDATE that matches no row when the user is gone). */
    method ApplyEmailChangeRows(userId: UserId, r: CodeId, newEmail: string) returns (reply: Reply)
      requires r < |emailChangeCodes|
      modifies this
      ensures clock == old(clock)
      ensures Outcome(Tables(), reply) == ApplyEmailChange(old(Tables()), clock, userId, r, newEmail)
    {
      emailChangeCodes := Consume(emailChangeCodes, r, clock);
      if userId in users {
        users := users[userId := users[userId].(email := newEmail)];
      }
      reply := EmailChanged(newEmail);
    }

    /** POST /me/2fa. */
    method SetTwoFactor(userId: UserId, enabled: Option<Json>) returns (reply: Reply)
      requires Valid()
      modifies this
      ensures Valid() && clock == old(clock)
      ensures Outcome(Tables(), reply) == AuthHandlers.SetTwoFactor(old(Tables()), userId, enabled)
    {
      var on := Truthy(enabled);
      if userId in users {
        users := users[userId := users[userId].(twoFactorEnabled := on)];
      }
      return TwoFactorSet(on);
    }

    /** POST /me/deactivate. */
    method Deactivate(userId: UserId, password: Option<string>) returns (reply: Reply)
      requires Valid()
      modifies this
      ensures Valid() && clock == old(clock)
      ensures Outcome(Tables(), reply) == AuthHandlers.Deactivate(old(Tables()), userId, password)
    {
      if password.None? {
        return Error(400, "Invalid password");
      }
      if userId !in users {
        return Unauthorized;
      }
      if !VerifyPassword(password.value, users[userId].passwordHash) {
        return BadCredentials;
      }
      users := users[userId := users[userId].(active := false)];
      return Done(200);
    }

    /** POST /me/delete. */
    method DeleteAccount(userId: UserId, password: Option<string>) returns (reply: Reply)
      requires Valid()
      modifies this
      ensures Valid() && clock == old(clock)
      ensures Outcome(Tables(), reply) == AuthHandlers.DeleteAccount(old(Tables()), userId, password)
    {
      if password.None? {
        return Error(400, "Invalid password");
      }
      if userId !in users {
        return Unauthorized;
      }
      if !VerifyPassword(password.value, users[userId].passwordHash) {
        return BadCredentials;
      }
      users := users - {userId};
      return Done(200);
    }
  }
}
