/**
 * The rows of the backend's account tables (backend/src/index.js) and the
 * queries the auth handlers run against them.
 *
 * Database uuids are natural numbers. A one-time code table (login_2fa_codes,
 * password_reset_codes, email_change_codes, email_verification_codes) is
 * append-only, so it is a sequence whose index is the row id; rows are
 * appended with `created_at = now()` and the clock never goes back, so
 * `ORDER BY created_at DESC LIMIT 1` picks the matching row appended last.
 */
module AccountStore {
  import opened Common
  import opened Text
  import opened Security

  type UserId = nat
  type CodeId = nat

  /** A row of `users`. A NULL bio, avatar style or seed is the empty string. */
  datatype User = User(
    email: string,
    passwordHash: PasswordDigest,
    username: Option<string>,
    emailVerified: bool,
    twoFactorEnabled: bool,
    active: bool,
    bio: string,
    avatarStyle: string,
    avatarSeed: string)

  /** The user the verify-email upsert inserts: verified, with every other column at its default. */
  function NewVerifiedUser(email: string, passwordHash: PasswordDigest): User {
    User(email, passwordHash, None, true, false, true, "", "", "")
  }

  /** A row of `pending_registrations`; the table is keyed by e-mail. */
  datatype PendingRegistration = PendingRegistration(
    passwordHash: PasswordDigest,
    codeHash: CodeDigest,
    expiresAt: int,
    updatedAt: int)

  /** A row of a one-time code table; `newEmail` is only set in email_change_codes. */
  datatype CodeRow = CodeRow(
    owner: UserId,
    codeHash: CodeDigest,
    expiresAt: int,
    usedAt: Option<int>,
    createdAt: int,
    newEmail: Option<string>)

  /** `used_at IS NULL AND expires_at > now()`. */
  predicate Usable(row: CodeRow, now: int) {
    row.usedAt.None? && row.expiresAt > now
  }

  /** The WHERE clause of a code lookup: the owner always, the digest and the new e-mail when given. */
  datatype CodeFilter = CodeFilter(owner: UserId, digest: Option<CodeDigest>, newEmail: Option<string>)

  predicate Selects(f: CodeFilter, row: CodeRow, now: int) {
    && row.owner == f.owner
    && (f.digest.None? || row.codeHash == f.digest.value)
    && (f.newEmail.None? || row.newEmail == f.newEmail)
    && Usable(row, now)
  }

  /** `SELECT id ... WHERE <f> ORDER BY created_at DESC LIMIT 1`: the last selected row, if any. */
  function LatestSelected(rows: seq<CodeRow>, f: CodeFilter, now: int): (r: Option<CodeId>)
    ensures r.Some? ==> r.value < |rows| && Selects(f, rows[r.value], now)
    ensures r.Some? ==> forall j :: r.value < j < |rows| ==> !Selects(f, rows[j], now)
    ensures r.None? <==> forall j :: 0 <= j < |rows| ==> !Selects(f, rows[j], now)
    decreases |rows|
  {
    if |rows| == 0 then None
    else if Selects(f, rows[|rows| - 1], now) then Some(|rows| - 1)
    else LatestSelected(rows[..|rows| - 1], f, now)
  }

  /** `SELECT id ... WHERE id=$1 AND <f> LIMIT 1`: the row with that id, when it is selected. */
  predicate SelectedById(rows: seq<CodeRow>, id: CodeId, f: CodeFilter, now: int) {
    id < |rows| && Selects(f, rows[id], now)
  }

  /** `UPDATE ... SET used_at=now() WHERE id=$1`. */
  function Consume(rows: seq<CodeRow>, id: CodeId, now: int): (r: seq<CodeRow>)
    requires id < |rows|
    ensures |r| == |rows| && r[id].usedAt == Some(now)
    ensures forall j :: 0 <= j < |rows| && j != id ==> r[j] == rows[j]
  {
    rows[id := rows[id].(usedAt := Some(now))]
  }

  /** A consumed code is never selected again, whatever the filter and however the clock moves. */
  lemma ConsumedNeverSelected(rows: seq<CodeRow>, id: CodeId, now: int, f: CodeFilter, later: int)
    requires id < |rows|
    ensures !SelectedById(Consume(rows, id, now), id, f, later)
    ensures LatestSelected(Consume(rows, id, now), f, later) != Some(id)
  {
  }

  /** A freshly appended row that the filter selects is the one the latest-row query returns. */
  lemma {:induction false} LatestIsAppended(rows: seq<CodeRow>, row: CodeRow, f: CodeFilter, now: int)
    requires Selects(f, row, now)
    ensures LatestSelected(rows + [row], f, now) == Some(|rows|)
  {
    assert (rows + [row])[|rows|] == row;
  }

  /** An expired row is never selected. */
  lemma ExpiredNeverSelected(rows: seq<CodeRow>, id: CodeId, f: CodeFilter, now: int)
    requires id < |rows| && rows[id].expiresAt <= now
    ensures !SelectedById(rows, id, f, now)
    ensures LatestSelected(rows, f, now) != Some(id)
  {
  }

  /** What a session token carries: the user id (`sub`) and an e-mail. */
  datatype Claims = Claims(sub: UserId, email: string)

  /** No two users share an e-mail (the unique key `ON CONFLICT (email)` relies on). */
  ghost predicate EmailsUnique(users: map<UserId, User>) {
    forall a, b {:trigger users[a].email, users[b].email} :: a in users && b in users && a != b ==> users[a].email != users[b].email
  }

  /** No two users hold the same username. */
  ghost predicate UsernamesUnique(users: map<UserId, User>) {
    forall a, b {:trigger users[a].username, users[b].username} :: a in users && b in users && a != b && users[a].username.Some? ==>
      users[a].username != users[b].username
  }

  /** `SELECT ... FROM users WHERE email=$1`: the id of the row with that e-mail. */
  function OwnerOf(users: map<UserId, User>, email: string): (r: Option<UserId>)
    requires EmailsUnique(users)
    ensures r.Some? ==> r.value in users && users[r.value].email == email
    ensures r.None? <==> forall id :: id in users ==> users[id].email != email
  {
    if exists id :: id in users && users[id].email == email then
      var id :| id in users && users[id].email == email; Some(id)
    else None
  }

  /** Some user holds the e-mail. */
  ghost predicate Registered(users: map<UserId, User>, email: string) {
    exists id :: id in users && users[id].email == email
  }

  /** The e-mail belongs to a verified user. */
  ghost predicate VerifiedOwner(users: map<UserId, User>, email: string) {
    exists id :: id in users && users[id].email == email && users[id].emailVerified
  }

  /** The `users WHERE email=$1` lookup and its `is_email_verified` column decide whether a
      verified user holds the e-mail. */
  lemma OwnerOfVerified(users: map<UserId, User>, email: string)
    requires EmailsUnique(users)
    ensures VerifiedOwner(users, email) <==>
      OwnerOf(users, email).Some? && users[OwnerOf(users, email).value].emailVerified
    ensures Registered(users, email) <==> OwnerOf(users, email).Some?
  {
    if VerifiedOwner(users, email) {
      var id :| id in users && users[id].email == email && users[id].emailVerified;
      assert OwnerOf(users, email) == Some(id);
    }
  }

  /** An unused, unexpired row of `rows` owned by the holder of `email` carries `digest`. */
  ghost predicate HolderCodeMatches(users: map<UserId, User>, rows: seq<CodeRow>, email: string,
                                    digest: CodeDigest, now: int) {
    exists id, c :: id in users && users[id].email == email
      && SelectedById(rows, c, CodeFilter(id, Some(digest), None), now)
  }

  /** The two-step lookup the handlers run (the e-mail's holder, then the holder's latest
      matching code) finds a code exactly when one matches. */
  lemma HolderCodeLookup(users: map<UserId, User>, rows: seq<CodeRow>, email: string, digest: CodeDigest, now: int)
    requires EmailsUnique(users)
    ensures HolderCodeMatches(users, rows, email, digest, now) <==>
      OwnerOf(users, email).Some? &&
      LatestSelected(rows, CodeFilter(OwnerOf(users, email).value, Some(digest), None), now).Some?
  {
    var owner := OwnerOf(users, email);
    if owner.Some? {
      var f := CodeFilter(owner.value, Some(digest), None);
      var latest := LatestSelected(rows, f, now);
      if latest.Some? {
        assert SelectedById(rows, latest.value, f, now);
      }
    }
  }

  /** `after` is `before` with one row that `f` selected marked used at `now`. */
  ghost predicate ConsumedMatch(before: seq<CodeRow>, after: seq<CodeRow>, f: CodeFilter, now: int) {
    exists c :: SelectedById(before, c, f, now) && after == Consume(before, c, now)
  }

  lemma ConsumedMatchWitness(rows: seq<CodeRow>, c: CodeId, f: CodeFilter, now: int)
    requires SelectedById(rows, c, f, now)
    ensures ConsumedMatch(rows, Consume(rows, c, now), f, now)
  {
  }

  /** `SELECT ... FROM users WHERE username=$1 AND id <> $2` finds a row. */
  predicate UsernameTaken(users: map<UserId, User>, username: string, self: UserId) {
    exists id :: id in users && id != self && users[id].username == Some(username)
  }

  /** The verify-email upsert: `INSERT INTO users ... ON CONFLICT (email) DO UPDATE SET
      password_hash, is_email_verified = true WHERE users.is_email_verified = false`;
      `newId` is the id a new row gets. */
  function PromoteUser(users: map<UserId, User>, email: string, hash: PasswordDigest, newId: UserId): map<UserId, User>
    requires EmailsUnique(users) && newId !in users
  {
    match OwnerOf(users, email)
    case None => users[newId := NewVerifiedUser(email, hash)]
    case Some(id) =>
      if users[id].emailVerified then users
      else users[id := users[id].(passwordHash := hash, emailVerified := true)]
  }

  /** The verify-email upsert: after it the e-mail belongs to a verified user and e-mails and
      usernames stay unique; an unverified owner gets the pending password hash, a new row is
      created only when nobody owns the e-mail, and a user who was already verified, like every
      user with another e-mail, is left exactly as they were. */
  lemma {:induction false} PromoteUserProperties(users: map<UserId, User>, email: string, hash: PasswordDigest, newId: UserId)
    requires EmailsUnique(users) && newId !in users
    ensures var r := PromoteUser(users, email, hash, newId);
      && EmailsUnique(r)
      && (UsernamesUnique(users) ==> UsernamesUnique(r))
      && (exists id :: id in r && r[id].email == email && r[id].emailVerified)
      && (forall id :: id in users ==> id in r)
      && (forall id :: id in r && id !in users ==>
            id == newId && r[id] == NewVerifiedUser(email, hash) && OwnerOf(users, email).None?)
      && (forall id :: id in users && users[id].email == email && !users[id].emailVerified ==>
            r[id] == users[id].(passwordHash := hash, emailVerified := true))
      && (forall id :: id in users && (users[id].emailVerified || users[id].email != email) ==>
            r[id] == users[id])
  {
    var r := PromoteUser(users, email, hash, newId);
    match OwnerOf(users, email)
    case None =>
      assert r == users[newId := NewVerifiedUser(email, hash)];
      assert r[newId].email == email && r[newId].emailVerified;
    case Some(id) =>
      if users[id].emailVerified {
        assert r == users;
      } else {
        assert r == users[id := users[id].(passwordHash := hash, emailVerified := true)];
      }
      assert r[id].email == email && r[id].emailVerified;
  }

  /** Every user of `before` is still there, and a verified one exactly as they were. */
  ghost predicate KeepsVerifiedUsers(before: map<UserId, User>, after: map<UserId, User>) {
    forall id :: id in before ==> id in after && (before[id].emailVerified ==> after[id] == before[id])
  }

  /** A verified user holds the e-mail with this password hash. */
  ghost predicate HoldsVerified(users: map<UserId, User>, email: string, hash: PasswordDigest) {
    exists id :: id in users && users[id].email == email && users[id].emailVerified && users[id].passwordHash == hash
  }

  /** What the verify-email handler needs of the upsert: it keeps the table invariants, rewrites
      no verified user, and leaves the e-mail with a verified user, who has the pending password
      hash unless the e-mail was already verified. */
  lemma PromoteUserKeeps(users: map<UserId, User>, email: string, hash: PasswordDigest, newId: UserId)
    requires EmailsUnique(users) && newId !in users
    ensures var r := PromoteUser(users, email, hash, newId);
      && EmailsUnique(r)
      && (UsernamesUnique(users) ==> UsernamesUnique(r))
      && KeepsVerifiedUsers(users, r)
      && VerifiedOwner(r, email)
      && (!VerifiedOwner(users, email) ==> HoldsVerified(r, email, hash))
      && (forall id :: id in r ==> id in users || id == newId)
  {
    PromoteUserProperties(users, email, hash, newId);
    OwnerOfVerified(users, email);
    var r := PromoteUser(users, email, hash, newId);
    if !VerifiedOwner(users, email) {
      match OwnerOf(users, email)
      case None =>
        assert r[newId].email == email && r[newId].passwordHash == hash;
      case Some(id) =>
        assert r[id].email == email && r[id].passwordHash == hash;
    }
  }

  /** `DELETE FROM pending_registrations WHERE expires_at <= now()`. */
  function SweepExpired(pending: map<string, PendingRegistration>, now: int): (r: map<string, PendingRegistration>)
    ensures forall e :: e in r <==> e in pending && pending[e].expiresAt > now
    ensures forall e :: e in r ==> r[e] == pending[e]
  {
    map e | e in pending && pending[e].expiresAt > now :: pending[e]
  }

  /** Apart from `email`, `after` holds exactly the registrations of `before` that had not
      expired at `now`, unchanged. */
  ghost predicate OthersSwept(before: map<string, PendingRegistration>, after: map<string, PendingRegistration>,
                              email: string, now: int) {
    && (forall e :: e != email ==> (e in after <==> e in before && before[e].expiresAt > now))
    && (forall e :: e in after && e != email ==> after[e] == before[e])
  }

  /** The sweep followed by the upsert of `email`, and also followed by the deletion of `email`,
      touch no other e-mail's registration except to drop it when expired. */
  lemma SweepThenUpsert(pending: map<string, PendingRegistration>, now: int, email: string, row: PendingRegistration)
    ensures var p := SweepExpired(pending, now)[email := row];
      && email in p && p[email] == row && email !in p - {email}
      && OthersSwept(pending, p, email, now)
      && OthersSwept(pending, p - {email}, email, now)
  {
  }

  /** `DELETE FROM users WHERE email=$1 AND is_email_verified=false`. */
  function RemoveUnverified(users: map<UserId, User>, email: string): (r: map<UserId, User>)
    ensures forall id :: id in r <==> id in users && !(users[id].email == email && !users[id].emailVerified)
    ensures forall id :: id in r ==> r[id] == users[id]
  {
    map id | id in users && !(users[id].email == email && !users[id].emailVerified) :: users[id]
  }

  /** When no verified user holds the e-mail, the legacy cleanup leaves nobody holding it and
      keeps every user with another e-mail. */
  lemma CleanupFreesEmail(users: map<UserId, User>, email: string)
    requires !VerifiedOwner(users, email)
    ensures !Registered(RemoveUnverified(users, email), email)
    ensures forall id :: id in users && users[id].email != email ==> id in RemoveUnverified(users, email)
  {
  }

  /** Removing users keeps e-mails and usernames unique. */
  lemma RemovalKeepsUnique(users: map<UserId, User>, kept: map<UserId, User>)
    requires EmailsUnique(users) && UsernamesUnique(users)
    requires forall id :: id in kept ==> id in users && kept[id] == users[id]
    ensures EmailsUnique(kept) && UsernamesUnique(kept)
  {
  }

  /** Rewriting one user's columns other than e-mail and username keeps both unique. */
  lemma UpdateKeepsUnique(users: map<UserId, User>, id: UserId, u: User)
    requires EmailsUnique(users) && UsernamesUnique(users)
    requires id in users && u.email == users[id].email && u.username == users[id].username
    ensures EmailsUnique(users[id := u]) && UsernamesUnique(users[id := u])
  {
  }

  /** The legacy cleanup deletes nothing when no user holds the e-mail. */
  lemma RemoveUnverifiedNoOwner(users: map<UserId, User>, email: string)
    requires forall id :: id in users ==> users[id].email != email
    ensures RemoveUnverified(users, email) == users
  {
    assert RemoveUnverified(users, email).Keys == users.Keys;
  }

  /** Deleting a row just upserted is deleting the row that was there before the upsert. */
  lemma UpsertThenDelete<K, V>(m: map<K, V>, k: K, v: V)
    ensures m[k := v] - {k} == m - {k}
  {
    assert (m[k := v] - {k}).Keys == (m - {k}).Keys;
  }
}
