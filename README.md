# mertflix core, modelled in Dafny

This project models the account and content core of mertflix, a show and movie
catalogue with a small Express backend and two React frontends.

**Backend** (`backend/src`):
- the account handlers: registration with a pending record and a mailed code, e-mail
  verification (with the legacy per-user code table), password login with an optional
  mailed second factor, password reset, and the signed-in settings (profile with a
  once-only username, password change, e-mail change by code, two-factor switch,
  deactivation, deletion);
- the list, watched and comment handlers, including the one-row-per-(comment, user) vote upsert;
- the bearer-token gate `requireAuth` and its lenient twin `getOptionalViewerUserId`;
- e-mail normalisation and the six-digit code of `security.js`;
- the environment-driven configuration of `config.js`.

**Frontend**:
- the caches of the signed-in user's list and watched items (`myListStore.js`, `watchedStore.js`);
- the localStorage "my list" of the standalone frontend (`src/services/myList.js`);
- the favourites store (`storage.js`);
- the per-user language preference (`languagePref.js`);
- the pure helpers of both listing pages: year buckets, the rating, year and genre filters,
  the sort, and paging;
- the "for you" rows of the standalone home page: the genre frequency top-N and the
  de-duplicating merge of the looked-up rows.

**How the model is built.**
- The database tables are maps and sequences.
  - A one-time code table is append-only, so it is a sequence indexed by the row id.
  - A table with a unique key is a map from that key, so "one row per key" holds by construction.
- Each backend handler is a pure function from the tables before the request to the
  tables after it and the reply (modules `AuthHandlers`, `Content`).
  - Each function has a `...Rules` lemma stating what the route promises.
  - The classes `AuthWorkflow.AuthServer`, `ContentServer.ItemTable` and
    `ContentServer.CommentBoard` run the same handlers as sequences of writes with early
    returns. Each method is proved to end in exactly the state and reply the function gives.
- The frontend stores are classes over their module state, or functions over the browser's
  storage with a method that performs the write.
- The home-page loops are methods with loop invariants, proved against specification functions.

**What is a parameter.**
- The clock: the `clock` field of `AuthServer`, in seconds.
- The server secret keying the code hash.
- The random draws: the six-digit code and the bcrypt salt.
- The outcome of handing a mail to the transport.
- `verifyToken`: a partial function.
- The signed-in e-mail of the frontend.
- What the server or TMDB answers to a fetch. For the list and watched stores that answer is either a body or the error `apiFetch` throws.

The two hashes are modelled as free constructors. A digest records its inputs, so equal
inputs give equal digests, and different inputs never collide (the ideal HMAC and bcrypt).
bcrypt's input is 72 bytes read cyclically from the password's UTF-8 encoding followed by a
NUL byte: a long password contributes its first 72 bytes, a short one its bytes, the NUL and
its bytes again. Passwords that give the same 72 bytes share a digest.

String lengths and `slice` count UTF-16 code units, as JavaScript does: a character above
U+FFFF counts twice.

**Where the written description and the code differ, the model follows the code:**
- `/auth/login-2fa` answers 400 "2FA not enabled" for a user without a second factor
  (`backend/src/index.js:231`); the endpoint summary lists it among the 403s.

## Model

| member | source | states |
|---|---|---|
| Security.NormalizeEmail | backend/src/security.js:22-24 | a missing e-mail gives ''; the result has no white space at either end and no letter left that the case mapping would lower (ASCII, Latin-1, Latin Extended-A, Greek, Cyrillic, full-width Latin, Kelvin and Angstrom signs) |
| Security.NormalizeEmailFoldsAccents | backend/src/security.js:22-24 | an address typed in capitals with an umlaut normalises to the lower-case address, so the account is found |
| Security.NormalizeEmailIdempotent | backend/src/security.js:22-24 | normalising an already normalised e-mail changes nothing |
| Security.IsPlausibleEmail | backend/src/index.js:53 | (predicate used by every handler) non-empty and containing '@' |
| Security.Code6 | backend/src/security.js:26-30 | for a draw below 1 000 000 the code is exactly 6 decimal digits, its value is the draw, and it is the draw's decimal text preceded only by zeros |
| Security.Code6Injective | backend/src/security.js:26-30 | different draws give different codes |
| Security.HashCodeMatches | backend/src/security.js:32-35 | the code hash is deterministic and matches a stored digest exactly when the submitted code equals the issued one |
| Security.PasswordRoundTrip | backend/src/security.js:6-12 | the password itself always verifies, and so does any candidate that agrees with a password of 72 bytes or more on its first 72; between passwords without NUL characters nothing else matches: a password under 72 UTF-8 bytes is matched only by itself |
| Security.BcryptKey | backend/src/security.js:6-12 | the 72 bytes bcrypt reads: the first 72 of the UTF-8 encoding when it has that many, otherwise the encoding, a NUL terminator and then the encoding again, repeated |
| Security.NulRepeatVerifies | backend/src/security.js:10-12 | a password under 72 bytes, a NUL and the same password again verifies against the short password's digest, as "ab" and "ab\u0000ab" do |
| Security.LongPasswordExtensionsVerify | backend/src/security.js:10-12 | once a password fills 72 bytes, the password with anything appended verifies against its digest |
| Config.Required | backend/src/config.js:5-9 | succeeds exactly when the variable is set and non-empty, returning it unchanged; otherwise fails with "Missing env: NAME" |
| Config.CleanOrigins | backend/src/config.js:16-18 | no kept origin is empty or ends in '/', and none is added |
| Config.CleanOriginsMembers | backend/src/config.js:14-18 | every kept origin is the cleaned form of some entry, and every entry whose cleaned form is non-empty is kept |
| Config.ParseCorsOrigins | backend/src/config.js:11-19 | an unset or empty CORS_ORIGIN gives exactly the two localhost origins; otherwise the comma-split entries trimmed and stripped of trailing '/', none empty or ending in '/' |
| Config.CorsOriginsRoundTrip | backend/src/config.js:11-19 | clean origins written comma-separated into CORS_ORIGIN are parsed back to exactly that list |
| Config.CleanOriginsOfClean | backend/src/config.js:16-18 | cleaning a list of already clean origins keeps it as it is |
| Config.CleanOriginOfClean | backend/src/config.js:16-17 | trimming and slash-stripping leave a clean origin unchanged |
| Config.LoadConfig | backend/src/config.js:21-36 | loading fails exactly when DATABASE_URL or JWT_SECRET is missing, DATABASE_URL first; port defaults to 4000 and jwtExpiresIn to '7d'; the SMTP password holds no white space; the sender is never empty; the origins are the parsed CORS_ORIGIN |
| AuthGate.BearerToken | backend/src/authMiddleware.js:4-6 | an accepted header yields a non-empty token |
| AuthGate.BearerTokenOfHeader | backend/src/authMiddleware.js:4-6 | the header `Bearer <token>` passes with its token intact |
| AuthGate.LowerCaseSchemeRefused | backend/src/authMiddleware.js:5-6 | the scheme is case-sensitive: `bearer <token>` is refused |
| AuthGate.AcceptedHeaderShape | backend/src/authMiddleware.js:4-6 | an accepted header really starts with `Bearer ` followed by the token |
| AuthGate.AuthDecisionRules | backend/src/authMiddleware.js:3-21 | a passed request names an existing active user and carries the verified payload with that user's current e-mail; 403 "Account deactivated" is answered exactly for a valid token of a deactivated user; every other refusal is 401 |
| AuthGate.OptionalViewerMatchesGate | backend/src/index.js:32-45 | the optional viewer is the gate's user exactly when the gate would pass the request, and null otherwise |
| AuthGate.RequireAuth | backend/src/authMiddleware.js:3-21 | decides as the gate does; on success `req.user` is the payload with the current e-mail; after a successful verification `req.user` stays set even when refused |
| AccountStore.LatestSelected | backend/src/index.js:149-161 | the latest-row lookup returns the last row that the filter selects, and none exactly when no row is selected |
| AccountStore.Consume | backend/src/index.js:250 | marking a code used sets `used_at` on that row and changes no other row |
| AccountStore.ConsumedNeverSelected | backend/src/index.js:233-252 | a code marked used is never selected again, by id or as the latest row, whatever the clock |
| AccountStore.LatestIsAppended | backend/src/index.js:206-210 | a freshly inserted row that the filter selects is the row the latest-row lookup returns (the challenge id a 2FA login answers with) |
| AccountStore.ExpiredNeverSelected | backend/src/index.js:242 | a row whose expiry has passed is never selected |
| AccountStore.OwnerOf | backend/src/index.js:56 | the users-by-email lookup finds the row holding the e-mail, or none exactly when nobody holds it |
| AccountStore.OwnerOfVerified | backend/src/index.js:56-57 | the lookup and its verified flag decide whether the e-mail belongs to a verified user |
| AccountStore.HolderCodeLookup | backend/src/index.js:293-312 | the two-step lookup (holder of the e-mail, then the holder's latest matching code) succeeds exactly when the holder has an unused, unexpired row with that digest |
| AccountStore.ConsumedMatchWitness | backend/src/index.js:248-250 | consuming a selected row is a use of a matching code |
| AccountStore.PromoteUserProperties | backend/src/index.js:129-139 | after the verify-email upsert the e-mail belongs to a verified user and e-mails stay unique |
| AccountStore.PromoteUserKeeps | backend/src/index.js:129-139 | the conditional upsert keeps e-mails and usernames unique and never rewrites a verified user's password hash; an unverified holder or a new row gets the pending hash |
| AccountStore.SweepExpired | backend/src/index.js:71 | the sweep keeps exactly the registrations that have not expired, unchanged |
| AccountStore.SweepThenUpsert | backend/src/index.js:71-93 | after the sweep and the upsert, and after the sweep and the delete, the other e-mails hold exactly their unexpired registrations |
| AccountStore.RemoveUnverified | backend/src/index.js:62-64 | the legacy cleanup deletes exactly the unverified users holding the e-mail |
| AccountStore.CleanupFreesEmail | backend/src/index.js:61-64 | when no verified user holds the e-mail, the cleanup leaves nobody holding it and keeps everyone else |
| AccountStore.RemovalKeepsUnique | backend/src/index.js:63 | deleting users keeps e-mails and usernames unique |
| AccountStore.UpdateKeepsUnique | backend/src/index.js:373-376 | rewriting a user's other columns keeps e-mails and usernames unique |
| AccountStore.RemoveUnverifiedNoOwner | backend/src/index.js:62-64 | the cleanup deletes nothing when no user holds the e-mail |
| AccountStore.UpsertThenDelete | backend/src/index.js:73-93 | deleting a just-upserted pending row is deleting the row that was there before the upsert |
| AuthHandlers.MailFailure | backend/src/index.js:94 | a failed send always answers a non-empty message |
| AuthHandlers.DesiredUsername | backend/src/index.js:342-343 | no username is asked for exactly when the field is missing or blank; otherwise it is the trimmed, lower-cased text |
| AuthHandlers.KelvinSignUsername | backend/src/index.js:342-343 | a name typed with the Kelvin sign asks for the ASCII name 'kate' |
| AuthHandlers.EmojiPasswordLength | backend/src/index.js:24-26 | three emoji have a `length` of six and make a valid password |
| Text.Utf16Length | backend/src/index.js:24-26 | `length` counts one or two units per character, so it lies between the number of characters and twice that |
| Text.SliceUnits | backend/src/index.js:344-346 | `slice(0, n)` keeps a prefix of at most n UTF-16 code units, the whole of a string that fits, and stops only where the next character would not fit |
| AuthHandlers.ProfileBio | backend/src/index.js:344 | the stored bio is a prefix of the submitted one, at most 280 UTF-16 code units long, the whole of a bio that fits, and '' when none is sent |
| AuthHandlers.ProfileAvatarSeed | backend/src/index.js:346 | the stored avatar seed is a prefix of the trimmed seed, at most 80 UTF-16 code units long, the whole trimmed seed when it fits, and '' when none is sent |
| AuthHandlers.LegacyVerifyKeeps | backend/src/index.js:164-165 | the legacy verification keeps the table invariants and leaves the e-mail with a verified owner |
| AuthHandlers.PromoteKeepsValid | backend/src/index.js:126-142 | promoting a pending registration keeps the invariants, rewrites no verified user, and gives a new or unverified holder the pending password hash |
| AuthHandlers.UpdateKeepsValid | backend/src/index.js:366-376 | a profile write that keeps the username, or sets one nobody else holds, keeps the invariants |
| AuthHandlers.EmailChangeKeepsValid | backend/src/index.js:453-475 | moving a user to an e-mail nobody holds keeps the invariants |
| AuthHandlers.IssueLoginCode | backend/src/index.js:190-210 | a 2FA challenge appends exactly one login-code row and touches no other table |
| AuthHandlers.IssueResetCode | backend/src/index.js:264-277 | a reset request for a known user appends exactly one reset-code row and touches no other table |
| AuthHandlers.IssueEmailChangeCode | backend/src/index.js:422-441 | an e-mail change request appends exactly one e-mail-change row and touches no other table |
| AuthHandlers.Register | backend/src/index.js:49-98 | registration keeps the table invariants and never touches the user counter or the code tables |
| AuthHandlers.RegisterRules | backend/src/index.js:49-98 | a malformed e-mail or a password that is not a string with a `length` of 6 or more gives 400, and an e-mail a verified user holds gives 409, all with nothing written; otherwise unverified holders are deleted, expired registrations swept, and the e-mail left with exactly one pending row expiring 15 minutes from now and one mail sent, unless the mail fails, in which case it has no pending row and the reply is 500 |
| AuthHandlers.VerifyEmail | backend/src/index.js:100-168 | verification keeps the invariants and sends no mail |
| AuthHandlers.VerifyEmailRules | backend/src/index.js:100-168 | an already verified e-mail gets 200 with nothing written; a matching unexpired pending row becomes a verified user and disappears; a legacy unverified user is verified by its latest usable matching code, which is used up; an unknown e-mail, a wrong code and an expired code all get the same 400 "Invalid code" with nothing written; no verified user's row is ever rewritten |
| AuthHandlers.Login | backend/src/index.js:170-215 | login keeps the invariants and writes to no table other than the login codes |
| AuthHandlers.LoginRules | backend/src/index.js:170-215 | an unknown e-mail and a wrong password get the same 401 "Invalid credentials"; a deactivated account gets 403 before the password is checked; an unverified account gets 403 only after a correct password; a token goes only to an active, verified user without a second factor whose password verifies against the stored digest; a 2FA user gets no token, only a challenge naming a fresh 10-minute code row |
| AuthHandlers.LoginSecondFactor | backend/src/index.js:217-253 | a token is answered only for the right, unused, unexpired code of this challenge and this user, and that code is then used up; every other answer writes nothing |
| AuthHandlers.LoginSecondFactorRules | backend/src/index.js:217-253 | the checks run in source order: e-mail, challenge id, code, unknown user (401), deactivated, unverified (403), second factor off (400), then any code mismatch gives 400 "Invalid code" |
| AuthHandlers.RequestPasswordReset | backend/src/index.js:255-282 | a reset request changes no user, pending row or other code table |
| AuthHandlers.RequestPasswordResetRules | backend/src/index.js:255-282 | an unknown e-mail gets 200 with nothing inserted; a known one gets one 15-minute reset code and a mail, and the code is kept even when the mail fails with 500 |
| AuthHandlers.ResetPassword | backend/src/index.js:284-319 | a reset touches only the users table and the reset codes |
| AuthHandlers.ResetPasswordRules | backend/src/index.js:284-319 | a malformed e-mail, a blank code or a short password gives 400; otherwise it succeeds exactly when the e-mail's holder has an unused, unexpired reset code with that hash; an unknown e-mail and a wrong, used or expired code all get 400 "Invalid code" with nothing written; a success uses up that code and changes only that user's password hash |
| AuthHandlers.UsernameAfterUpdate | backend/src/index.js:355-374 | a username once set stays; an unset one takes the requested name |
| AuthHandlers.UpdateProfile | backend/src/index.js:340-379 | a profile update changes only the users table, and a refused one changes nothing |
| AuthHandlers.UpdateProfileRules | backend/src/index.js:340-379 | a username, once set, never changes: a different one gives 400 and the same one again is a no-op; the name must have a `length` of 3-20 and only characters of [a-z0-9_.]; a first name held by someone else gives 409; a success rewrites the caller's bio and avatar and nothing else |
| AuthHandlers.ChangePassword | backend/src/index.js:392-409 | a password change touches only the users table |
| AuthHandlers.ChangePasswordRules | backend/src/index.js:392-409 | a missing old password or a short new one gives 400; the new hash is stored exactly when the old password verifies against the caller's digest, and only the caller's hash changes |
| AuthHandlers.RequestEmailChange | backend/src/index.js:411-442 | an e-mail change request touches only the e-mail-change codes and the outbox |
| AuthHandlers.RequestEmailChangeRules | backend/src/index.js:411-442 | an address someone holds gives 409; otherwise one 15-minute code bound to the new address is stored and mailed there, and the reply names it; a failed mail gives 500 but keeps the code |
| AuthHandlers.ConfirmEmailChange | backend/src/index.js:444-477 | a confirmation touches only the users table and the e-mail-change codes |
| AuthHandlers.ConfirmEmailChangeRules | backend/src/index.js:444-477 | it succeeds exactly when the named request belongs to the caller, is for this address, carries this code's hash, and is unused and unexpired; it then uses up that request and moves the caller to the new address; anything else writes nothing |
| AuthHandlers.SetTwoFactor | backend/src/index.js:479-484 | the switch changes only the users table |
| AuthHandlers.SetTwoFactorRules | backend/src/index.js:479-484 | the caller's flag becomes the truthiness of `enabled`, which the reply echoes, and nothing else changes |
| AuthHandlers.Deactivate | backend/src/index.js:486-498 | deactivation changes only the users table |
| AuthHandlers.DeactivateRules | backend/src/index.js:486-498 | only a password that verifies against the caller's digest deactivates the account, which keeps all its data; a missing password gives 400 and a wrong one 401, with nothing written |
| AuthHandlers.DeleteAccount | backend/src/index.js:500-512 | deletion changes only the users table |
| AuthHandlers.DeleteAccountRules | backend/src/index.js:500-512 | only a password that verifies against the caller's digest deletes, and exactly the caller's row goes |
| AuthWorkflow.AuthServer.constructor | backend/src/index.js:17 | a new server starts with empty tables |
| AuthWorkflow.AuthServer.Tick | backend/src/index.js:76 | time only moves forward |
| AuthWorkflow.AuthServer.Register | backend/src/index.js:49-98 | the handler's writes leave the tables and reply that `AuthHandlers.Register` gives, and keep the invariants |
| AuthWorkflow.AuthServer.StoreRegistrationRows | backend/src/index.js:61-97 | the write phase of registration ends as `StoreRegistration` says |
| AuthWorkflow.AuthServer.VerifyEmail | backend/src/index.js:100-168 | the handler ends as `AuthHandlers.VerifyEmail` says, keeping the invariants |
| AuthWorkflow.AuthServer.PromotePendingRows | backend/src/index.js:126-142 | the upsert and pending delete end as `PromotePending` says |
| AuthWorkflow.AuthServer.MarkVerifiedRows | backend/src/index.js:164-167 | the legacy writes end as `MarkVerified` says |
| AuthWorkflow.AuthServer.Login | backend/src/index.js:170-215 | the handler ends as `AuthHandlers.Login` says, keeping the invariants |
| AuthWorkflow.AuthServer.IssueLoginCodeRows | backend/src/index.js:186-211 | the challenge writes end as `IssueLoginCode` says |
| AuthWorkflow.AuthServer.LoginSecondFactor | backend/src/index.js:217-253 | the handler ends as `AuthHandlers.LoginSecondFactor` says, keeping the invariants |
| AuthWorkflow.AuthServer.ConsumeLoginCode | backend/src/index.js:250-252 | marks the code used and answers the token |
| AuthWorkflow.AuthServer.RequestPasswordReset | backend/src/index.js:255-282 | the handler ends as `AuthHandlers.RequestPasswordReset` says, keeping the invariants |
| AuthWorkflow.AuthServer.IssueResetCodeRows | backend/src/index.js:260-278 | the reset-code writes end as `IssueResetCode` says |
| AuthWorkflow.AuthServer.ResetPassword | backend/src/index.js:284-319 | the handler ends as `AuthHandlers.ResetPassword` says, keeping the invariants |
| AuthWorkflow.AuthServer.ApplyResetRows | backend/src/index.js:314-318 | the reset writes end as `ApplyReset` says |
| AuthWorkflow.AuthServer.UpdateProfile | backend/src/index.js:340-379 | the handler ends as `AuthHandlers.UpdateProfile` says, keeping the invariants |
| AuthWorkflow.AuthServer.WriteUser | backend/src/index.js:373-376 | one user row is rewritten and nothing else |
| AuthWorkflow.AuthServer.ChangePassword | backend/src/index.js:392-409 | the handler ends as `AuthHandlers.ChangePassword` says, keeping the invariants |
| AuthWorkflow.AuthServer.RequestEmailChange | backend/src/index.js:411-442 | the handler ends as `AuthHandlers.RequestEmailChange` says, keeping the invariants |
| AuthWorkflow.AuthServer.IssueEmailChangeCodeRows | backend/src/index.js:419-441 | the request writes end as `IssueEmailChangeCode` says |
| AuthWorkflow.AuthServer.ConfirmEmailChange | backend/src/index.js:444-477 | the handler ends as `AuthHandlers.ConfirmEmailChange` says, keeping the invariants |
| AuthWorkflow.AuthServer.ApplyEmailChangeRows | backend/src/index.js:474-476 | the confirmation writes end as `ApplyEmailChange` says |
| AuthWorkflow.AuthServer.SetTwoFactor | backend/src/index.js:479-484 | the handler ends as `AuthHandlers.SetTwoFactor` says |
| AuthWorkflow.AuthServer.Deactivate | backend/src/index.js:486-498 | the handler ends as `AuthHandlers.Deactivate` says |
| AuthWorkflow.AuthServer.DeleteAccount | backend/src/index.js:500-512 | the handler ends as `AuthHandlers.DeleteAccount` says |
| Content.MediaTypeOf | backend/src/index.js:28-30 | a media type is accepted exactly when it is the string 'movie' or 'show' |
| Content.ItemKeyOf | backend/src/index.js:525-533 | a request names a row key exactly when its media type is valid and `Number(tmdbId)` is finite; otherwise it gets the matching 400 |
| Content.SaveItemRules | backend/src/index.js:525-547 | a refused save writes nothing; an accepted one answers 201 and leaves exactly one row under (user, mediaType, tmdbId), with the new title and poster where given and the old ones otherwise, and every other row as it was |
| Content.SaveItemTwice | backend/src/index.js:535-544 | saving the same item twice is saving it once |
| Content.DeleteItemRules | backend/src/index.js:549-559 | a refused delete writes nothing; an accepted one removes the row under the key and no other |
| Content.DeleteUndoesSave | backend/src/index.js:535-557 | deleting what was just saved removes the key, whatever row was there before |
| Content.CreateCommentRules | backend/src/index.js:649-670 | a comment is stored exactly when the request is valid and its trimmed text has a `length` of 2 to 1000 UTF-16 code units, under the new id and authored by the caller; otherwise 400 and nothing changes |
| Content.CreatedCommentShape | backend/src/index.js:653-658 | a stored comment has a `length` of 2 to 1000 UTF-16 code units and no white space at either end |
| Content.DeleteCommentRules | backend/src/index.js:672-683 | only the author deletes a comment (403 for anyone else, 404 for an unknown id), and a deletion removes that comment alone |
| Content.VoteRules | backend/src/index.js:685-713 | a value other than -1, 0 or 1 gives 400; 0 removes the caller's vote; ±1 leaves exactly one vote row for (comment, caller) holding that value; no one else's vote changes, and stored votes stay ±1 |
| Content.VoteTwice | backend/src/index.js:696-710 | casting the same vote twice is casting it once |
| Content.WithdrawUndoesVote | backend/src/index.js:696-698 | withdrawing right after voting leaves the votes as if the caller had never voted on that comment |
| Content.CommentChangesKeepVotes | backend/src/index.js:649-683 | creating and deleting comments keep every stored vote at 1 or -1 |
| ContentServer.ItemTable.constructor | backend/src/index.js:525-547 | a new table is empty |
| ContentServer.ItemTable.Save | backend/src/index.js:525-547 | the upsert leaves the table and reply that `Content.SaveItem` gives (list and watched alike, 572-594) |
| ContentServer.ItemTable.Delete | backend/src/index.js:549-559 | the delete ends as `Content.DeleteItem` says (list and watched alike, 596-606) |
| ContentServer.CommentBoard.constructor | backend/src/index.js:649-670 | a new board is empty |
| ContentServer.CommentBoard.Create | backend/src/index.js:649-670 | the insert ends as `Content.CreateComment` says, keeping every vote ±1 |
| ContentServer.CommentBoard.Delete | backend/src/index.js:672-683 | the delete ends as `Content.DeleteComment` says |
| ContentServer.CommentBoard.CastVote | backend/src/index.js:685-713 | the vote upsert or delete ends as `Content.Vote` says |
| ListStore.KeysOfMembers | frontend/src/services/myListStore.js:8-13 | a key is in the index exactly when some cached item carries it |
| ListStore.Without | frontend/src/services/myListStore.js:61 | the filter never adds items |
| ListStore.WithoutKeys | frontend/src/services/myListStore.js:59-61 | filtering out a key removes that key from the index and no other |
| ListStore.WithoutAppend | frontend/src/services/myListStore.js:61 | the filter keeps the order of what it keeps |
| ListStore.WithoutAbsent | frontend/src/services/myListStore.js:75-76 | filtering out a key no item carries changes nothing |
| ListStore.LoadRules | frontend/src/services/myListStore.js:27-43 | a loaded store answers from its cache without fetching unless forced; otherwise one fetch is sent and its items replace the cache; a failed fetch (`apiFetch` throws on a non-OK reply) leaves the cache and `loaded` as they were and is thrown on; no event either way (also frontend/src/services/api.js:94-101) |
| ListStore.EnsureStateRules | frontend/src/services/myListStore.js:83-86 | the answer is whether some cached item carries the key; a loaded store is left as it was; a failed load is thrown on with the cache and `loaded` unchanged |
| ListStore.ToggleRules | frontend/src/services/myListStore.js:53-70 | when it succeeds the answer is the negation of prior membership and one change event fires; a present key is deleted on the server and every cached item with it dropped, the rest kept in order; an absent one is added on the server and the cache refetched. A failed load, delete or add throws with no event and the cache unchanged; an add whose refetch fails leaves the item saved on the server but missing from the cache |
| ListStore.ToggleOnThenOff | frontend/src/services/myListStore.js:53-70 | switching an item on then off, when both succeed, leaves it out of the cache, with two events and one remove call |
| ListStore.RemoveRules | frontend/src/services/myListStore.js:72-81 | afterwards (on success) the key is not indexed; an absent key makes no server call, emits no event and leaves the cache unchanged; a present one makes one call and one event; a failed load or delete throws with no event and the cache unchanged |
| ListStore.RemoveIdempotent | frontend/src/services/myListStore.js:72-81 | once a removal succeeds, removing again changes nothing |
| ListStore.CachedList.constructor | frontend/src/services/myListStore.js:3-6 | the store starts empty, not loaded, with the index matching the cache |
| ListStore.CachedList.Reset | frontend/src/services/myListStore.js:20-25 | reset empties cache and index and clears `loaded`, so the next load fetches (also frontend/src/services/watchedStore.js:18-23) |
| ListStore.CachedList.RebuildIndex | frontend/src/services/myListStore.js:8-13 | after a rebuild the index is exactly the keys of the new cache (also frontend/src/services/watchedStore.js:8-11) |
| ListStore.CachedList.LoadList | frontend/src/services/myListStore.js:27-43 | loads or throws as `ListStore.Load` says and keeps the index equal to the cache's keys (also frontend/src/services/watchedStore.js:25-41) |
| ListStore.CachedList.IsCached | frontend/src/services/myListStore.js:49-51 | holds exactly when some cached item carries the key |
| ListStore.CachedList.Ensure | frontend/src/services/myListStore.js:83-86 | loads if needed and answers membership, as `ListStore.EnsureState` says (also frontend/src/services/watchedStore.js:69-72) |
| ListStore.CachedList.ToggleItem | frontend/src/services/myListStore.js:53-70 | toggles as `ListStore.Toggle` says, keeping the index equal to the cache's keys (also frontend/src/services/watchedStore.js:51-67) |
| ListStore.CachedList.RemoveItemIfCached | frontend/src/services/myListStore.js:72-81 | removes as `ListStore.Remove` says, keeping the index equal to the cache's keys |
| WebStorage.ReadJson | frontend/src/services/storage.js:3-9 | a missing or unparsable stored value reads as [] |
| LocalList.BeforeSeparator | src/services/myList.js:3-5 | the text before the first ':' of a list key is its type, when the type has no ':' |
| LocalList.MakeListKeyInjective | src/services/myList.js:3-5 | for types without ':', equal list keys mean equal types and equal id texts |
| JsValues.StringToNumber | src/services/myList.js:22 | `Number(n)` of a digit string (around white space) is a number, never NaN |
| LocalList.TruthyOnly | src/services/myList.js:21 | `filter(Boolean)` keeps only truthy elements |
| LocalList.NumericOnly | src/services/myList.js:22 | the genre-id filter keeps only numbers |
| LocalList.TruthyOnlyKeepsTruthy | src/services/myList.js:21 | a list of truthy values passes the filter unchanged |
| LocalList.NumericOnlyKeepsNumbers | src/services/myList.js:22 | a list of numbers passes the genre-id filter unchanged |
| LocalList.NormalizeRules | src/services/myList.js:14-33 | a falsy entry or one with a null or undefined id is dropped; a kept one has its type defaulted to 'show', its key defaulted to makeListKey(type, id), and only numeric genre ids |
| LocalList.NormalizeFixesEntries | src/services/myList.js:14-33 | an entry already in the normalised shape is kept unchanged |
| LocalList.NormalizeAll | src/services/myList.js:13-33 | normalising never lengthens the list |
| LocalList.NormalizeAllShape | src/services/myList.js:13-33 | every entry read is in the normalised shape |
| LocalList.NormalizeAllFixesEntries | src/services/myList.js:13-33 | a list of normalised entries reads back unchanged |
| LocalList.ReadMyListRules | src/services/myList.js:7-37 | missing, unparsable or non-array storage reads as []; every entry read is in the normalised shape |
| LocalList.AnyHasKeyExists | src/services/myList.js:45 | `some(x => x.key === key)` holds exactly when some entry has that key |
| LocalList.IsInMyListRules | src/services/myList.js:43-46 | holds exactly when some read entry's key equals makeListKey(type, id) |
| LocalList.WithoutKey | src/services/myList.js:61 | the filter never lengthens the list |
| LocalList.WithoutKeyRules | src/services/myList.js:60-61 | afterwards no entry has the key; an entry is kept exactly when it was in the list without the key; the kept entries keep their order (filtering any split of the list filters each part); a list without the key is unchanged; a list with it gets shorter |
| LocalList.WithoutKeyAppend | src/services/myList.js:61 | the filter keeps the order of what it keeps |
| LocalList.ToggledRules | src/services/myList.js:48-64 | on an absent key the normalised item goes in front and the rest is unchanged; on a present key every entry with it is removed, every entry without it stays, and the kept entries keep their order |
| LocalList.NormalizedItemShape | src/services/myList.js:49-57 | an item with a truthy type and an id is stored already normalised, under its own key |
| LocalList.WriteThenRead | src/services/myList.js:39-41 | a list of normalised entries written is read back as written |
| LocalList.ToggleTwiceRestores | src/services/myList.js:48-64 | toggling the same absent item twice restores the previously read list |
| LocalList.ToggleMyListItem | src/services/myList.js:48-64 | writes and returns the toggled list |
| LocalList.RemoveMyListItem | src/services/myList.js:66-71 | writes and returns the list without the entries carrying the key |
| LocalList.RemoveMyListItemRules | src/services/myList.js:66-71 | after removal the item is not in the list and reads back as written; an entry is kept exactly when it was in the list without the key, and the kept entries keep their order |
| Favorites.Write | frontend/src/services/storage.js:11-14 | the array written is read back, one event announces its length, and no other storage entry changes |
| Favorites.AnyMatchesRules | frontend/src/services/storage.js:20-23 | on a list without nulls the scan answers whether some element matches; a scan answering false saw no null |
| Favorites.AnyMatchesAppend | frontend/src/services/storage.js:25-31 | after a non-matching list, the scan of the list plus one item is that item's match |
| Favorites.Unmatched | frontend/src/services/storage.js:33-36 | the kept elements are never more than the list |
| Favorites.KeepOthersRules | frontend/src/services/storage.js:33-36 | the filter throws exactly when the list holds a null; otherwise it keeps the non-matching elements in order |
| Favorites.UnmatchedMembers | frontend/src/services/storage.js:33-36 | an element is kept exactly when it was in the list and does not match |
| Favorites.UnmatchedAppend | frontend/src/services/storage.js:33-36 | the filter keeps the order of what it keeps |
| Favorites.IsFavoriteComparesIdText | frontend/src/services/storage.js:20-23 | ids are compared by their text, so 5 and '5' name the same favourite |
| Favorites.IdTextScan | frontend/src/services/storage.js:20-23 | the scan gives the same answer for a number id and its decimal text |
| Favorites.NothingStoredNoFavorite | frontend/src/services/storage.js:3-9 | with nothing stored, nothing is a favourite |
| Favorites.AddFavoriteRules | frontend/src/services/storage.js:25-31 | an item already present causes no write and no event; an absent one is appended at the end with one event carrying the new length; a call that throws changes nothing |
| Favorites.AddFavoriteTwice | frontend/src/services/storage.js:25-31 | adding twice is adding once |
| Favorites.RemoveFavoriteRules | frontend/src/services/storage.js:33-36 | removal always writes the non-matching elements in order and announces it; afterwards the item is no favourite; it throws, changing nothing, exactly when the stored value is not an array or holds a null |
| Favorites.ClearFavoritesRules | frontend/src/services/storage.js:38-40 | clearing leaves an empty list, nothing is a favourite, and the event announces 0 |
| Favorites.WriteAnnouncesLength | frontend/src/services/storage.js:11-14 | each write's event count equals the stored list's length |
| Favorites.AddFavoriteTo | frontend/src/services/storage.js:25-31 | the read-check-push-write sequence ends as `Favorites.AddFavorite` says |
| Favorites.RemoveFavoriteFrom | frontend/src/services/storage.js:33-36 | the read-filter-write sequence ends as `Favorites.RemoveFavorite` says |
| Favorites.ClearFavoritesIn | frontend/src/services/storage.js:38-40 | the write of [] ends as `Favorites.ClearFavorites` says |
| LanguagePref.StorageKeyRules | frontend/src/services/languagePref.js:11-15 | every key carries the prefix; an empty e-mail gives the guest key; two signed-in users share a key exactly when their e-mails normalise alike |
| LanguagePref.PreferredLanguageRules | frontend/src/services/languagePref.js:17-22 | the answer is always 'tr' or 'en', and 'en' exactly when the stored value is exactly 'en' |
| LanguagePref.SetThenGet | frontend/src/services/languagePref.js:24-30 | after setting, reading for the same user gives 'en' exactly when 'en' was asked for and 'tr' otherwise; the event carries the stored value; no other key changes |
| LanguagePref.SetLeavesOthers | frontend/src/services/languagePref.js:26-27 | one user's choice does not change what another user reads |
| LanguagePref.TmdbLanguage | frontend/src/services/languagePref.js:32-35 | 'en' maps to 'en-US' and anything else to 'tr-TR' |
| LanguagePref.SetPreferredLanguage | frontend/src/services/languagePref.js:24-30 | the write and dispatch end as `LanguagePref.SetPreferred` says |
| ShowListing.Find | frontend/src/pages/ShowListingPage.jsx:36 | `find` returns a bucket of the table with that key, or none exactly when no bucket has it |
| ShowListing.BucketToYearRangeRules | frontend/src/pages/ShowListingPage.jsx:35-39 | 'any' gives no bounds; any other key gives the bounds of the first bucket with that key, a missing side as none (also src/pages/ShowListingPage.jsx:31-35) |
| ShowListing.FindFirst | frontend/src/pages/ShowListingPage.jsx:36 | `find` returns the first bucket with the key |
| ShowListing.UnknownBucket | frontend/src/pages/ShowListingPage.jsx:37 | an unknown key gives no bounds |
| ShowListing.DefaultRangesOrdered | frontend/src/pages/ShowListingPage.jsx:22-33 | every range of the built-in table is ordered, and only 'lte_2000' lacks a lower bound (to 2000) (also src/pages/ShowListingPage.jsx:18-29) |
| ShowListing.RatingButtons | frontend/src/pages/ShowListingPage.jsx:95-99 | each rating button 1-9 gives that minimum |
| ShowListing.DiscoverParamsRules | frontend/src/pages/ShowListingPage.jsx:103-128 | a date bound is sent exactly for the sides the range has, under primary_release_date keys for movies and first_air_date keys otherwise; the rating bound is sent exactly when set; the genre list is sent exactly when some genre is selected and reads back as the selection (also src/pages/ShowListingPage.jsx:96-121) |
| ShowListing.Where | frontend/src/pages/ShowListingPage.jsx:258 | `filter` never lengthens the list |
| ShowListing.WhereRules | frontend/src/pages/ShowListingPage.jsx:258-271 | filtering keeps exactly the elements that pass, adds nothing, and keeps multiplicities at most the original |
| ShowListing.FilteredRules | frontend/src/pages/ShowListingPage.jsx:254-272 | an item is listed exactly when it was fetched and passes the rating (null as -1), year (missing as 0 against from, as 9999 against to) and genre (every selected id among its ids, as text) filters; filtering only removes items (also src/pages/ShowListingPage.jsx:247-265) |
| ShowListing.UnratedFailsMinimum | frontend/src/pages/ShowListingPage.jsx:258 | an unrated item passes no non-negative minimum |
| ShowListing.UndatedYears | frontend/src/pages/ShowListingPage.jsx:261-264 | an undated item passes a lower bound exactly when it is at most 0 and an upper bound exactly when it is at least 9999 (also src/pages/ShowListingPage.jsx:254-257) |
| ShowListing.FilteredSortedRules | frontend/src/pages/ShowListingPage.jsx:254-288 | the sorted list is a permutation of the filtered one; by rating or year it is in descending order of the key, and items with the same key keep their filtered order |
| ShowListing.TotalPages | frontend/src/pages/ShowListingPage.jsx:291 | at least one page, and exactly enough pages of 30 for the items |
| ShowListing.PageItems | frontend/src/pages/ShowListingPage.jsx:292-293 | at most 30 items, the slice starting at (uiPage-1)*30, empty past the end (also src/pages/ShowListingPage.jsx:284-286) |
| ShowListing.EveryItemOnSomePage | frontend/src/pages/ShowListingPage.jsx:291-293 | item i appears on page i/30+1, which exists, at position i%30 |
| ShowListing.GoPrev | frontend/src/pages/ShowListingPage.jsx:305-308 | goPrev lowers the page by one exactly when canPrev, and never below 1 (also src/pages/ShowListingPage.jsx:298-301) |
| ShowListing.GoNext | frontend/src/pages/ShowListingPage.jsx:296-303 | goNext raises the page by one exactly when canNext (items remain past this page, or more can be fetched) |
| ShowListing.NavigationStaysInRange | frontend/src/pages/ShowListingPage.jsx:291-308 | without more to fetch, Next is offered exactly before the last page, and both buttons keep the page within 1..totalPages (also src/pages/ShowListingPage.jsx:284-301) |
| Sorting.Insert | frontend/src/pages/ShowListingPage.jsx:275 | inserting adds one element |
| Sorting.SortWith | frontend/src/pages/ShowListingPage.jsx:274-288 | sorting keeps the length |
| Sorting.SortWithPermutes | frontend/src/pages/ShowListingPage.jsx:274-288 | sorting only reorders |
| Sorting.InsertPermutes | frontend/src/pages/ShowListingPage.jsx:275 | inserting adds exactly the element |
| Sorting.InsertDescending | frontend/src/pages/ShowListingPage.jsx:276-285 | inserting into a descending list with a descending comparator keeps it descending |
| Sorting.SortWithDescending | frontend/src/pages/ShowListingPage.jsx:276-285 | sorting with `b - a` on a key leaves the keys non-increasing |
| Sorting.InsertAheadOfTies | frontend/src/pages/ShowListingPage.jsx:276-285 | an inserted element lands in front of every element with its own key |
| Sorting.SortWithStable | frontend/src/pages/ShowListingPage.jsx:276-285 | sorting by a key is stable: the elements of each key keep their input order |
| HomeFeed.KeysRules | src/pages/HomePage.jsx:61-63 | the map's keys are exactly the values, each once |
| HomeFeed.TallyKeys | src/pages/HomePage.jsx:61-62 | the counting map holds exactly the values, each with its number of occurrences |
| HomeFeed.TallyAgrees | src/pages/HomePage.jsx:62 | a value is already counted exactly when it is among the keys so far |
| HomeFeed.TallyEntries | src/pages/HomePage.jsx:63 | the map's entries are its keys in insertion order with their counts |
| HomeFeed.CountValues | src/pages/HomePage.jsx:61-62 | the counting loop builds the count of every value and the insertion order of the keys |
| HomeFeed.TopNCounts | src/pages/HomePage.jsx:60-67 | the function's result is `TopN` of the values |
| HomeFeed.DistinctCount | src/pages/HomePage.jsx:63 | a value occurs at most once among distinct keys |
| HomeFeed.DuplicateCount | src/pages/HomePage.jsx:63 | a repeated element occurs at least twice |
| HomeFeed.SortedAreEntries | src/pages/HomePage.jsx:63-64 | every sorted entry is a counted value with its count |
| HomeFeed.SortedDistinct | src/pages/HomePage.jsx:63-64 | no value is sorted twice |
| HomeFeed.SortedComplete | src/pages/HomePage.jsx:63-64 | every value appears among the sorted entries |
| HomeFeed.SortedEntries | src/pages/HomePage.jsx:63-64 | the sorted entries are the counted values, each once, with their counts, most frequent first |
| HomeFeed.TopNElements | src/pages/HomePage.jsx:65-66 | the result is the first keys of the sorted entries |
| HomeFeed.TopNLeavesLessFrequent | src/pages/HomePage.jsx:62-65 | no value left out is more frequent than a returned one |
| HomeFeed.TopNRules | src/pages/HomePage.jsx:60-67 | at most n keys, distinct, each occurring in the values, counts non-increasing in output order, every value returned when fewer than n are, any value left out no more frequent than every returned one, and for each count the returned values of that count are the first-seen values of that count, in first-seen order |
| HomeFeed.TopNKeepsFirstSeen | src/pages/HomePage.jsx:60-67 | the stable sort over the map's insertion order keeps ties first-seen first, so a tie that is cut loses its later-seen values |
| HomeFeed.NumbersIn | src/pages/HomePage.jsx:108 | the numbers read from a genre array are exactly its number elements |
| HomeFeed.GenreValuesFromKind | src/pages/HomePage.jsx:106-114 | every genre value comes from a list entry of the matching type |
| HomeFeed.PreferredGenreIds | src/pages/HomePage.jsx:106-114 | the preferred genre ids are the top two of the matching entries' genre ids: at most two, distinct, each from an entry of the matching type |
| HomeFeed.IdsOfMembers | src/pages/HomePage.jsx:118-124 | an id is in the `seen` set exactly when some pushed card has it |
| HomeFeed.Deduped | src/pages/HomePage.jsx:121-126 | de-duplicating never lengthens the cards |
| HomeFeed.DedupedRules | src/pages/HomePage.jsx:117-127 | no two kept cards share an id, every kept card was fetched, and every fetched id is kept |
| HomeFeed.DedupedSnoc | src/pages/HomePage.jsx:122-125 | a card is pushed exactly when its id was not seen |
| HomeFeed.IdsOfSnoc | src/pages/HomePage.jsx:123 | pushing a card adds its id to `seen` |
| HomeFeed.MergeStep | src/pages/HomePage.jsx:121-126 | one step of the inner loop pushes the card exactly when its id is new |
| HomeFeed.MergeBatch | src/pages/HomePage.jsx:121-126 | the inner loop extends the de-duplicated row by one batch and keeps `seen` equal to its ids |
| HomeFeed.MergeForYou | src/pages/HomePage.jsx:116-151 | for the show row and the movie row alike, the merge loop and the cut to twelve give `ForYouRow` of the fetched batches, a failed movie lookup counting as an empty batch |
| HomeFeed.ForYouRowRules | src/pages/HomePage.jsx:116-151 | the row holds at most 12 cards, never repeats an id, shows only fetched cards, and when shorter than 12 covers every fetched id |

## Left out

- Express wiring, CORS middleware, JSON body parsing and `app.listen`. Each handler is a function and a method over the tables.
- The read-only routes (`GET /me/profile`, `/me/security`, `/me/list`, `/me/watched`, `/comments`), including the SQL aggregate of vote counts: query-engine semantics.
- The database schema. `db.js` and `migrate.js` are not part of this model.
  - Foreign-key cascades are unknown, so deleting a comment or a user leaves the rows that refer to it.
  - Uuids are natural numbers (code rows, users) or given strings (comments).
- bcrypt and HMAC-SHA256 are free constructors: deterministic and collision-free once bcrypt has formed its 72-byte key (`Security.BcryptKey`). JWT verification is a partial function parameter, and signing is the `Token` reply with its claims.
- Mail delivery is a `Delivered`/`Failed` input; provider selection and timeouts are left out.
- Concurrency.
  - Handlers run one at a time. A code consumption is a SELECT then an UPDATE, so single use is proved only for sequential requests.
  - The stores' `inFlight` promise sharing is left out, because it only matters for overlapping calls.
- Time: the clock is an integer number of seconds that only `Tick` moves. `created_at` ordering is the row index, because rows are appended with `now()`.
- The `typeof window === 'undefined'` guards of the stores and the language preference: the browser is assumed present. The stores' change events are a count; the favourites and language events carry their detail.
- `listKey`/`watchedKey` (in the API modules) are modelled as the pair (media type, `Number(tmdbId)`). A NaN id, and two different pairs printing the same key text, are not modelled.
- `getMyListCached` and `getWatchedCached` return the cache as they find it, so they have no model. The watched store has no remove export, and the one class serves both stores.
- `JSON.stringify` followed by `JSON.parse` is the identity on the stored values. Stored values hold integers only: no floats, and no `undefined` inside arrays.
- Sorting.SortWith: its contract states only that the length is kept; that it only reorders is the separate lemma `Sorting.SortWithPermutes`.
- JsValues.StringToNumber: only the decimal-integer forms that the stored lists and the rating buttons use are read. Other numeric texts (fractions, exponents, hexadecimal, `Infinity`) read as NaN.
- Config.LoadConfig: PORT and SMTP_PORT are read by the same integer-only `Number`, so a value such as "8080.0" or "0x1F90", which the source reads as a port, gives a NaN port here.
- Content.ItemKeyOf: a request-body `tmdbId` is read by the same integer-only `Number`, and JSON numbers are integers. A fractional id (550.5) or a text such as "1e3", "0x1F" or "1.0" is accepted by the source but answered 400 "Invalid tmdbId" here.
- Content.CreateCommentRules: the same applies to the comment's `tmdbId`: the fractional and exponent, hexadecimal or ".0" forms the source accepts are refused with 400 "Invalid tmdbId".
- Content.VoteRules: a vote `value` given as text such as "1.0" or "1e0" is a valid vote in the source but answered 400 "Invalid vote" here.
- Security.NormalizeEmail: `toLowerCase` is modelled for ASCII, Latin-1, Latin Extended-A, the basic Greek and Cyrillic capitals, full-width Latin and the Kelvin and Angstrom signs. Other letters keep their case: accented Greek capitals, capital sigma (whose lower case depends on its position), Armenian, Georgian, Latin Extended-B and beyond. 'İ' (U+0130) also keeps its case; it lowers to two characters, which is the one way the source's result can be longer than its input.
- AuthHandlers.DesiredUsername: lower-cases with the same partial mapping, so a username typed in a script outside it keeps its capitals. Such a name fails `[a-z0-9_.]` in the source too, unless its lower case is ASCII; only the Kelvin sign among those is mapped.
- LanguagePref.StorageKeyRules: the language key is built from the e-mail as `Security.NormalizeEmail` lowers it, with the same gaps.
- Text.SliceUnits: when `slice` would cut a surrogate pair in half, the source keeps the lone high surrogate, which a Dafny string cannot hold. The model stops before that character, one code unit short.
- AuthHandlers.ProfileBio: a bio cut inside a surrogate pair is one code unit shorter than the source's, as `Text.SliceUnits` says.
- AuthHandlers.ProfileAvatarSeed: the same surrogate-pair cut applies to the avatar seed.
- The listing pages' React state, effects and the `ensureLoadedForUiPage` fetch loop are left out; the fetched shows, the selected filters and `uiPage` are parameters.
  - `localeCompare` is a comparator parameter; only the permutation is proved for the title sort.
  - Ratings are reals, compared only.
  - The minimum rating is an integer, since the buttons offer 1-9.
- The TMDB clients, `mapTmdbTv`/`mapTmdbMovie` beyond the card id and title, the category rows and the random featured pick of the home page: network and randomness.
  - A show lookup that throws aborts the whole home-page load in the source. The model treats every lookup's answer as a given batch, so that path is not modelled.
  - The `cancelled` flag and state setters of the home page are left out.
- Presentation components, pages and the remaining fetch wrappers are UI only.
