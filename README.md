# GoogleMeet backend in Dafny

This project models the back end of a Google-Meet-style video-call service. The back end is a Node.js server built on Express and socket.io. It does four things:

- brokers WebRTC signalling between the browsers in a meeting room;
- fans each spoken transcript out to the room's other members, translated into each member's language;
- keeps rooms and participants in relational tables;
- sells and spends translation credits through a payment gateway.

The model follows the source module by module:

- `Server` (server.dfy): the socket.io handlers of `server.js` as a `SignalingServer` class: join, offer/answer/ICE relay, transcript fan-out and disconnect. Its state is the room and participant tables, the per-socket rate-limit windows, the translation log, and an outbox of emitted events.
- `RateLimit` (rate_limit.dfy): one step of the per-socket fixed-window limiter: 20 transcripts per minute
- `RoomCodes` (room_codes.dfy): `abc-defg-hij` room codes: the generator, and the validator's regular language
- `Validation` (validation.dfy): the request and payload validators
- `RoomModel`, `ParticipantModel`, `UserModel`, `CreditUsageLog` (room_model.dfy, participant_model.dfy, user_model.dfy, credit_usage_log.dfy): the Sequelize models. Each table is a class holding a sequence of rows. Queries are functions over the rows; instance methods update one row in place.
- `InMemoryRoom` (room.dfy): the in-memory `Room` class with its insertion-ordered participant `Map`
- `TranslateFree`, `GoogleTranslate`, `GoogleSpeech` (translate_free.dfy, google_translate.dfy, google_speech.dfy): the translation and speech clients. Every HTTP call is an input outcome (`Http.Outcome`).
- `TranslationController`, `RoomController`, `CreditController`, `PaymentController`, `AuthController` (the matching files): the HTTP controllers' decisions and the state changes they make
- `AuthMiddleware`, `Passport`, `CorsConfig`, `ErrorHandler` (the matching files): authentication, Google sign-in, the CORS origin rule and the error middleware
- `Js`, `Http`, `Db`, `Utf8`, `Wrappers`, `Seqs` (js.dfy, http.dfy, db.dfy, utf8.dfy, wrappers.dfy, seqs.dfy): JavaScript values, truthiness, string forms, UTF-16 lengths, `trim`, `split` and `join`; HTTP outcomes; how PostgreSQL VARCHAR(n) and INTEGER columns take a value, and insert failures; the UTF-8 encoding (RFC 3629); `Option` and `Result`; filters, counts and lookups

Several outside parties are replaced by inputs or abstractions:

- The clock is a `now` argument, in milliseconds.
- Random choices are a sequence of picks in `[0, 26)`.
- HMAC-SHA256 (RFC 2104) and JSON Web Token (RFC 7519) signing and verification are function parameters.
- bcrypt is a digest of the first 72 bytes of the password's UTF-8 encoding, one-to-one on those bytes.
- The translator used during fan-out is a function parameter, and log-write failures are a set of socket ids.
- Socket.io emits are appended to an outbox and never sent.

Three behaviours of the code are easy to miss, and the model keeps them:

- A second `join-room` from the same connection is not refused explicitly. It fails because the participant insert hits the unique socket-id column, and the joiner gets 'Failed to join room'.
- A join never reactivates an inactive room: `incrementParticipants` raises the counter and leaves `active` alone.
- Credits are spent only through the `checkCredits` middleware and `deductCredits`. No timer charges them while translation runs, and there is no start- or stop-translation event.

## Model

| member | source | states |
|---|---|---|
| RoomCodes.Groups | utils/roomCodeGenerator.js:21-25 | an accepted code splits into groups of 3, 4-5 and 3-5 lower-case letters joined by hyphens |
| RoomCodes.IsValidRoomCode | utils/roomCodeGenerator.js:21-25 | an accepted code is 12 to 15 characters long, with a hyphen at index 3 and another at index 8 or 9 |
| RoomCodes.AcceptsJoin | utils/roomCodeGenerator.js:21-25 | every three admissible groups joined by hyphens are accepted |
| RoomCodes.ValidIffInLanguage | utils/roomCodeGenerator.js:21-25 | the left-to-right matcher accepts exactly the language of `/^[a-z]{3}-[a-z]{4,5}-[a-z]{3,5}$/` |
| RoomCodes.ValidChars | utils/roomCodeGenerator.js:21-25 | an accepted code holds only lower-case letters and hyphens |
| RoomCodes.RejectsForeignChar | utils/roomCodeGenerator.js:21-25 | the pattern is anchored: any other character anywhere rejects the code |
| RoomCodes.ValidShape | utils/roomCodeGenerator.js:21-25 | an accepted code is 12 to 15 characters long with exactly two hyphens |
| RoomCodes.NoHyphen | utils/roomCodeGenerator.js:23 | a group of lower-case letters holds no hyphen |
| RoomCodes.NonStringNeverValid | utils/roomCodeGenerator.js:21-25 | `test` matches the string form of its argument: undefined, null, a boolean, a number or a plain object is never a room code (an array is joined and may pass) |
| RoomCodes.Letters | utils/roomCodeGenerator.js:6-12 | the letters the picks select are lower-case, one per pick |
| RoomCodes.AlphabetIsLower | utils/roomCodeGenerator.js:4 | the 26-letter alphabet is all lower-case |
| RoomCodes.RandomString | utils/roomCodeGenerator.js:6-12 | the loop appends one alphabet letter per pick: the result is `Letters(picks)` |
| RoomCodes.GenerateRoomCode | utils/roomCodeGenerator.js:3-19 | the code is groups of 3, 4 and 3 letters joined by hyphens, and it passes `isValidRoomCode` |
| Validation.ValidateUserData | middleware/validation.js:62-78 | valid exactly when the name is a non-blank string and both languages are non-empty strings; each failure carries its own message, checked in order |
| Validation.ValidateTranslation | middleware/validation.js:27-59 | passes exactly for a non-blank string of at most 5000 UTF-16 code units with a truthy target; each 400 message in the source's order |
| Validation.ValidateRoomCode | middleware/validation.js:6-24 | the route parameter wins when truthy; passes exactly when the chosen value's string form is a room code, so any value other than a string or an array is refused; 400 'Room code is required' when neither is truthy; 400 with the format message whenever the chosen value is truthy but its string form is not a room code |
| Validation.SingletonArrayPasses | middleware/validation.js:6-24 | a body field holding a one-element array with a valid code passes, because `test` sees the array's string form |
| CorsConfig.AllowedOrigins | config/config.js:26-31 | the three fixed origins plus `FRONTEND_URL` when set and non-empty; never the empty string |
| CorsConfig.CheckOrigin | config/config.js:21-39 | no origin (or an empty one) is allowed; otherwise allowed exactly when listed or containing `vercel.app`, else 'Not allowed by CORS' |
| CorsConfig.VercelSubstringAdmitted | config/config.js:34 | any origin containing `vercel.app` anywhere is allowed, whatever else it holds |
| ErrorHandler.StatusOf | middleware/errorHandler.js:7 | the error's status code when truthy, 500 otherwise |
| ErrorHandler.MessageOf | middleware/errorHandler.js:8 | the error's message when non-empty, 'Internal Server Error' otherwise |
| ErrorHandler.Handle | middleware/errorHandler.js:3-26 | never a success; ValidationError gives 400 with the prefixed message, UnauthorizedError 401 'Unauthorized', else the defaults; the stack appears exactly in development |
| ErrorHandler.NotFound | middleware/errorHandler.js:29-34 | 404 'Route not found', not a success |
| RoomModel.FindByRoomCode | models/RoomModel.js:74-76 | the first row holding the code; `None` exactly when no row holds it |
| RoomModel.FindById | models/ParticipantModel.js:74-77 | the first row with the primary key (the `room` association); `None` exactly when absent |
| RoomModel.FindsTheRoomWithCode | models/RoomModel.js:12-19 | with the unique index on the code, the lookup returns the one row holding it |
| RoomModel.FindActiveRooms | models/RoomModel.js:78-80 | exactly the active rows, counted |
| RoomModel.Decremented | models/RoomModel.js:65-71 | the counter falls by one, floored at zero; the room goes inactive exactly when it reaches zero; nothing else changes |
| RoomModel.Incremented | models/RoomModel.js:60 | the counter rises by one and the id, code, active flag and activity time stay |
| RoomModel.Cutoff | models/RoomModel.js:82-83 | the cutoff lies `hours` hours before `now`, never after it for a non-negative threshold |
| RoomModel.JoinThenLeaveRestores | models/RoomModel.js:60-71 | increment then decrement restores a row whose counter was positive |
| RoomModel.CounterUpdatesNeverReactivate | models/RoomModel.js:60-71 | neither counter update makes an inactive room active |
| RoomModel.Swept | models/RoomModel.js:82-96 | the bulk update keeps every row in place |
| RoomModel.SweptChangesExactlyStale | models/RoomModel.js:82-96 | a row changes exactly when it is active with last activity before the cutoff, and then only its active flag clears |
| RoomModel.SweepIdempotent | models/RoomModel.js:82-96 | after a sweep no stale room remains, so a second sweep changes nothing |
| RoomModel.SweepCount | models/RoomModel.js:95 | the returned count is the number of rooms the sweep took out of the active set |
| RoomModel.SweptWellFormed | models/RoomModel.js:82-96 | the sweep keeps the table's unique codes and ids |
| RoomModel.RoomTable.constructor | models/RoomModel.js:6-52 | an empty table |
| RoomModel.RoomTable.Create | models/RoomModel.js:12-24 | refused exactly for a code outside the pattern, a creator `Db.Varchar` cannot keep in 100 characters or a taken code; otherwise one active row with count 0 is appended, holding the creator as the column keeps it |
| RoomModel.RoomTable.UpdateActivity | models/RoomModel.js:55-58 | only the row's last-activity time changes |
| RoomModel.RoomTable.IncrementParticipants | models/RoomModel.js:60-63 | only the row's counter rises by one |
| RoomModel.RoomTable.DecrementParticipants | models/RoomModel.js:65-71 | the row becomes `Decremented` of itself |
| RoomModel.RoomTable.CleanupInactiveRooms | models/RoomModel.js:82-96 | the table becomes `Swept` at `now - hoursInactive` hours and the stale rooms are counted |
| ParticipantModel.FindBySocketId | models/ParticipantModel.js:87-95 | an active row of the socket; `None` exactly when the socket has no active row |
| ParticipantModel.SocketIdTaken | models/ParticipantModel.js:13-17 | the unique index: some row, active or not, holds the id |
| ParticipantModel.FindByRoomId | models/ParticipantModel.js:97-101 | exactly the room's active rows |
| ParticipantModel.CountByRoomId | models/ParticipantModel.js:103-107 | the number of rows `findByRoomId` returns |
| ParticipantModel.Left | models/ParticipantModel.js:80-82 | the row is inactive with the leaving time, and its socket, room and joining time stay |
| ParticipantModel.LeaveHidesParticipant | models/ParticipantModel.js:80-95 | after `leave` the socket is found no more and its room counts one active member fewer |
| ParticipantModel.LeaveKeepsOtherRooms | models/ParticipantModel.js:80-84 | `leave` leaves other rooms' member counts unchanged |
| ParticipantModel.InsertCounts | models/ParticipantModel.js:97-107 | a new active row adds one member to its own room and none elsewhere |
| ParticipantModel.ParticipantTable.constructor | models/ParticipantModel.js:7-66 | an empty table |
| ParticipantModel.ParticipantTable.Create | models/ParticipantModel.js:7-51 | refused exactly when a value does not fit its VARCHAR column (too long with more than spaces to cut) or the socket id as stored is taken, as `ValueTooLong` or `UniqueViolation` in that order; otherwise the `NewRow` under the next id is appended |
| ParticipantModel.NewRow | models/ParticipantModel.js:13-31 | the new row is active, joined at `now`, not left, under the given ids, and each value is what its column keeps: a prefix of the input, equal to it when it fits 100 (socket id, name) or 10 (languages) characters |
| ParticipantModel.ParticipantTable.Leave | models/ParticipantModel.js:80-84 | only that row changes: inactive, with the leaving time |
| RateLimit.RetryAfter | server.js:253 | `Math.ceil((resetTime - now) / 1000)`: the least whole number of seconds covering the wait |
| RateLimit.RetryText | server.js:253 | the wait is a decimal numeral followed by ' seconds', and the numeral reads back as the number of seconds |
| RateLimit.Current | server.js:236-246 | a fresh window for a new socket, a reset one once the window has passed, else the window as it is |
| RateLimit.Admit | server.js:236-259 | rejected exactly when the current window already holds 20 events; admitted events raise the count by one |
| RateLimit.AdmitKeepsBound | server.js:249-259 | a window's count stays between 0 and 20 |
| RateLimit.FirstEventAdmitted | server.js:236-259 | a socket's first event is admitted and opens a 60-second window |
| RateLimit.ResetOnlyAfterEnd | server.js:243-246 | the count is reset only when `now` is past the window's end |
| RateLimit.Replay | server.js:236-259 | replays a sequence of transcription events through the limiter; it admits at most as many events as it is given |
| RateLimit.ReplayWithinWindow | server.js:236-259 | within one window exactly `min(events, 20 - count)` events are admitted and the count is capped at 20 |
| RateLimit.TwentyFirstRejected | server.js:249-256 | a full window rejects with a wait between 0 and 60 seconds |
| Server.Peers | server.js:193-203 | `existing-users`: every room member other than the joiner appears, the joiner never does, and nothing else does |
| Server.TranslationFor | server.js:283-318 | the text itself for a recipient of the same language or whose log write failed, otherwise the translator's answer |
| Server.Deliver | server.js:278-339 | nothing for the sender; any other member gets one `translated-text` event at its socket with the original text, the sender and its own language |
| Server.LogFor | server.js:278-339 | a log row exactly for another member of a different language whose write did not fail, carrying both socket ids and the delivered translation |
| Server.FanOut | server.js:277-340 | at most one event per member, each addressed to one socket other than the sender |
| Server.FanOutShape | server.js:277-340 | every `translated-text` event goes to one socket other than the sender, carries the original text, the sender and its language, and is untranslated when the recipient shares the language or its log write failed |
| Server.SenderGetsNothing | server.js:278 | the sender is never sent its own transcript |
| Server.OthersGetOwn | server.js:277-340 | any other socket receives one event per member row it owns |
| Server.DeliverCount | server.js:278-339 | one member's delivery reaches a socket exactly when the member owns it |
| Server.CountFilterAtMost | models/ParticipantModel.js:97-101 | selecting a room's members never adds rows of a socket |
| Server.AtMostOneRow | models/ParticipantModel.js:13-17 | with the unique socket index, a socket has at most one row |
| Server.EachOtherMemberOnce | server.js:273-340 | every active member of the room other than the sender receives exactly one event, and the sender none |
| Server.SameLanguageNeedsNoTranslator | server.js:328-338 | when every member shares the sender's language the translator is never consulted: any two give the same events |
| Server.NoMembers | models/ParticipantModel.js:103-107 | a room no active row points to counts zero members |
| Server.SomeMember | models/ParticipantModel.js:103-107 | a room with an active row counts at least one member |
| Server.SameIds | models/ParticipantModel.js:74-77 | changing a room row but not its id keeps every participant's room reachable |
| Server.ConsistentAfterActivity | server.js:166 | an activity update keeps every room counter equal to its active member count |
| Server.ConsistentAfterNewRoom | server.js:156-163 | a newly created room (count 0, fresh id) keeps the counters consistent |
| Server.ConsistentAfterJoin | server.js:169-179 | inserting an active row and incrementing its room keeps the counters consistent |
| Server.ConsistentAfterLeave | server.js:358-367 | `leave` on an active row plus a decrement of its room keeps the counters consistent |
| Server.SignalingServer.constructor | server.js:140 | empty tables, no rate-limit entries, nothing logged or sent |
| Server.SignalingServer.OpenRoom | server.js:155-166 | a room comes back exactly when one has the code or the code is valid, at `OpenedAt`, and the room table becomes `Opened`: the found row with its activity time refreshed, or a new row created by 'user' under the next id; a refused create changes nothing |
| Server.OpenedAt | server.js:156-163 | the index of the row holding the code, or the table's length exactly when no row holds it |
| Server.Opened | server.js:155-166 | the opened room sits at `OpenedAt` with the code and activity time `now`; a found row changes only its activity time, a missing one is appended as an active, empty room created by 'user' under the next id; no other row changes |
| Server.SignalingServer.Refresh | server.js:166 | only the room's activity time changes, and the code still finds it |
| Server.SignalingServer.Enter | server.js:168-209 | a refused insert answers 'Failed to join room' and changes no table; otherwise the joiner's row (next id, active, joined `now`) is appended, its room's counter goes up by one, and `JoinEmits` is sent: `user-joined` to the rest of the room, then `existing-users` and `room-joined` with the room's member count to the joiner |
| Server.JoinerSeesRoom | server.js:168-209 | for a new active row whose stored socket id no earlier row holds: after the insert it is the row `findBySocketId` finds; `existing-users` lists exactly the room's members from before the join; the `room-joined` count is that list's length plus one |
| Server.FoundAtEnd | server.js:169-176 | a row appended with a socket id no earlier row holds is the row found for that socket id |
| Server.PeersAppend | server.js:193-201 | the `existing-users` list of two runs of rows is the two lists joined |
| Server.PeersOfStrangers | server.js:193-201 | when no row has the joiner's socket id, `existing-users` lists every row |
| Server.SignalingServer.JoinValid | server.js:155-213 | when `JoinAdmits` holds (the room exists or its code is valid, the row fits, the socket id is new): the joiner's row is appended, the room table is `Opened` with that room's counter incremented, and the three join events are sent in order; otherwise the member table is unchanged, the room table keeps only what the lookup wrote (the refreshed or created room, or nothing for an invalid new code) and the joiner hears 'Failed to join room' |
| Server.SignalingServer.JoinRoom | server.js:144-214 | invalid user data is answered with the validator's message and changes nothing; valid data gives the same new tables and events as `JoinValid`; counter and member tables stay consistent |
| Server.SignalingServer.Relay | server.js:217-227 | the payload goes unchanged, stamped with the sender, to the socket.io room named `to` (the addressed socket's own room) except the sender |
| Server.SignalingServer.Broadcast | server.js:277-340 | the loop sends exactly `FanOut` of the members and logs exactly `FanOutLog` |
| Server.SignalingServer.Send | server.js:278-339 | one member's delivery and log row, as `Deliver` and `LogFor` say |
| Server.SignalingServer.Forward | server.js:261-343 | an unknown room changes nothing; otherwise the room's active members get `FanOut`, the log grows by `FanOutLog` and the room's activity time is refreshed |
| Server.SignalingServer.Transcription | server.js:230-347 | the socket's window becomes `Admit`'s; a rejection sends the rate-limit error with the wait and nothing else; an admitted event for a known room sends `FanOut` of its active members and logs exactly `FanOutLog` |
| Server.SignalingServer.Depart | server.js:358-370 | the row is marked left, its room's counter falls by one and the room hears `user-left`; the socket is found no more |
| Server.SignalingServer.Disconnect | server.js:350-377 | the rate-limit entry always goes; a socket with an active row has that row marked left, its room's counter decremented and `user-left` sent to the room, and nothing else; any other socket changes nothing else; afterwards the socket has no active row |
| AuthMiddleware.Token | middleware/auth.js:14 | the token is the header's second space-separated word, if any; it holds no space |
| AuthMiddleware.TokenOfBearer | middleware/auth.js:14 | a header `scheme token` carries exactly `token` |
| AuthMiddleware.Authenticated | middleware/auth.js:24-27 | a user comes back exactly when the token verifies to the id of an existing, active account, and then it is that account: the row `findByPk` finds for the token's id |
| AuthMiddleware.OptionalAuth | middleware/auth.js:12-42 | a guest exactly when no user is attached; no token makes a guest; otherwise the user is the authenticated account, if any |
| AuthMiddleware.RequireAuth | middleware/auth.js:45-75 | no token: 401 'Authentication required'; a bad token or unknown or inactive account: 401 'Invalid or expired token'; a request passes exactly when the token verifies to the id of an existing, active account, and the user it passes is that account's row |
| AuthMiddleware.RequireAgreesWithOptional | middleware/auth.js:12-75 | a request passes `requireAuth` exactly when `optionalAuth` finds a user, and it is the same user |
| AuthMiddleware.CheckCredits | middleware/auth.js:78-107 | a guest must sign in; the unlimited plan always proceeds; otherwise the request proceeds exactly when the balance covers the cost (default 1), else 402 with balance and cost |
| AuthMiddleware.GatePassImpliesDebit | middleware/auth.js:78-107 | a request the gate lets through can afford the debit `deductCredits` makes |
| AuthController.Register | controllers/authController.js:6-59 | the three 400 answers in order; an account is created exactly when all fields are given, the password has at least 6 UTF-16 code units, the email is new, name and email fit VARCHAR(255) and the email as kept is new too; it holds 50 credits on the free plan and is answered 201 with a token and the row without its password; an insert the table refuses answers 500 'Registration failed' and changes nothing |
| AuthController.Login | controllers/authController.js:62-116 | 400 without email or password; unknown email and wrong password both 401 'Invalid email or password'; signs in exactly when the stored digest is the bcrypt digest of the password (its first 72 UTF-8 bytes) and the account is active; 403 exactly when the digest matches and the account is deactivated; 500 'Login failed' exactly when the account has no password digest |
| AuthController.LoginHidesWhichCheckFailed | controllers/authController.js:75-90 | an unknown email and a wrong password get the identical reply |
| AuthController.LoginReadsFirst72Bytes | controllers/authController.js:84 | a password of at least 72 UTF-8 bytes logs in the same with anything appended to it |
| AuthController.UpdateProfile | controllers/authController.js:134-154 | a given name the 255-character column cannot keep answers 500 'Failed to update profile' and changes nothing; otherwise the name becomes the kept value when a name is given, nothing else changes, and the reply is the stored row without its password |
| UserModel.HashOnCreate | models/UserModel.js:52-57 | a truthy password is stored as its bcrypt digest; no digest otherwise |
| UserModel.BcryptKey | models/UserModel.js:53-55 | bcrypt keys on at most the first 72 bytes of the password's UTF-8 encoding, all of them when it is that short |
| UserModel.BcryptIgnoresTail | models/UserModel.js:53-55 | once a password is 72 UTF-8 bytes long, nothing appended to it changes its digest |
| UserModel.BcryptShortPasswordsDistinct | models/UserModel.js:68-70 | passwords of at most 72 UTF-8 bytes with the same digest are the same password |
| UserModel.NewUser | models/UserModel.js:5-65 | a new row takes the given fields as their columns keep them (name, email and Google id cut to 255 characters only when the excess is spaces), 30 credits and the free plan by default, is active, holds the password's digest, and fits every column |
| UserModel.ComparePassword | models/UserModel.js:68-70 | a missing digest makes the comparison fail; otherwise it matches exactly the candidates whose bcrypt digest is the stored one |
| UserModel.ToJsonKeepsAllButPassword | models/UserModel.js:117-121 | `toJSON` drops the password and nothing else: the row can be rebuilt from it, and it does not depend on the password |
| UserModel.ToJson | models/UserModel.js:117-121 | the row without its password: rebuilt with that password it is the row again |
| UserModel.FromJson | models/UserModel.js:117-121 | the rebuilt row has the given password and the serialised id, email, credits, plan and active flag |
| UserModel.Debit | models/UserModel.js:72-109 | the unlimited plan keeps the balance and succeeds; otherwise the debit is refused exactly when the balance is below the amount, else the balance falls by it |
| UserModel.DebitNeverOverdraws | models/UserModel.js:92-97 | a successful debit of a non-negative amount never makes a balance negative |
| UserModel.AddThenDebitRestores | models/UserModel.js:72-115 | adding and then debiting the same amount gives the balance back |
| UserModel.FindByPk | models/UserModel.js:83-86 | the first row with the id; `None` exactly when no row has it |
| UserModel.FindByEmail | controllers/authController.js:26 | the first row with the email; `None` exactly when no row has it |
| UserModel.FindByGoogleId | config/passport.js:19 | the first row with the Google id; `None` exactly when no row has it |
| UserModel.UserTable.constructor | models/UserModel.js:5-65 | an empty table |
| UserModel.UserTable.Create | models/UserModel.js:5-57 | refused, changing nothing, exactly when a string does not fit VARCHAR(255), the credits do not fit INTEGER, or the kept email or Google id is taken, reported as `ValueTooLong`, `OutOfRange` or `UniqueViolation` in that order; otherwise `NewUser` is appended under the next id |
| UserModel.UserTable.DeductCredits | models/UserModel.js:72-109 | the unlimited plan succeeds without change; a missing row, a short balance or a balance outside INTEGER refuses and changes nothing; otherwise the row and the caller's copy hold the debited balance |
| UserModel.UserTable.AddCredits | models/UserModel.js:111-115 | a new balance outside the 32-bit INTEGER column is refused as `OutOfRange` and changes nothing; otherwise only the row's balance rises by the amount, and the new balance is returned |
| UserModel.UserTable.SetName | controllers/authController.js:138-141 | succeeds exactly when the name fits VARCHAR(255) after cutting trailing spaces; then only the row's name changes, to the kept value; otherwise nothing changes |
| UserModel.UserTable.LinkGoogle | config/passport.js:37-48 | succeeds exactly when the Google id and the name fit VARCHAR(255) and no other row holds the kept id; then only the row's Google id and name change, to the kept values; otherwise nothing changes |
| Passport.Verify | config/passport.js:25-64 | an account with the Google id signs in unchanged; otherwise the first email's account is linked to the profile and takes its name, when the columns keep them and the id is not another row's; otherwise a new account with 30 credits on the free plan is made, when its values fit and its kept email and id are new; a profile without emails, and any refused save, fails and changes nothing |
| Passport.DeserializeUser | config/passport.js:9-16 | the account with the id, or none exactly when no account has it |
| Passport.SerializeUser | config/passport.js:5-7 | the session holds the account's id |
| Passport.SessionRoundTrip | config/passport.js:5-16 | with unique ids, deserializing a serialized account gives that account back |
| CreditUsageLog.CeilDiv | models/CreditUsageLog.js:55-60 | `Math.ceil(a / b)`: the least whole multiple count covering `a` |
| CreditUsageLog.WholeMinutes | models/CreditUsageLog.js:60 | exactly `k` minutes cost `k` credits |
| CreditUsageLog.PartialMinuteRoundsUp | models/CreditUsageLog.js:60 | any started minute is billed in full |
| CreditUsageLog.CreditUsageLog.constructor | models/CreditUsageLog.js:4-49 | a new log has no end time, 0 credits used and translation active |
| CreditUsageLog.CreditUsageLog.CalculateCredits | models/CreditUsageLog.js:52-62 | the started minutes from the start to the end time, or to now while the session is open |
| CreditUsageLog.CreditUsageLog.EndSession | models/CreditUsageLog.js:64-71 | the end time is set, translation stops, and the tracked credits are returned unchanged, never recomputed |
| CreditController.GetCredits | controllers/creditController.js:7-30 | 404 exactly when the caller's row is missing; otherwise that row's balance and plan |
| CreditController.Page | controllers/creditController.js:37-46 | `limit`/`offset` paging: at most `limit` rows, each the row `offset` places further on, empty past the end and full when enough rows exist |
| CreditController.InsertByTime | controllers/creditController.js:39 | inserting into a newest-first list keeps it newest first and adds exactly the one log |
| CreditController.NewestFirst | controllers/creditController.js:39 | `ORDER BY createdAt DESC`: the logs newest first, a permutation of the input |
| CreditController.PageOfSorted | controllers/creditController.js:37-42 | a page of the ordered logs is itself newest first and holds only logs of the input |
| CreditController.GetUsageHistory | controllers/creditController.js:33-62 | limit 50 and offset 0 by default; the logs are the `Page` at that offset and limit of the caller's own logs (`Seqs.Filter` by owner) ordered newest first (`NewestFirst`), so the page is newest first and holds only the caller's logs; the total counts all the caller's logs |
| CreditController.LookbackDays | controllers/creditController.js:73-85 | 7 days for '7d', 90 for '90d', 30 for anything else |
| CreditController.PeriodStart | controllers/creditController.js:71-85 | the period starts between 90 and 7 days before `now` |
| CreditController.SumCredits | controllers/creditController.js:96 | the reduce over non-negative usage is non-negative |
| CreditController.SumCreditsAppend | controllers/creditController.js:96 | the reduce over two batches is the sum of their totals |
| CreditController.SumCreditsBounds | controllers/creditController.js:96 | non-negative usage sums to between 0 and the sessions times the largest entry |
| CreditController.Mean | controllers/creditController.js:98 | the total divided by the sessions, and 0 for none |
| CreditController.GetUsageStats | controllers/creditController.js:65-117 | over the caller's logs created at or after `PeriodStart` (`Seqs.Filter`): their total and count, their mean, the period name (default '30d') and the current balance |
| CreditController.PurchaseCredits | controllers/creditController.js:120-148 | only 100, 500, 1000 or 5000 pass validation, and even they only get the 'coming soon' reply |
| CreditController.AddCredits | controllers/creditController.js:151-187 | 400 exactly for a falsy user id or amount, 404 exactly for an unknown user, 500 'Failed to add credits' exactly when the new balance does not fit INTEGER; otherwise only that balance rises by the amount, reported with the message and new balance; no other answer changes a row |
| PaymentController.Listings | controllers/paymentController.js:374-377 | one listing per package, in order, its fields with its id |
| PaymentController.GetPackages | controllers/paymentController.js:371-379 | all four packages in table order, each under its own id, no id twice, and each id finds exactly the fields listed with it |
| PaymentController.PackageIdsDistinct | controllers/paymentController.js:18-43 | no two packages share an id |
| PaymentController.PackagesFound | controllers/paymentController.js:18-43 | each package's id finds exactly that package |
| PaymentController.OrderFor | controllers/paymentController.js:88-89 | the order is the price in paise, in rupees (`INR`), for the package's credits |
| PaymentController.PendingTransaction | controllers/paymentController.js:112-121 | the stored row is pending, for the caller and the gateway's order id, with the package's credits and the amount back in rupees |
| PaymentController.PendingAmountIsPrice | controllers/paymentController.js:88-115 | the stored amount equals the package price |
| PaymentController.VerifyAsWritten | controllers/paymentController.js:182-244 | a bad signature fails the transaction with 'Invalid signature' and grants nothing; a gateway error leaves it; otherwise the row takes the payment id and method and is paid, granting its credits, exactly when the gateway says `captured`, else failed with the gateway's status as reason; no other field changes |
| PaymentController.VerifyGuarded | controllers/paymentController.js:293-297 | an already-paid transaction is left alone and grants nothing, whatever the signature or the gateway says; every other case is `VerifyAsWritten` |
| PaymentController.VerifyAsWrittenCreditsTwice | controllers/paymentController.js:209-216 | replaying a captured verification grants the credits a second time |
| PaymentController.VerifyGuardedCreditsOnce | controllers/paymentController.js:293-297 | after a grant the transaction is paid, and any later call, signed or not, changes nothing and grants nothing |
| PaymentController.WebhookCaptured | controllers/paymentController.js:293-310 | an already-paid transaction is untouched and grants nothing; otherwise it becomes paid with the payload's id and method and grants its credits |
| PaymentController.WebhookFailed | controllers/paymentController.js:319-323 | only the status and failure reason change: the row is failed, with the gateway's description when present, else 'Payment failed' |
| PaymentController.WebhookFailedGuarded | controllers/paymentController.js:313-325 | an already-paid transaction is left alone; any other is failed as `WebhookFailed` |
| PaymentController.WebhookFailedReopensPaid | controllers/paymentController.js:282-325 | as written, `payment.captured`, then `payment.failed`, then `payment.captured` again grants the credits twice |
| PaymentController.Apply | controllers/paymentController.js:156-325 | one guarded event keeps the credits and grants them exactly when it turns an unpaid transaction paid; a `payment.failed` event reports the transaction already processed when it was paid and marked failed otherwise |
| PaymentController.PaidStaysPaid | controllers/paymentController.js:156-325 | once paid, any run of guarded events leaves the transaction as it is and grants nothing |
| PaymentController.RunGrantsOnce | controllers/paymentController.js:156-325 | over any run of verification calls and webhook events, the credits are granted once if the run turns the transaction paid and not at all otherwise |
| PaymentController.WebhookCapturedIdempotent | controllers/paymentController.js:282-312 | a repeated `payment.captured` event changes nothing and grants nothing |
| PaymentController.FindTransaction | controllers/paymentController.js:171-173 | the first transaction of the order (and the user, when given); `None` exactly when there is none |
| PaymentController.PaymentLedger.constructor | models/PaymentTransaction.js:1-64 | an empty ledger |
| PaymentController.PaymentLedger.CreateOrder | controllers/paymentController.js:47-153 | 401 without a user, 500 without credentials, 400 for an unknown package; a failed gateway order answers the order failure and a failed insert the store failure; otherwise the reply carries the gateway's order id, the key id and the package name, and exactly one pending row priced from the package is stored; nothing is stored otherwise |
| PaymentController.PaymentLedger.VerifyPaymentAsWritten | controllers/paymentController.js:156-254 | 404 exactly when the caller has no transaction for the order; otherwise `Settled` with `VerifyAsWritten` of the row: a gateway fetch that fails, or a grant the caller's INTEGER balance cannot take, answers 500 'Failed to verify payment' and saves nothing; else the row is stored and the grant added |
| PaymentController.PaymentLedger.VerifyPayment | controllers/paymentController.js:156-254 | as above with `VerifyGuarded`: a paid transaction stays paid and is not credited again (`RunGrantsOnce`) |
| PaymentController.PaymentLedger.Settle | controllers/paymentController.js:209-250 | `Settled`: a failed gateway fetch answers 500 'Failed to verify payment' and changes nothing, and so does a balance that would leave INTEGER, since credits are added before the save; otherwise the settled row is stored and its grant, if any, added to the caller, whose new balance is reported |
| PaymentController.GatewayFailureAnswers500 | controllers/paymentController.js:203-252 | with a valid signature, a failed payment fetch is answered 500 and leaves the transaction and the balances as they were |
| PaymentController.PaymentLedger.WebhookCapture | controllers/paymentController.js:282-312 | 404 when no transaction has the order; otherwise `CapturedAs`: a paid row is left and answered 'Already processed'; else the owner, if any, is credited first, a balance that would leave INTEGER fails the webhook and saves nothing, and otherwise the row becomes `WebhookCaptured` of itself and is processed |
| PaymentController.PaymentLedger.HandleWebhook | controllers/paymentController.js:257-334 | refused exactly when the signature is not the HMAC of the body under the webhook secret (or else the key secret), changing nothing; `payment.captured` as `WebhookCapture` (`CapturedAs`); `payment.failed` fails the order's row unless it is already paid (`WebhookFailedGuarded`) and is answered processed; other events change nothing |
| Seqs.Lookup | services/googleSpeechService.js:199 | an object-literal lookup (also the package table's): a value exactly when some entry has the key, and then that entry's value |
| Seqs.Filter | controllers/creditController.js:37-46 | a `where` selection: the kept elements satisfy the condition, every element that does is kept, and nothing is added |
| Seqs.FilterAppend | controllers/creditController.js:37-46 | selecting from two batches is selecting from each and concatenating |
| Seqs.FilterMultiplicity | controllers/creditController.js:37-46 | each element kept appears exactly as often as in the input, and a rejected one not at all |
| GoogleSpeech.GetAlternativeLanguages | services/googleSpeechService.js:190-200 | a listed primary code gets exactly its table entry, an unlisted one gets none, and the primary code is never among its alternatives |
| GoogleSpeech.GetLanguageCode | services/googleSpeechService.js:207-233 | a listed short code gets its full code `xx-RR`; anything else gets 'en-US' |
| GoogleSpeech.Prefix | services/googleSpeechService.js:131 | `split('-')[0]`: the longest hyphen-free start of the code, ended by a hyphen when shorter |
| GoogleSpeech.PrefixIsFirstPart | services/googleSpeechService.js:131 | the language part is exactly the first part of `split('-')` |
| GoogleSpeech.LanguageCodeKeepsPrefix | services/googleSpeechService.js:131-138 | the language part of every full code `getLanguageCode` returns is the short code it came from (or 'en') |
| GoogleSpeech.ListedCodeHasNoHyphen | services/googleSpeechService.js:208-230 | a short code found in the region table holds no hyphen |
| GoogleSpeech.ShortCodesHaveNoHyphen | services/googleSpeechService.js:208-230 | no short code in the table holds a hyphen |
| GoogleSpeech.PrefixOfCode | services/googleSpeechService.js:131 | the language part of `short-region` is `short` |
| GoogleSpeech.RoundedMebibytes | services/googleSpeechService.js:41 | `Math.round(bytes / 1024 / 1024)`: the nearest whole number of mebibytes, halves rounding up |
| GoogleSpeech.ClassifyFailure | services/googleSpeechService.js:105-181 | each failure maps to one error, both ways: 400 exactly to 'Bad Request' with the API's detail, 403, 429 and 413 exactly to their own errors, any other status exactly to the wrapped status, a timeout exactly to the timeout error and an unreachable host exactly to the network error |
| GoogleSpeech.SpeechError.Message | services/googleSpeechService.js:41-181 | every thrown message is non-empty; exactly the four status errors are thrown as they are, and every other error is rethrown behind 'Speech-to-Text failed: ' |
| GoogleSpeech.TranscribeAudio | services/googleSpeechService.js:27-183 | over 10 MiB and empty audio fail first; a failed request gives `ClassifyFailure` of it; no results is 'No speech detected'; otherwise the transcript is `trim(join(' '))` of the first alternatives, and the translation is present exactly when one is asked for a different language and `translate` succeeded, and then it is that translation |
| GoogleSpeech.TranslationFailureKeepsTranscript | services/googleSpeechService.js:141-144 | a failed translation leaves the translation empty while the transcription still succeeds |
| GoogleTranslate.Request | services/googleTranslateService.js:29-49 | no request for a blank text; otherwise the text, the target and format 'text', with `source` present exactly when a source language was given |
| GoogleTranslate.ClassifyStatus | services/googleTranslateService.js:91-97 | exactly statuses 400, 403 and 429 are reported as errors |
| GoogleTranslate.TranslateError.Message | services/googleTranslateService.js:91-96 | each rethrown status has a non-empty message |
| GoogleTranslate.MessagesDistinct | services/googleTranslateService.js:91-96 | the three messages are different, so the message tells the status |
| GoogleTranslate.Translate | services/googleTranslateService.js:27-104 | a blank text gives ''; a listed translation is returned; an error only for statuses 400, 403, 429; every other failure gives the original text |
| GoogleTranslate.BlankNeedsNoCall | services/googleTranslateService.js:29-31 | for a blank text the answer is '' whatever the API would have said |
| GoogleTranslate.DetectLanguage | services/googleTranslateService.js:111-136 | the first detection, else 'en' on any failure or empty answer |
| GoogleTranslate.FailuresFallBack | services/googleTranslateService.js:110-163 | detection and the language list never fail: failed requests give 'en' and the empty list |
| GoogleTranslate.GetSupportedLanguages | services/googleTranslateService.js:142-163 | never an error: a listed answer is returned as is, and a failed request or an answer without a list gives the empty list |
| GoogleTranslate.ApiKey | services/googleTranslateService.js:9 | the key is one of the two sources, and the configured key whenever that one is set |
| GoogleTranslate.IsConfigured | services/googleTranslateService.js:169-171 | `!!this.apiKey` over the chosen key: configured exactly when the configured or the environment key is set |
| TranslateFree.FirstSuccess | services/translateServiceFree.js:18-91 | the reference rule for the chain: the providers it reports calling are a prefix of the attempts, in order |
| TranslateFree.FirstSuccessAllFailed | services/translateServiceFree.js:83-89 | when no provider answers, the fallback comes back and every provider was called |
| TranslateFree.FirstSuccessStopsAtFirstUsable | services/translateServiceFree.js:37-82 | the first usable answer wins and no provider after it is called |
| TranslateFree.Providers | services/translateServiceFree.js:18-91 | the providers of the attempts, one per attempt, in order |
| TranslateFree.CloudAnswer | services/translateServiceFree.js:37-40 | Google Cloud's answer is usable exactly when the request succeeded with a translation, and it is that translation |
| TranslateFree.LibreAnswer | services/translateServiceFree.js:64-67 | LibreTranslate's answer is usable exactly when the request succeeded with a non-empty text |
| TranslateFree.UnofficialAnswer | services/translateServiceFree.js:79-81 | the unofficial answer is usable exactly when the request succeeded with a non-empty list, and then it is the first entry |
| TranslateFree.Translate | services/translateServiceFree.js:18-91 | at least one provider is called, and Google Cloud is called first exactly when an API key is set |
| TranslateFree.FreeTailIsFirstSuccess | services/translateServiceFree.js:52-90 | LibreTranslate then the unofficial endpoint then the original text is the first-success rule over those two |
| TranslateFree.TranslateIsFirstSuccess | services/translateServiceFree.js:18-91 | `translate` equals the first-success rule over its providers with the original text as fallback, for every combination of answers |
| TranslateFree.AllFailedGivesOriginal | services/translateServiceFree.js:83-89 | when every request fails, the original text comes back after calling all (two or three) providers |
| TranslateFree.CloudSuccessStopsChain | services/translateServiceFree.js:37-41 | a Google Cloud translation is returned without calling any other provider |
| TranslateFree.DetectLanguage | services/translateServiceFree.js:93-132 | the answer is 'en', or Google Cloud's detection (with a key), or LibreTranslate's first detection |
| TranslateFree.DetectIsFirstSuccess | services/translateServiceFree.js:93-132 | `detectLanguage` equals the first-success rule over Google Cloud and LibreTranslate with 'en' as fallback |
| TranslationController.Translate | controllers/translationController.js:9-65 | 400 exactly for a missing field or a text over 5000 UTF-16 code units, with the source's messages; otherwise the text, target and source (default 'en') are echoed, Google's translation is used, and the free chain answers with label 'libre' exactly when Google reports an error |
| TranslationController.LibreIffGoogleErr | controllers/translationController.js:28-47 | a well-formed request is always translated, and labelled 'libre' exactly when Google's client throws |
| TranslationController.GoogleErrIffReported | services/googleTranslateService.js:86-102 | for a non-blank text Google's client throws exactly on status 400, 403 or 429 |
| TranslationController.LibreOnlyOnReportedStatus | controllers/translationController.js:32-47 | for a non-blank text, the free chain is used exactly when Google answered status 400, 403 or 429 |
| TranslationController.BlankTextAnsweredEmpty | controllers/translationController.js:14-37 | a whitespace-only text passes the controller's own field check and is answered '' by Google when the controller is reached without the validator |
| TranslationController.RouteRefusesBlankText | middleware/validation.js:44-49 | on the mounted route a whitespace-only text never reaches the controller: the validator refuses it |
| TranslationController.DetectLanguage | controllers/translationController.js:67-93 | 400 exactly without a text; otherwise Google's detection with the text echoed |
| InMemoryRoom.Without | models/Room.js:22-24 | the keys that remain after a `Map` delete: exactly the others, still without repeats |
| InMemoryRoom.DistinctCardinality | models/Room.js:34-36 | a key list without repeats is as long as its set of keys, so the `Map`'s size is the number of ids |
| InMemoryRoom.Room.constructor | models/Room.js:4-10 | the room starts active, empty, created now, by the given creator or 'anonymous' |
| InMemoryRoom.Room.AddParticipant | models/Room.js:12-20 | the entry for the id is set to the given details; a new id goes last, a known id keeps its place; nothing else changes |
| InMemoryRoom.Room.RemoveParticipant | models/Room.js:22-24 | only that id's entry is removed; an absent id changes nothing |
| InMemoryRoom.Room.GetParticipant | models/Room.js:26-28 | an entry exactly for a present id, and it is that id's entry |
| InMemoryRoom.Room.GetAllParticipants | models/Room.js:30-32 | every entry once, in insertion order |
| InMemoryRoom.Room.GetParticipantCount | models/Room.js:34-36 | the number of distinct ids present |
| InMemoryRoom.Room.IsEmpty | models/Room.js:38-40 | true exactly when no id is present |
| InMemoryRoom.Room.ToJson | models/Room.js:42-51 | the room's code, creation time, creator and active flag, and a count equal to the length of the reported list, which is every entry in order |
| InMemoryRoom.LookupAll | models/Room.js:31 | `Array.from(values())`: the entries at the given keys, in that order |
| InMemoryRoom.WithoutAbsent | models/Room.js:23 | deleting an absent key leaves the key order unchanged |
| InMemoryRoom.AddThenRemoveRestoresOrder | models/Room.js:12-24 | adding a new id and removing it again restores the previous key order |
| RoomController.Creator | controllers/roomController.js:14 | the given creator when it is non-empty, else 'anonymous' |
| RoomController.CreateRoom | controllers/roomController.js:8-35 | the code is the one the picks spell in groups of 3, 4 and 3; created exactly when `Db.Varchar` keeps the creator in 100 characters and the code is free, and then the URL is `/meet/` plus the code and exactly one active room with no participants and the kept creator is appended; on failure the table is unchanged |
| RoomController.Views | controllers/roomController.js:68-73 | one view per participant, in order, with name, languages and join time |
| RoomController.GetRoom | controllers/roomController.js:38-83 | 400 exactly for a malformed code, 404 exactly for a well-formed unknown code; otherwise the room's code, creation time and active flag, with the count and list of its active participants |
| RoomController.RoomExists | controllers/roomController.js:86-111 | a malformed code is refused; otherwise `exists` equals `active` and holds exactly when a room with that code is active |
| RoomController.Summaries | controllers/roomController.js:121-126 | one summary per room, in order, with code, creation time, stored count and last activity |
| RoomController.GetAllRooms | controllers/roomController.js:114-135 | the count equals the list's length, and the list holds exactly the summaries of the active rooms |
| RoomController.CleanupInactiveRooms | controllers/roomController.js:138-147 | the sweep runs with the 24-hour threshold |
| Js.Or | middleware/validation.js:7 | JavaScript's logical or: the first operand when it is truthy, else the second |
| Js.Truthy | middleware/validation.js:7 | falsy exactly for undefined, null, false, 0 and the empty string; arrays and objects are truthy |
| Js.ToString | utils/roomCodeGenerator.js:24 | `String(v)` as `test` sees it: a one-element array of a string is that string, an empty array the empty string |
| Js.Utf16Length | middleware/validation.js:51 | `.length` counts UTF-16 code units: at least one and at most two per character |
| Js.Utf16LengthCounts | middleware/validation.js:51 | the length equals the number of characters exactly when none is outside the Basic Multilingual Plane, and twice it exactly when all are |
| Js.AstralCountsTwo | middleware/validation.js:51 | a character outside the Basic Multilingual Plane counts 2 |
| Js.Split | middleware/auth.js:14 | `split(sep)` yields at least one part and no part holds the separator |
| Js.Join | services/googleSpeechService.js:117-119 | `join(sep)`: empty for no parts; otherwise the parts' lengths plus one separator between each pair, starting with the first part |
| Js.JoinSnoc | services/googleSpeechService.js:117-119 | joining one more part appends the separator and the part |
| Js.JoinSplit | middleware/auth.js:14 | joining the parts of a split with its separator gives the string back |
| Js.SplitJoin | middleware/auth.js:14 | splitting the join of separator-free parts gives the parts back |
| Js.SplitWord | middleware/auth.js:14 | a first word without the separator splits off as its own part |
| Js.SplitWhole | middleware/auth.js:14 | a word without the separator splits into itself alone |
| Js.TrimStart | middleware/validation.js:44 | drops exactly the leading whitespace: the result is a suffix, what was dropped is blank, and it does not start with whitespace |
| Js.TrimEnd | middleware/validation.js:44 | drops exactly the trailing whitespace: the result is a prefix, what was dropped is blank, and it does not end with whitespace |
| Js.Trim | middleware/validation.js:44-65 | `trim()`: no longer than the input, and neither starts nor ends with whitespace |
| Js.TrimIsMiddle | middleware/validation.js:44-65 | what `trim()` keeps is one run of the input, starting where the leading whitespace ends, and every character outside that run is whitespace |
| Js.TrimEmptyIffBlank | middleware/validation.js:44-65 | `s.trim().length === 0` holds exactly when every character is whitespace |
| Js.IntToString | utils/roomCodeGenerator.js:24 | `String(n)` for an integer: a decimal numeral (optional '-', no leading zero, no '-0') that reads back as `n` |
| Js.NatToString | utils/roomCodeGenerator.js:24 | the digits of a natural number, without a leading zero, reading back as the number |
| Js.IntToStringInjective | utils/roomCodeGenerator.js:24 | different integers print differently |
| Db.Varchar | models/ParticipantModel.js:13-31 | storing in VARCHAR(n): kept exactly when every character past n is a space, and then the kept value is a prefix of the input of length at most n, the input itself when it fits |
| Db.VarcharIdempotent | models/RoomModel.js:20-24 | a kept value is kept unchanged when stored again |
| Db.VarcharLosesOnlySpaces | models/UserModel.js:11-31 | only trailing spaces are lost: the input is the kept value followed by spaces |
| Utf8.DecodeEncode | models/UserModel.js:53-55 | the UTF-8 bytes bcrypt reads decode back to the password, so the encoding is one-to-one |
| Utf8.EncodeInjective | models/UserModel.js:68-70 | two passwords with the same UTF-8 bytes are the same |
| Utf8.EncodeAppend | models/UserModel.js:53-55 | the bytes of a concatenation are the two byte strings concatenated |

## Left out

- The Express and socket.io wiring, static pages, `startServer` and the database start-up are not modelled. The routes files only connect URLs to the handlers modelled here.
- HTTP calls to Google, LibreTranslate and the payment gateway are not modelled. Each is an input outcome, so timeouts are `Timeout` and the payload is already parsed.
- HMAC-SHA256, JWT signing and verification, and bcrypt salting and cost are abstracted. The model assumes only that a bcrypt digest matches exactly the passwords that share its first 72 UTF-8 bytes. `generateToken` is therefore a parameter.
- UserModel.Bcrypt: bcryptjs also ends the key with a NUL byte and repeats it to fill 72 bytes, which makes some further pairs of passwords collide (a password and the same password followed by NUL and itself again). Those collisions are not modelled.
- The base64 encoding of audio and the recognition request body are not modelled. Only the audio's byte count matters.
- Row locking and concurrent requests are not modelled. `UserModel.UserTable.DeductCredits` is one atomic step.
- The `setInterval` room sweep is not modelled as a timer. `RoomController.CleanupInactiveRooms` is one sweep at a given `now`.
- middleware/rateLimiter.js is not modelled. It only configures the express-rate-limit library.
- services/translateService.js is not part of this model. server.js does not use it.
- models/TranslationLogModel.js statistics, a SQL GROUP BY with averages, are not modelled. The model keeps only the log rows that the fan-out writes.
- socket.io room membership (`socket.join`) is not modelled. A broadcast to a room stays a symbolic target (`ToRoomExcept`) in the outbox.
- Console logging and the 'recommended size' warning of the speech service are left out. Neither affects a reply.
- The `beforeUpdate` password hook is left out. No modelled operation changes a password.
- `getPaymentHistory`, `getMe` and `AuthController.getCredits` are left out. They only read rows back.
- Email syntax (`isEmail`) is left out. Its regular expression belongs to the validator library.
- CreditController.GetUsageStats: the average is the exact quotient. `Math.round(x * 10) / 10` floating-point rounding is not modelled.
- CreditController.GetUsageStats: the period starts `now` minus a whole number of 24-hour days. Calendar and daylight-saving effects of `setDate` are not modelled.
- GoogleSpeech.TranscribeAudio: confidence values and the processing time are not modelled. A result with no alternatives is not modelled either, because the payload is already parsed into transcripts.
- Server.SignalingServer.Transcription: the measured translation time in each log row is not modelled.
- PaymentController.PaymentLedger.HandleWebhook: its `payment.failed` branch uses the corrected `WebhookFailedGuarded` (see Findings). The branch as written is `PaymentController.WebhookFailed`.
- PaymentController.PaymentLedger.VerifyPayment: the stored `gatewayResponse` object is not modelled. Only the status, payment id, method and failure reason are kept.
- Request fields: a present field is modelled as a string or a `Js.Value`. Prototype-chain keys and non-string fields are not modelled where the source reads them as strings.
- CreditController.GetUsageHistory: the limit and offset arrive already parsed as natural numbers. `parseInt` of a non-numeric or negative query value is not modelled.
- CreditController.AddCredits: the amount is an integer. A JSON string amount, which `+=` would concatenate to the balance before the database coerces it, and other non-numeric amounts are not modelled.
- The request bodies the free translation chain sends (the text, the target, and the source defaulting to 'en') are not modelled. Its answer depends only on each provider's outcome.
- CreditController.NewestFirst: logs with the same creation time keep table order. SQL leaves their order open, so the model picks one of the orders the database may return.
- AuthController.UpdateProfile: the reply is the row as stored, with the name as its column keeps it. The Sequelize instance the source serialises may still hold the uncut name (trailing spaces past 255 characters), which the model does not reproduce.
- The PaymentTransaction columns (VARCHAR(255) order, payment and method ids, INTEGER amount and credits) are not checked. Their values come from the fixed package table and the gateway.
- PaymentController.Apply and PaymentController.Run: they describe the transaction, not the users table, so a grant refused because the balance would leave INTEGER (a 500 from `Settle` or `WebhookCapture`) is not part of them.
- The password column's VARCHAR(255) is not checked. A bcrypt digest is always 60 characters.

## Findings

| source | as written | input that shows it | evidently intended | confidence | as-written member | corrected member |
|---|---|---|---|---|---|---|
| controllers/paymentController.js:209-216 | `verifyPayment` adds the transaction's credits whenever the signature is valid and the gateway reports `captured`, even when the transaction is already `success` | a signed-in user replays their own `verify-payment` request (same order id, payment id and valid signature) while the gateway reports `captured`; or verifies after the webhook has already settled the order: the credits are granted a second time | the guard the webhook has at controllers/paymentController.js:293-297, checked before the signature: a transaction already settled as paid is answered 'Already processed' and grants nothing, so a bad signature cannot demote it either | not executed | PaymentController.VerifyAsWritten (PaymentController.VerifyAsWrittenCreditsTwice) | PaymentController.VerifyGuarded (PaymentController.VerifyGuardedCreditsOnce, PaymentController.RunGrantsOnce), used by PaymentController.PaymentLedger.VerifyPayment |
| controllers/paymentController.js:313-325 | `payment.failed` marks the order's transaction failed even when it is already `success` | `payment.captured` settles the order and grants its credits; a validly signed `payment.failed` for the same order follows; a repeated `payment.captured` then passes the 'already processed' check and grants the credits again | the guard of the `payment.captured` branch at controllers/paymentController.js:293-297: a transaction already paid is not changed | not executed | PaymentController.WebhookFailed (PaymentController.WebhookFailedReopensPaid) | PaymentController.WebhookFailedGuarded (PaymentController.RunGrantsOnce), used by PaymentController.PaymentLedger.HandleWebhook |
