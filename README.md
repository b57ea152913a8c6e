# Referral dashboard: a Dafny model

This project models the core of a small referral and donation dashboard. It
has an Express/Mongoose server and a React client.

On the server side it models:

- the referral-code rule of the `pre('save')` hook: lower-case the name, drop
  the whitespace, append `2025`, and only when no code is set;
- the user collection, with its unique indexes on id, e-mail and referral code,
  and the way `save()` and `insertMany()` use them;
- the bearer-token gate `authenticateToken` (401 when there is no token, 403
  when a token fails verification);
- the six route handlers: signup, login, dashboard, leaderboard, donation
  update and demo seeding.

On the client side it models the reward-tier functions `getRewardStatus` and
`getNextReward`, the three reward cards, and the `userRank` lookup with its
`#N/A` label.

The project is split into modules:

- `Collections`: `Option`, first-match search, `Min`.
- `Text`: decimal numerals.
- `ReferralCode`: the code rule.
- `Users`: records, lookups, `save`, `insertMany`.
- `Auth`: header splitting and the auth gate.
- `Ranking`: the leaderboard.
- `Api`: the response values, the demo data, and the class `UserStore`. Its
  mutable `users` sequence is the collection, and its methods are the route
  handlers.
- `App`: the client.

`UserStore.Valid()` is the collection invariant that the state-changing
handlers preserve:

- every key is unique;
- every record passed validation and carries a code;
- every id is below the next fresh id.

Some parts are abstracted:

- bcrypt is outside the model. Signup receives the hash, and login receives the
  comparison function.
- JWT verification is a function from a token string to the claims it carries.
  A signed token is represented by its claims `{ userId, email }`.
- The random initial donation and the clock are parameters.
- A referral code that is absent is modelled as the empty string. Both are
  falsy for the hook. MongoDB's unique index treats every missing field as the
  same value (`null`), so two empty codes collide just as two missing fields do.

Three behaviours of the code worth stating:

- Donation totals are not kept non-negative: `PUT /api/donations` adds any
  amount, so `donationsRaised` is an `int`.
- Leaderboard ties have no stable tie-break. The database sort documents none,
  so `Leaderboard` promises only that its rows come from some valid top-10
  selection with ties in any order.
- A signup whose derived code is already taken fails in `save()` and answers
  the generic 500 `Server error`, not a dedicated error.

## Model

| member | source | states |
|---|---|---|
| ReferralCode.ToLower | server/server.js:33 | ASCII `toLowerCase` on one character: upper-case letters map to the lower-case letter at the same offset, every other character is unchanged, and whitespace stays whitespace |
| ReferralCode.Lower | server/server.js:33 | the lower-cased name has the same length and is lower-cased position by position |
| ReferralCode.StripWhitespace | server/server.js:33 | `replace(/\s+/g, '')` leaves no whitespace character and never lengthens the string |
| ReferralCode.CodeFor | server/server.js:33-34 | the code is the lower-cased, whitespace-free name followed by `2025`; it contains no whitespace, no upper-case letter, and is never empty |
| ReferralCode.StripAppend | server/server.js:33 | removing whitespace distributes over concatenation |
| ReferralCode.StripDropsWhitespace | server/server.js:33 | a single whitespace character is deleted; with StripAppend and StripIdentity this fixes the result on every string |
| ReferralCode.StripIdentity | server/server.js:33 | a string without whitespace is left unchanged |
| ReferralCode.NameCodeIdempotent | server/server.js:33 | normalising an already normalised name changes nothing |
| ReferralCode.CodeCollision | server/server.js:33-34 | two names get the same code exactly when their normalised forms are equal |
| ReferralCode.NameCodeOfTwoWords | server/server.js:33 | a first and last name separated by a space normalise to both words lower-cased and joined |
| ReferralCode.CodeOfTwoWords | server/server.js:33-34 | "First Last" gets the code `first` + `last` + `2025` |
| ReferralCode.CodeLeadingLetters | server/server.js:33-34 | a name whose first two characters are not whitespace gets a code starting with those two characters lower-cased |
| ReferralCode.CollidingNames | server/server.js:33-34 | the different names "John Doe" and "johndoe" both get the code `johndoe2025` |
| Users.AssignReferralCode | server/server.js:31-36 | the hook sets `CodeFor(name)` only when no code is present, never overwrites a present code, changes no other field, and always leaves a non-empty code |
| Users.FindByEmail | server/server.js:67 | `findOne({ email })` returns a stored record with that e-mail, and finds nothing exactly when no record has it |
| Users.FindById | server/server.js:156 | `findById` returns a stored record with that id, and finds nothing exactly when no record has it |
| Users.FindByEmailUnique | server/server.js:23 | with unique e-mails, the lookup returns the very record holding the e-mail |
| Users.FindByIdUnique | server/server.js:203 | with unique ids, the lookup returns the very record holding the id, at its position |
| Users.AppendKeepsUnique | server/server.js:23-25 | inserting a record that shares no key with a stored one keeps ids, e-mails and codes unique |
| Users.ReplaceKeepsUnique | server/server.js:23-25 | replacing a record by one with the same id that clashes with no other record keeps every key unique |
| Users.Write | server/server.js:84 | a new id is appended and a stored id is replaced in place; without a clash the keys stay unique and the written record is found by its e-mail |
| Users.Save | server/server.js:21-28 | `save()` succeeds exactly when the required fields are present and the coded document clashes with no stored record on e-mail or code; a missing field is a validation error and any other refusal a duplicate key; a success writes the coded document and keeps the keys unique |
| Users.SaveRefusesTakenCode | server/server.js:25 | a code-less document whose name derives a code another stored record holds is refused with a duplicate key |
| Users.JohndoeRefusedAfterJohnDoe | server/server.js:84 | once "John Doe" is stored with his derived code, saving a new "johndoe" is refused with a duplicate key, although name and e-mail differ |
| Users.ResaveReplaces | server/server.js:208-209 | saving a stored record again with its keys unchanged succeeds and replaces it in place |
| Users.InsertMany | server/server.js:265 | `insertMany()` writes nothing if any document fails validation; otherwise it stores a prefix of the documents in order, fails exactly when it stops early, stops only at a document that shares a key with a record already stored, and keeps the keys unique; a validation error is reported only when some document lacks a required field |
| Users.InsertManyDistinct | server/server.js:265 | valid documents sharing no key with each other or with the stored records are all inserted, without failure |
| Auth.Split | server/server.js:44 | `split(' ')` yields at least one field, no field holds a space, joining the fields with spaces gives back the header, and a header without a space is one field |
| Auth.SplitJoin | server/server.js:44 | splitting space-free fields joined by spaces gives back those fields |
| Auth.ExtractToken | server/server.js:43-47 | no header, or a header without a space, yields no token; a token is found exactly when the header's second `split(' ')` field exists and is non-empty, and it is that field |
| Auth.EmptySecondFieldIsNoToken | server/server.js:44-47 | a header whose second field is empty, such as `Bearer `, yields no token, so the gate answers 401 |
| Auth.BearerToken | server/server.js:43-44 | a header `Bearer <token>`, optionally followed by further fields, yields exactly that token |
| Auth.Authenticate | server/server.js:42-57 | the gate answers 401 exactly when there is no token, 403 exactly when the token fails verification, and passes on only the claims the verification returned |
| Ranking.Rank | server/server.js:183-188 | the board has one entry per selected user, and entry i has rank i + 1 and that user's name, code and total |
| Ranking.SortByDonations | server/server.js:180 | sorting keeps every record (same multiset) |
| Ranking.SortIsOrdered | server/server.js:180 | the sorted records are non-increasing in `donationsRaised` |
| Ranking.TopByDonations | server/server.js:178-181 | the selection has min(10, store size) records |
| Ranking.TopIsTopSelection | server/server.js:178-181 | sort-then-limit is a top-N selection: it is drawn from the store, non-increasing, and no left-out record has more than a listed one |
| Ranking.LeaderboardProperties | server/server.js:178-188 | for any top-10 selection, with ties in any order: at most 10 rows and at most the store size, fewer than 10 only when everyone is listed, ranks 1, 2, …, non-increasing totals, only stored users, and every left-out user at most the last listed total |
| Api.Deny | server/server.js:46-53 | a stopped request is answered with the denial's status and error message |
| Api.GateDenials | server/server.js:46-53 | a missing token gives 401 "Access token required" and a rejected one 403 "Invalid token", two different answers |
| Api.SessionFor | server/server.js:93-103 | the signup and login answer carries the given status and message, a token naming the user's id and e-mail, and the password-free user object |
| Api.PublicView | server/server.js:96-102 | the `user` object carries id, name, e-mail, code and total of the record, and no password |
| Api.DashboardOf | server/server.js:161-167 | the dashboard carries name, e-mail, code, total and joining date of the record, and no password |
| Api.DemoDocs | server/server.js:232-263 | the five demo documents get consecutive fresh ids and no referral code |
| Api.CodedDemoDocs | server/server.js:31-36 | each demo document with the pre-save rule applied |
| Api.SeedAsWritten | server/server.js:223-272 | the seed handler as written: a non-empty store is left alone with "Demo data already exists", otherwise the answer is success or 500 |
| Api.SeedAsWrittenFailsOnEmptyStore | server/server.js:265 | on an empty store the handler as written answers 500 after storing one demo user without a code |
| Api.DemoCodesDistinct | server/server.js:234-258 | the five demo names get five different referral codes |
| Api.DemoEmailsDistinct | server/server.js:235-259 | the five demo e-mail addresses are different |
| Api.CorrectedSeedSucceeds | server/server.js:265 | with codes assigned, inserting the five demo documents into an empty store stores all five without failure |
| Api.Credit | server/server.js:208 | adding an amount changes the total of that one record by that amount, and no other field and no other record |
| Api.UserStore.constructor | server/server.js:39 | an empty collection satisfies the invariant |
| Api.UserStore.Signup | server/server.js:62-109 | a known e-mail gives 400 "User already exists" and no change; a missing field or a derived code already taken gives 500 and no change; otherwise exactly one record is appended, with a fresh id and `CodeFor(name)`, login can find it by e-mail, the answer is 201 with that user, and the invariant holds |
| Api.UserStore.Login | server/server.js:112-151 | an unknown e-mail and a wrong password both give the same 400 "Invalid credentials"; status 200 comes exactly when the e-mail is known and the password matches, with the stored user |
| Api.UserStore.Dashboard | server/server.js:154-173 | an auth denial is passed through; a token naming no stored user gives 404; otherwise 200 with the password-free profile of that stored user |
| Api.UserStore.Leaderboard | server/server.js:176-196 | an auth denial is passed through; otherwise 200 with the ranked rows of some top-10 selection of the store |
| Api.UserStore.UpdateDonations | server/server.js:199-220 | an auth denial or an unknown id changes nothing (404 for the id); otherwise exactly that user's total grows by the amount, the answer reports the new total, and the invariant holds |
| Api.UserStore.Seed | server/server.js:223-272 | a non-empty store gives "Demo data already exists" and no change; an empty store receives all five coded demo users, answers "Demo data created successfully", and keeps the invariant |
| App.GetRewardStatus | client/src/App.js:212-217 | the reward is the highest tier whose threshold (1000, 2500, 5000, inclusive) the amount reaches; `unlocked` holds exactly when the amount is at least 1000 |
| App.StatusText | client/src/App.js:213-216 | a status without a reward reads "Keep going to unlock rewards!"; a reached tier is announced with the icon and title of its reward card |
| App.StatusTextDistinct | client/src/App.js:213-216 | different tiers are announced with different texts |
| App.RewardMonotone | client/src/App.js:212-217 | a larger amount never gives a lower tier |
| App.ThresholdsInclusive | client/src/App.js:212-217 | 1000, 2500 and 5000 unlock their tiers, and 999, 2499 and 4999 stay one tier below |
| App.GetNextReward | client/src/App.js:219-224 | "All rewards unlocked" comes exactly when the amount is at least 5000; otherwise the named tier is the lowest threshold above the amount, and the gap is that threshold minus the amount, always positive |
| App.NextRewardText | client/src/App.js:220-223 | the hint reads "All rewards unlocked! 🎉" when nothing is left, and otherwise is `₹`, the gap's numeral and " more for " with the next tier's name, with nothing in between |
| App.NextRewardTextShowsGap | client/src/App.js:220-222 | the hint starts with `₹` and the gap's numeral, which reads back as the gap, and is exactly as long as `₹`, the numeral and the " more for " tail together |
| App.NextRewardFollowsStatus | client/src/App.js:215-220 | the hint names the Swag Kit exactly when no reward is unlocked, and otherwise names the tier right above the current one |
| App.CardUnlocked | client/src/App.js:353-410 | each reward card shows unlocked exactly when its tier is at or below the tier `getRewardStatus` reports, and only while the status is unlocked |
| App.FindIndex | client/src/App.js:244 | `findIndex` returns the first entry with the code, or -1 exactly when none has it |
| App.UserRank | client/src/App.js:244 | the rank is the 1-based position of the first entry with the caller's code, and 0 exactly when none has it |
| App.RankLabel | client/src/App.js:301 | rank 0 shows `#N/A`; any other rank shows `#` and a numeral without a leading zero that reads back as the rank |
| App.UserRankIsServerRank | client/src/App.js:244 | on a board ranked by the server, a non-zero client rank equals the `rank` field of the matched entry, and that entry's user holds the code |
| Text.ParseDecimalOfDecimal | client/src/App.js:220 | the numeral printed for a whole number reads back as that number |

## Left out

- HTTP plumbing is not modelled: Express routing, CORS, JSON parsing, `app.listen` and console logging.
- The MongoDB connection is not modelled. The collection is an in-memory sequence, and a lookup returns the first match in insertion order.
- The `catch` branches that answer 500 for database or network failures are not modelled. The only failures modelled are validation and duplicate-key refusals, and they do give 500.
- Api.UserStore.Login: a login body without `password` makes `bcrypt.compare` throw, and the handler answers 500. The model's comparison is a total function, so Login answers only 400 or 200.
- A malformed ObjectId in a token, which makes `findById` throw, is not modelled. Ids are natural numbers.
- bcrypt hashing, salts and the work factor are left out. The hash and the comparison are inputs.
- JWT signing, signature checking and the 24-hour expiry are left out. Verification is an input function, and the issued token is its claims.
- The `createdAt` and `updatedAt` timestamps are left out. Joining date and time are an integer parameter.
- `Math.random` is left out. The initial amount is an input below 5000.
- Concurrency is not modelled, in particular the `findOne` then `save` race in signup and the read-then-write increment. The model is sequential.
- Lower-casing and whitespace cover ASCII only. Unicode case folding and the full `\s` class are excluded.
- The donation amount and total are modelled as unbounded integers. JavaScript Numbers are doubles. So the model does not capture string concatenation, non-integer amounts, or the rounding of `+=` above 2^53. It also does not capture exponent notation such as `1e+21`, which template literals print for totals of 10^21 and up.
- On the client, React state, `fetch`, `localStorage`, JSX, the floating-point progress bar and `toLocaleString` formatting are left out.
- Api.UserStore.Leaderboard: the rows come from one deterministic sort. The contract states only the any-tie-order property the database promises.
- Api.UserStore.Seed: models the seed with the pre-save rule applied to the demo documents, as the Findings row below explains.

## Findings

| source | as written | input that shows it | evidently intended | confidence | as-written member | corrected member |
|---|---|---|---|---|---|---|
| server/server.js:265 | `User.insertMany(demoUsers)` does not run the `pre('save')` hook, so no demo user gets a referral code. The unique index on `referralCode` treats the second missing code as a duplicate of the first. The ordered insert stops after one document and the handler answers 500. | `POST /api/seed` on an empty collection | all five demo users stored, each with its name-derived code, and the answer "Demo data created successfully" | medium, not executed | Api.SeedAsWrittenFailsOnEmptyStore | Api.UserStore.Seed |
