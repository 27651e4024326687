# wish-list-2-back: the handlers and the wishlist service, in Dafny

This project models the request-handling core of the wish-list back end, a Go service built on Fiber and GORM:

- **Cards** (`handler/card.go`): a package-level slice of cards held in memory. Cards are looked up by id with a forward scan, where the last match wins. Create and update append; update and delete remove by swap-with-last.
- **Presents** (`handler/present.go`): creating a present under an existing wishlist, listing a wishlist's presents together with its colour scheme, deletion, a partial field-wise update, and reserve/release of a present.
- **Users** (`handler/user.go`):
  - registration with a unique username;
  - Telegram login, with `verifyTelegramAuth`. It builds the data-check-string from four fields in sorted key order, takes the HMAC-SHA-256 keyed with the SHA-256 digest of the bot token, compares it as lowercase hex, parses `auth_date` with `strconv.ParseInt(s, 10, 64)` and checks that the login is at most 24 hours old.
- **The wishlist service** (`services/wishlist.go`): lookup by id, filtering by owner, and the read-modify-write of the present count. The count is a Go `uint` and wraps around.

Each database table becomes a class whose field is a map from UUID to row; a handler is a method on that class. Where a property relates several calls, the handler is mirrored by a pure transition function, `(outcome, new table)`, and the lemmas are stated over those functions.

The environment becomes explicit inputs:
- the current time (`now`);
- a fresh UUID (`newId`);
- the result of a cover upload (`Option<string>`);
- the validator's verdict;
- the bot token;
- the bcrypt hash;
- the order in which Go's map yields its keys;
- the hash functions, as function values.

Go semantics are written out:
- 64-bit `uint` wrap-around;
- the syntax and range errors of `strconv.ParseInt`;
- the saturating `time.Sub`;
- the byte-wise order used by `sort.Strings`;
- lowercase `hex.EncodeToString`.

On every save, GORM's `autoUpdateTime` convention sets `UpdatedAt` to `now`.

## Model

| member | source | states |
|---|---|---|
| Cards.LastIndex | handler/card.go:11-19 | -1 exactly when no card has the id; otherwise a position holding the id with no later card holding it |
| Cards.CardStore.FindId | handler/card.go:11-19 | the forward scan returns the last index with the id, or -1 when there is none (loop invariant ties it to `LastIndex` of the scanned prefix) |
| Cards.SwapRemove | handler/card.go:21-25 | one element shorter; slot `i` holds the former last card, every other slot is unchanged |
| Cards.SwapRemoveMultiset | handler/card.go:21-25 | swap-with-last removes exactly the one card at `i` from the multiset of cards |
| Cards.SwapRemoveCount | handler/card.go:83-91 | removing a card with the id lowers the number of cards with that id by exactly one |
| Cards.CountIdAppend | handler/card.go:83-91 | the count of an id is additive over concatenation |
| Cards.CardStore.DeleteFromCards | handler/card.go:21-25 | the slice becomes `SwapRemove` of the old slice at the index |
| Cards.CardStore.GetAllCards | handler/card.go:27-29 | answers with the whole slice |
| Cards.CardStore.GetCard | handler/card.go:31-41 | as written: an unknown id ends in the index-out-of-range panic; a found card is the last with the id; a found card with empty content is answered with the error, and the store's invariant rules that case out |
| Cards.CardStore.GetCardIntended | handler/card.go:31-41 | an unknown id is reported as not found, never as a panic; under the invariant success holds exactly when the id is present |
| Cards.CardStore.CreateCard | handler/card.go:43-56 | a body that fails to parse, or has an empty id or content, is refused and leaves the slice alone; otherwise the card (creation time from the body, else `now`) is appended; duplicate ids are accepted; invariant kept |
| Cards.CardStore.UpdateCard | handler/card.go:58-81 | checks the id, then the body, then the content, in that order; on success the last card with the id is swap-removed and the new card (path id, `now`) appended: same length, multiset loses the old card and gains the new |
| Cards.CardStore.DeleteCard | handler/card.go:83-91 | unknown id refused with the slice unchanged; otherwise the last card with the id is swap-removed, the length drops by one, its count drops by one, and the remaining slice is the answer |
| Wishlists.IncUint | services/wishlist.go:43 | `+= 1` on a 64-bit `uint`: one more, except that the maximum wraps to zero |
| Wishlists.DecUint | services/wishlist.go:53 | `-= 1` on a 64-bit `uint`: one less, except that zero wraps to the maximum |
| Wishlists.IncDecInverse | services/wishlist.go:38-56 | increment and decrement undo each other on every value, wrap-around included |
| Wishlists.IncreaseThenDecrease | services/wishlist.go:38-56 | an increase followed by a decrease restores the count; only the save time differs |
| Wishlists.WishlistStore.GetOne | services/wishlist.go:26-30 | no error exactly when the id is stored, and then the stored row; otherwise record-not-found and the query struct |
| Wishlists.WishlistStore.GetAll | services/wishlist.go:32-36 | exactly the stored wishlists owned by the user; a nil owner matches nothing |
| Wishlists.WishlistStore.GetAllFoundByGetOne | services/wishlist.go:26-36 | every wishlist `GetAll` reports is found again by `GetOne` under its own id and has the requested owner |
| Wishlists.WishlistStore.IncreasePresentsCount | services/wishlist.go:38-46 | unknown id: error and an all-zero wishlist, table unchanged; otherwise only that row changes, with count `IncUint` and save time `now` |
| Wishlists.WishlistStore.DecreasePresentsCount | services/wishlist.go:48-56 | as above with `DecUint`; a zero count becomes the largest `uint` |
| Presents.ReserveTransition | handler/present.go:168-193 | missing: not found; already reserved: refused; otherwise only that row changes, flag set and saved at `now` |
| Presents.ReleaseTransition | handler/present.go:195-216 | missing: not found; otherwise only that row changes, flag cleared whatever it was, saved at `now` |
| Presents.ReserveTwiceRefused | handler/present.go:181-183 | a second reservation of the same present is refused and changes nothing |
| Presents.ReleaseIdempotent | handler/present.go:208-213 | releasing twice at one instant leaves what releasing once leaves |
| Presents.ReserveThenRelease | handler/present.go:168-216 | reserve then release of a free present restores the table except for the save time |
| Presents.TransitionsKeepKeys | handler/present.go:185-188 | both transitions keep every row under its own primary key |
| Presents.Merge | handler/present.go:140-158 | title, description and link are replaced only by non-empty values, the cover only by an uploaded URL; flag, ids and creation time are kept; save time `now` |
| Presents.MergeIdempotent | handler/present.go:140-158 | applying the same update twice equals applying it once |
| Presents.MergeEmptyBody | handler/present.go:140-158 | an update with no field and no file only refreshes the save time |
| Presents.PresentStore.Create | handler/present.go:35-80 | errors in the order body, UUID, validator, wishlist existence, upload, insert collision, each pinned to its kind; on success exactly one unreserved present with the fresh id, the body's fields, the uploaded cover and the wishlist id is inserted; any failure leaves the table alone |
| Presents.PresentStore.GetAll | handler/present.go:82-103 | bad UUID or missing wishlist is an error; otherwise exactly the presents of that wishlist and the wishlist's colour scheme |
| Presents.PresentStore.Delete | handler/present.go:105-119 | bad UUID is an error; the all-zero UUID is refused by the database (no primary-key condition) and changes nothing; otherwise the row is removed if present and the answer is `true` either way |
| Presents.PresentStore.Update | handler/present.go:121-166 | errors in the order UUID, lookup, body, upload (a failed upload is an error only when a file is attached), each pinned to its kind; on success only that row changes, to `Merge` of the old row; failure changes nothing |
| Presents.PresentStore.Reserve | handler/present.go:168-193 | bad UUID is an error; otherwise outcome and new table are `ReserveTransition`'s |
| Presents.PresentStore.Release | handler/present.go:195-216 | bad UUID is an error; otherwise outcome and new table are `ReleaseTransition`'s |
| TelegramAuth.LessIrreflexive | handler/user.go:221 | Go's string order is irreflexive |
| TelegramAuth.LessTransitive | handler/user.go:221 | Go's string order is transitive |
| TelegramAuth.LessTotal | handler/user.go:221 | any two distinct strings are ordered one way or the other |
| TelegramAuth.Insert | handler/user.go:221 | insertion keeps the multiset of strings, plus the new one |
| TelegramAuth.InsertSorted | handler/user.go:221 | inserting into a sorted sequence keeps it sorted |
| TelegramAuth.SortStrings | handler/user.go:221 | `sort.Strings` returns a permutation of its input |
| TelegramAuth.SortStringsSorted | handler/user.go:221 | the result of `SortStrings` is sorted |
| TelegramAuth.SortedUnique | handler/user.go:217-221 | two sorted permutations of the same strings are equal, so the sorted keys do not depend on map order |
| TelegramAuth.SortOfAnyOrder | handler/user.go:217-221 | whatever order the map yields its four keys in, sorting gives `auth_date, first_name, id, username` |
| TelegramAuth.SortedKeysSorted | handler/user.go:210-221 | that key list is sorted and holds exactly the map's keys |
| TelegramAuth.Field | handler/user.go:210-215 | indexing the `dataMap` literal: the field stored under the key, the empty string for any other key; the keys are exactly the four listed |
| TelegramAuth.Join | handler/user.go:227 | `strings.Join`: the length is the parts' total plus one separator for each pair of neighbours |
| TelegramAuth.JoinSnoc | handler/user.go:227 | appending a part to a non-empty list appends exactly one separator and then that part, so separators stand only between neighbours |
| TelegramAuth.Lines | handler/user.go:223-226 | one `key=value` line per key, in the keys' order |
| TelegramAuth.LinesOfSortedKeys | handler/user.go:223-226 | the four lines for the sorted keys, written out |
| TelegramAuth.JoinSortedLines | handler/user.go:227 | the lines joined by single newlines, with no trailing newline |
| TelegramAuth.CheckString | handler/user.go:209-227 | for any map order the data-check-string is `auth_date=…\nfirst_name=…\nid=…\nusername=…`; the hash is not part of it |
| TelegramAuth.HexEncode | handler/user.go:235 | two characters per byte, all lowercase hex digits |
| TelegramAuth.HexRoundTrip | handler/user.go:235 | decoding the encoding gives the bytes back, so the encoding is injective |
| TelegramAuth.ExpectedHash | handler/user.go:229-235 | lowercase hex that decodes to the HMAC of the check-string keyed with the SHA-256 of the bot token |
| TelegramAuth.ScanDigits | handler/user.go:243 | the digit loop of `ParseUint`: a value is never below the accumulator nor above 2^64-1, and is produced only when the rest of the input is all digits |
| TelegramAuth.ParseUint | handler/user.go:243 | an unsigned value is produced only from a non-empty run of digits and lies within 0 and 2^64-1 |
| TelegramAuth.ParseInt | handler/user.go:243-246 | the empty string is a syntax error; a value lies in the int64 range and is negative only after a leading minus |
| TelegramAuth.ScanDigitsValue | handler/user.go:243 | the digit loop succeeds exactly on all-digit input whose value stays within 2^64-1, and yields that value |
| TelegramAuth.ParseUintValue | handler/user.go:243 | unsigned parsing succeeds exactly on non-empty digit strings at most 2^64-1, yielding their value |
| TelegramAuth.ParseIntValue | handler/user.go:243-246 | `ParseInt(s, 10, 64)` succeeds exactly on optionally signed decimal literals whose value lies in the int64 range, and yields that value |
| TelegramAuth.ParseFormatRoundTrip | handler/user.go:243 | every int64 formatted in decimal parses back to itself |
| TelegramAuth.Since | handler/user.go:247-248 | `time.Since` saturates to the int64 range, and saturation never changes the comparison with one day |
| TelegramAuth.VerifyTelegramAuth | handler/user.go:208-253 | `valid` exactly when there is no error; a hash mismatch is always the invalid-hash error |
| TelegramAuth.UnixInstant | handler/user.go:247 | `time.Unix(ts, 0)`: the timestamp in seconds, except that a timestamp within 62135596800 of the int64 maximum wraps to an instant before year 1 |
| TelegramAuth.FarFutureAuthDateTooOld | handler/user.go:243-250 | an `auth_date` that wraps is refused as too old even with a matching hash, at any current time from year 1 on |
| TelegramAuth.VerdictCharacterised | handler/user.go:208-253 | accepted exactly when the hash equals the expected hash of the canonical check-string, `auth_date` is a decimal int64 and the login, at the instant `UnixInstant` gives, is at most one day old; otherwise the first failing check names the error |
| TelegramAuth.UpperCaseHashRefused | handler/user.go:235-240 | a hash containing an upper-case hex letter is always refused: the comparison is case-sensitive |
| TelegramAuth.VerdictIndependentOfOrder | handler/user.go:217-227 | the verdict does not depend on the order of map iteration |
| Users.TakenUnique | handler/user.go:64-65 | in a table with unique usernames, a name the lookup finds belongs to exactly one stored user (also the lookup at handler/user.go:164-167) |
| Users.InsertKeepsConsistent | handler/user.go:63-76 | adding a user with a fresh id and an unused name keeps keys matching ids and usernames unique |
| Users.RegisterTransition | handler/user.go:49-100 | errors in the order body, validation, taken name, insert collision, each pinned to its kind; success exactly when the name is free, and then exactly one user (fresh id, the hash) is added and the token names it |
| Users.RegisterKeepsConsistent | handler/user.go:63-79 | registration keeps usernames unique |
| Users.RegisterTwiceRefused | handler/user.go:63-67 | a second registration under a name just registered is refused with the table unchanged |
| Users.AuthenticateTransition | handler/user.go:137-191 | as written: no body gives invalid-input, a missing bot token gives bot-token-missing, a verifier error `e` gives unauthorized with `e`; success exactly when there is a body and a bot token and the verifier accepts; the "authentication failed" branch is unreachable; the user is created only if the name is free; the token always carries the fresh id |
| Users.AuthenticateKeepsConsistent | handler/user.go:164-169 | the Telegram login keeps usernames unique |
| Users.ReturningUserTokenNamesNoUser | handler/user.go:158-171 | for a returning user the table is unchanged and the token's id names no stored user |
| Users.AuthenticateIntendedTransition | handler/user.go:158-171 | as intended: after success the token's id names a stored user with the token's username, and a returning user leaves the table unchanged |
| Users.UserStore.Register | handler/user.go:49-100 | outcome and new table are `RegisterTransition`'s; uniqueness of usernames is kept |
| Users.UserStore.Authenticate | handler/user.go:137-191 | outcome and new table are `AuthenticateTransition`'s; uniqueness of usernames is kept |
| Users.UserStore.AuthenticateIntended | handler/user.go:137-191 | outcome and new table are `AuthenticateIntendedTransition`'s; uniqueness of usernames is kept |

## Left out

- Object storage (`pkg/minio`): the upload is an input, `Some(url)` or `None`. Nothing is stored or deleted in the bucket.
- Validation: `validator.Struct` on `model.CreatePresent` is a boolean input to `Create`. `model.CreatePresent` is not part of this model. The present body is its title, description, link and whether a file is attached.
- JWT signing, the cookie and the 30-day expiry are left out. A token is the claims it would carry.
- bcrypt hashing is an input.
- SHA-256 and HMAC-SHA-256 are parameters, not computed.
- `Login`, `Me`, `Logout` and `setToken` are outside the modelled core. The same goes for `handler/wishlist.go`, `services/present.go` and the router.
- Database failures other than "record not found" and a primary-key collision on insert are not modelled: connection errors, and a failing `Save` or `Delete`.
- `Presents.PresentStore.Create`: the wishlist's `PresentsCount` is not incremented, matching the handler, which never calls `IncreasePresentsCount`.
- `Presents.PresentStore.GetAll`: `handler/present.go:102` reads `wishlist.ColorScheme`, but `model.Wishlist` keeps the colour scheme inside its `Settings` field. The model reads `settings.colorScheme`.
- `Presents.PresentStore.GetAll`: the presents are a set. The order of the SQL result is not modelled.
- `Wishlists.WishlistStore.GetAll`: the wishlists are a set. The order of the SQL result is not modelled.
- GORM leaves a zero primary key out of the query. `Presents.PresentStore.Delete` models the consequence: the all-zero UUID is refused with the 500 answer of `handler/present.go:114-116`. `First` on a zero UUID, in `GetOne` and in the present lookups, has no condition left but orders by primary key, so it returns the row with the smallest id; the model treats the zero UUID there as an ordinary key.
- Concurrency is not modelled. Every handler is modelled as running alone. The card slice is shared without a lock. Fiber also runs in prefork mode (main.go:26-28), so each worker process holds its own package-level `cards` slice (handler/card.go:9), and two requests can see different slices. The model is the slice of one process.
- `time.Now`, `uuid.New`, `os.Getenv("BOT_TOKEN")` and the order of Go map iteration are explicit parameters.
- Timestamps are nanoseconds as unbounded integers. The int64 wrap of `time.Unix` is modelled (`TelegramAuth.UnixInstant`); `time.Since` is modelled as saturating at the int64 range of `time.Duration`, without reproducing the internal seconds-and-nanoseconds layout of `time.Time`.
- `Cards.CardStore.UpdateCard` and `Cards.CardStore.DeleteCard`: zeroing the vacated last slot of the backing array is not visible to the handlers and is not modelled. Slices are sequences, so aliasing of the backing array is not modelled either.

## Findings

| source | as written | input that shows it | evidently intended | confidence | as-written member | corrected member |
|---|---|---|---|---|---|---|
| handler/card.go:33-34 | `findId` returns -1 for an unknown id and the handler then indexes `cards[-1]`, a run-time panic that the recover middleware turns into a 500 | `GET` a card id that is not in the slice, including any id when the slice is empty | answer with the "no card with this id" error, as the empty-content branch does | not executed | Cards.CardStore.GetCard | Cards.CardStore.GetCardIntended |
| handler/user.go:158-171 | the token is signed for `newUser`, whose id is a fresh UUID, even when a user with that username already exists and nothing is inserted | a second Telegram login by the same user: the token's id names no row of `users` | issue the token for the stored user with that username | not executed | Users.ReturningUserTokenNamesNoUser | Users.AuthenticateIntendedTransition |
