# MyContacts backend: identity, ownership and the contact lifecycle

A Dafny model of the domain logic of the MyContacts backend, a personal
contact directory:

- **Bearer guard** (`backend/middleware/validateTokenHandler.js`): picks the
  `authorization` header (falling back to `Authorization`), expects the
  bearer credential format of section 2.1 of RFC 6750, but applies its own
  stricter reading of it: the case-sensitive prefix `Bearer ` (the RFC's
  grammar allows one or more spaces, and HTTP auth schemes are
  case-insensitive) and the second piece of `split(" ")` as the token. It
  verifies the token (signature, then the `exp` claim of
  section 4.1.4 of RFC 7519) and either lets the request proceed with the
  token's `user` claim or rejects it with one of two uniform 401 answers.
- **Account handlers** (`backend/controllers/userController.js`): register,
  login, current user, email change and password change over an account
  collection (`Accounts.AccountStore`) whose invariant is that no two
  accounts share an email. Each handler is a cascade of checks in a fixed
  order; every failure leaves the collection unchanged.
- **Contact handlers** (`backend/controllers/contactController.js`): a store
  of contact documents keyed by id (`ContactRepository.ContactStore`), with
  create, update, favourite toggle, soft delete to the trash, restore and
  permanent delete. Every handler that changes a contact (update, toggle,
  soft delete, restore, permanent delete) answers 404 for an unknown id
  before 403 for another owner's contact, and only then checks state;
  `getContact` checks only that the id exists. The two read queries (live
  list with search and sort, trash list) are functions over the store.
- **Contact schema** (`backend/models/contactModels.js`): the `Contact`
  datatype, its required fields and its defaults (`ContactModel.NewContact`).

Modules: `Wrappers` (Option, and `Result` = `Ok(value)` or `Err(status,
message)`), `Text` (JavaScript `startsWith` and `split`, case-insensitive
substring search, binary string order), `Tokens`, `BearerGuard`,
`ContactModel`, `ContactQueries` (the filter and the sort the store applies),
`ContactRepository`, `Accounts`.

Collaborators that the model takes as parameters rather than modelling:
the clock (`now`, whole seconds), the password hashing scheme
(`Accounts.PasswordScheme`, a `hash` and a `compare` function fixed in the
account store, with `Accounts.Correct` stating that a password matches its
own hash), and the token signer (`Tokens.TokenCodec`, an `encode` and a
`decode`; `Tokens.Sound` states that decoding undoes encoding and that an
encoded token is a non-empty text without spaces). Ids are natural numbers
handed out by a counter in each store; the authenticated caller of a
contact or account handler is the id the guard put in the request.

The model follows the code where it is permissive: permanent delete does
not require the contact to be in the trash, update works on trashed contacts
too and runs no validators, `getContact` performs no ownership check (see
Findings), and a taken email is answered with 400, not a separate conflict
status.

## Model

| member | source | states |
|---|---|---|
| `Text.Split` | backend/middleware/validateTokenHandler.js:8 | `split(" ")` yields at least one piece, no piece holds the separator, and joining the pieces gives the text back |
| `Text.SplitJoin` | backend/middleware/validateTokenHandler.js:8 | splitting undoes joining separator-free pieces (the other half of the round trip) |
| `Text.SplitAfter` | backend/middleware/validateTokenHandler.js:8 | the pieces of `p + " " + q` are `p` followed by the pieces of `q` when `p` has no space |
| `Text.Contains` | backend/controllers/contactController.js:19-21 | the recursive substring search is true exactly when the term occurs at some position |
| `Text.LexLeTransitive` | backend/controllers/contactController.js:27-30 | the binary string order used to sort by name is transitive |
| `Text.LexLeTotal` | backend/controllers/contactController.js:27-30 | any two names are comparable |
| `Tokens.Verify` | backend/middleware/validateTokenHandler.js:15 | a token text verifies exactly when it decodes and the current time is before its expiry; a decodable token past its expiry is `Expired` |
| `Tokens.Issue` | backend/controllers/userController.js:57-67 | a signed token carries exactly the given claims and expires one hour (3600 s) after issue |
| `Tokens.IssuedTokenLifetime` | backend/controllers/userController.js:57-67 | a token issued at `iat` verifies with its claims exactly while `now < iat + 3600` and is expired afterwards |
| `BearerGuard.SelectHeader` | backend/middleware/validateTokenHandler.js:6 | the `authorization` header is used unless absent or empty, then `Authorization`; none when both are missing |
| `BearerGuard.ExtractToken` | backend/middleware/validateTokenHandler.js:7-9 | a token is found exactly when the header starts with the exact `Bearer ` and the text after it is non-empty and does not start with a space; it is then the text after the prefix up to the next space or the end |
| `BearerGuard.PrefixOfFirstPiece` | backend/middleware/validateTokenHandler.js:8 | the first piece of a split is a prefix of the text ended by a separator or by the end |
| `BearerGuard.ExtractBuiltHeader` | backend/middleware/validateTokenHandler.js:7-9 | the header `Bearer <token>` yields exactly that token |
| `BearerGuard.LowerCaseSchemeRefused` | backend/middleware/validateTokenHandler.js:7 | the prefix test is case-sensitive: `bearer <token>` carries no token |
| `BearerGuard.Authenticate` | backend/middleware/validateTokenHandler.js:4-23 | every rejection is 401; "Not authorized, no token" exactly when no token is extracted; "User is not authorized" exactly when the token fails verification (forged and expired alike); a token that verifies lets the request proceed with its `user` claim, and that is the only way to proceed |
| `BearerGuard.IssuedTokenAuthenticates` | backend/middleware/validateTokenHandler.js:14-22 | a request carrying a freshly issued token proceeds with the issued identity for one hour and is refused with the uniform 401 afterwards |
| `ContactModel.HasRequiredFields` | backend/models/contactModels.js:9-20 | a record passes the schema's `required` flags exactly when none of name, email and phone is blank; the failed-save branches of toggle, soft delete and restore test it |
| `ContactModel.NewContact` | backend/models/contactModels.js:3-35 | a new document has the given owner and fields, `isFavorite` and `isDeleted` false, `deletedAt` null, both timestamps at creation time; it satisfies the trash invariant and has its required fields exactly when name, email and phone are non-empty |
| `ContactQueries.OrderOf` | backend/controllers/contactController.js:25-33 | `name` selects name ascending, `name-desc` name descending, `date-asc` creation ascending, and every other value, absent included, creation descending |
| `ContactQueries.MatchesSearch` | backend/controllers/contactController.js:18-22 | a term matches when name, email or phone contains it ignoring case; the empty term matches every contact |
| `ContactQueries.Matches` | backend/controllers/contactController.js:14-23 | the live filter keeps exactly the owner's non-trashed contacts matching the term (adding the `$or` only for a non-empty term changes nothing); the trash filter keeps exactly the owner's trashed contacts |
| `ContactQueries.SortBy` | backend/controllers/contactController.js:35 | the result is a permutation of the matches (same multiset) and sorted by the selected order |
| `ContactQueries.InsertSorted` | backend/controllers/contactController.js:35 | inserting into a sorted sequence keeps it sorted |
| `ContactQueries.Scan` | backend/controllers/contactController.js:14 | the matches of a filter among the stored documents: exactly those passing it, in increasing id order, none twice |
| `ContactQueries.SearchExample` | backend/controllers/contactController.js:19-21 | searching "ann" matches the name "Ann" and the email "ann@x.com" but not "Bob" |
| `ContactRepository.Authorize` | backend/controllers/contactController.js:86-95 | 404 for an unknown id before 403 for another owner's contact; the record only for its owner |
| `ContactRepository.Patched` | backend/controllers/contactController.js:97 | an update writes the fields the body carries, empty strings included, and changes nothing else but `updatedAt` |
| `ContactRepository.Toggled` | backend/controllers/contactController.js:116-117 | the favourite flag is negated and only `updatedAt` also changes |
| `ContactRepository.Trashed` | backend/controllers/contactController.js:137-139 | `isDeleted` becomes true and `deletedAt` the current time, whatever the previous state |
| `ContactRepository.Restored` | backend/controllers/contactController.js:164-166 | `isDeleted` becomes false and `deletedAt` null |
| `ContactRepository.ToggleTwice` | backend/controllers/contactController.js:116 | toggling twice restores the original flag and record, up to `updatedAt` |
| `ContactRepository.RestoreUndoesTrash` | backend/controllers/contactController.js:159-166 | restoring a contact trashed from the live state gives it back unchanged, up to `updatedAt` |
| `ContactRepository.PermutationKeepsDistinct` | backend/controllers/contactController.js:35 | sorting the matches of a keyed store keeps every record at most once |
| `ContactRepository.ContactStore.Query` | backend/controllers/contactController.js:35 | `find(query).sort(order)`: exactly the stored documents passing the filter, each once, sorted by the order |
| `ContactRepository.ContactStore.GetContacts` | backend/controllers/contactController.js:9-37 | the live list holds exactly the caller's non-trashed contacts that match a non-empty search term in name, email or phone (no text filter for an empty term), each once, sorted by the order the `sort` parameter selects |
| `ContactRepository.ContactStore.GetTrash` | backend/controllers/contactController.js:42-48 | the trash list holds exactly the caller's trashed contacts, each once, most recently deleted first |
| `ContactRepository.ContactStore.GetContact` | backend/controllers/contactController.js:53-60 | 404 exactly when the id is unknown; otherwise the record, with no ownership check |
| `ContactRepository.ContactStore.GetOwnedContact` | backend/controllers/contactController.js:53-59 | corrected `getContact`: never returns a record the caller does not own; 403 for another owner's record |
| `ContactRepository.GetContactIgnoresOwner` | backend/controllers/contactController.js:53-59 | `getContact` hands another owner's record to any caller, where the owner check answers 403 |
| `ContactRepository.SearchNarrows` | backend/controllers/contactController.js:17-23 | a search result is always contained in the unfiltered live list of the same owner |
| `ContactRepository.ContactStore.CreateContact` | backend/controllers/contactController.js:65-80 | 400 and no insertion when name, email or phone is empty; otherwise exactly one new document under a fresh id, owned by the caller, live and not a favourite |
| `ContactRepository.ContactStore.UpdateContact` | backend/controllers/contactController.js:85-99 | 404, then 403, store unchanged on either; otherwise the owned record is patched whatever its trash state and nothing else changes |
| `ContactRepository.ContactStore.ToggleFavorite` | backend/controllers/contactController.js:104-119 | 404, then 403, then a failed save for a record with a blank required field, store unchanged on each; otherwise the owned record's flag flips, trashed or not, and nothing else changes |
| `ContactRepository.ContactStore.DeleteContact` | backend/controllers/contactController.js:124-142 | 404, then 403, then a failed save for a record with a blank required field, store unchanged on each; otherwise the record moves to the trash with `deletedAt` now, re-stamped if already there |
| `ContactRepository.ContactStore.RestoreContact` | backend/controllers/contactController.js:147-169 | 404, then 403, then 400 for a record not in the trash, then a failed save for a blank required field, store unchanged on each; otherwise the record leaves the trash with `deletedAt` cleared |
| `ContactRepository.BlankedFieldBlocksToggle` | backend/controllers/contactController.js:97-117 | an update may blank the name (no validators run), after which a toggle of that contact fails its save and changes nothing: the store then differs from the original only by the blanked record |
| `ContactRepository.ContactStore.PermanentDelete` | backend/controllers/contactController.js:174-188 | 404, then 403, store unchanged on either; otherwise exactly that key is removed, live or trashed, the removed record is returned, and a later lookup gives 404 |
| `ContactRepository.TrashAndRestore` | backend/controllers/contactController.js:124-169 | a created contact leaves the live list and enters the trash when deleted, and is back in the live list after a restore |
| `Accounts.AccountStore.RegisterUser` | backend/controllers/userController.js:9-44 | 400 for an empty field, 400 for a registered email, collection unchanged on both; otherwise one new account storing the password's hash, answered with id, username and email only; emails stay unique |
| `Accounts.AccountStore.LoginUser` | backend/controllers/userController.js:49-73 | 400 for an empty field; otherwise a token exactly when an account has the email and the password matches its hash, with claims username, email and id of that account and expiry one hour later; unknown email and wrong password share one 401 |
| `Accounts.AccountStore.UpdateEmail` | backend/controllers/userController.js:85-136 | 400 missing field, 404 unknown account, 401 wrong password, 400 email used by another account, in that order, collection unchanged; otherwise only the caller's email changes (its own email is accepted) and the new token carries the new email |
| `Accounts.AccountStore.ChangePassword` | backend/controllers/userController.js:141-173 | 400 missing field, 400 for fewer than six characters before any lookup, 404, 401 with the hash unchanged; otherwise the stored hash becomes the new password's |
| `Accounts.AccountStore.RegisterThenLogin` | backend/controllers/userController.js:22-67 | with a correct hashing scheme, a registration followed by a login with the same credentials yields a token carrying the registered identity |
| `Accounts.GetCurrentUser` | backend/controllers/userController.js:78-80 | behind the guard, the answer is the verified token's `user` claim, taken from the token and not from the account collection; every refusal is 401 |
| `Accounts.AccountStore.LoginThenCurrentUser` | backend/controllers/userController.js:78-80 | the current-user answer comes from the token: the logged-in identity during the token's hour, the uniform 401 afterwards |

## Findings

| source | as written | input that shows it | evidently intended | confidence | as-written member | corrected member |
|---|---|---|---|---|---|---|
| backend/controllers/contactController.js:53-59 | `getContact` looks the id up and answers the record without comparing its owner with the caller | caller B requests the id of a contact owned by A: the answer is A's record with status 200 | like every other handler naming a contact, answer 403 for a record the caller does not own | medium, not executed | `ContactRepository.GetContactIgnoresOwner` | `ContactRepository.ContactStore.GetOwnedContact` |

The model keeps `ContactStore.GetContact` as written; `GetOwnedContact`
is the corrected read, proved never to return another owner's record.

## Left out

- HTTP and framework plumbing: routing, the async error handler, JSON bodies, CORS, the server and the database connection. Every contact handler and the current, email and password handlers are taken to run behind the guard; register and login are not.
- Response bodies other than the record or token (the "moved to trash" style messages) and success status codes (200 versus 201) are not modelled.
- Ids are natural numbers from a counter; a malformed id string, which the store rejects with a cast error before any 404, is not modelled, and the 404 message does not interpolate the id.
- `ContactQueries.SortBy`: among records with equal sort keys the store promises no order; the model fixes one (insertion order of equal keys is not claimed to be the store's).
- `ContactQueries.MatchesSearch`: the search term is a regular expression in the source; the model treats it as a literal substring, and case folding covers ASCII letters only.
- The live-list filter `isDeleted != true` also admits documents stored without the field; in the model every document has the field.
- `ContactRepository.ContactStore.UpdateContact`: the source writes the whole request body, so a body could also set `user_id`, `isFavorite`, `isDeleted` or `deletedAt`; the model's patch covers name, email and phone only.
- A contact save that fails the schema's required checks is answered with status 500 and the message "Contact validation failed"; the actual status and message come from the error-handling middleware, which is not part of this model, and Mongoose's per-field message is not modelled.
- The account schema is not part of this model, so a save of an account is taken never to fail validation.
- Every successful handler sets `updatedAt` to the current time; the store skips that when a save changes no field (a second delete within the same instant), which is not modelled.
- Password hashing is the injected `PasswordScheme`; bcrypt's salt and cost factor are not modelled. Token signing is the injected `TokenCodec`; the cryptography, the `iat` claim and a clock finer than whole seconds are not modelled.
- The race between the email check and the insert in registration (concurrent registrations), the unreachable "Invalid user data" branch, and console logging.
- `Accounts.AccountStore.RegisterUser`: after a successful registration the handler goes on to a second `res.json` (backend/controllers/userController.js:43), which runs on every success and throws a headers-already-sent error into the error handler once the 201 answer is sent; the model keeps only the 201 answer.
- Password length is counted in characters; JavaScript counts UTF-16 code units.
- The frontend is not part of this model.
