# Store rating app — a Dafny model

The store rating app is a web application. Users rate stores from 1 to 5, store owners watch their
stores' ratings, and administrators manage accounts and stores. The backend is an Express
server over three PostgreSQL tables: `users`, `stores` and `ratings`. The frontend is a React
application that filters, sorts and paginates what the backend returns.

This project models the logic at the core of both halves and proves what that logic promises.

- **Tables and constraints** (`schema.dfy`). The three tables are sequences of rows in insertion order, held by
  the class `Schema.Database` together with their id sequences. Its `Valid()` predicate holds the schema's
  constraints:
  - ratings lie in 1..5;
  - a user rates a store at most once;
  - emails are unique;
  - roles come from the three-role set;
  - references are live.

  A separate predicate, `AveragesCurrent`, states that every stored average is the rounded mean of
  the store's ratings; the write operations are proved to keep it.

  Deleting a user sets the owner of their stores to null and removes their ratings. Deleting
  a store removes its ratings. The default administrator is inserted idempotently.
- **Ratings and averages** (`rating_model.dfy`, `store_model.dfy`, `rating_controller.dfy`,
  `store_controller.dfy`).
  - The upsert keyed by user and store, and the owned delete.
  - The average recomputation, in integer hundredths rounded half away from zero, as
    `ROUND(AVG(rating), 2)` and `::numeric(3,2)` do.
  - The aggregate store queries, and `findAll`'s `ILIKE` filters, sort and window.
  - The controllers' duplicate and owner checks, rating distributions and error outcomes.
- **Accounts** (`user_model.dfy`, `auth_controller.dfy`, `user_controller.dfy`). Registration,
  login, password change, account creation by an administrator, the account list with store
  owners' `store_rating`, and the dashboard counts.
- **Request guards** (`guards.dfy`, `field_rules.dfy`, `auth.dfy`, `routes.dfy`). Each guard of
  `validation.js` leads to one of two outcomes: the next handler, or a stopping reply. Each
  field rule of `validators.js` yields a list of field errors. `routes.dfy` composes the
  chain of `GET /api/stores/getAllStores` from these, and shows that the e-mail guard of
  the create-store route answers before the controller does.
  - `sanitizeInput` and `validatePagination` rewrite the request object in place. It is
    modelled as a class.
  - `authenticate` and `authorize` come from `auth.js`.
- **SQL placeholders** (`placeholders.dfy`). `mapPlaceholders` replaces the k-th `?` with `$k`.
- **Client-side logic**:
  - `register_form.dfy`: the registration form's checks and password strength.
  - `client_ratings.dfy`, `my_ratings.dfy`, `owner_dashboard.dfy`: the rating lists, their
    filters, sorts and statistics.
  - `store_filters.dfy`, `stores_page.dfy`: the store filter panel and the store list page.
  - `permissions.dfy`, `protected_route.dfy`: the permission predicates and the route decision.
  - `use_api.dfy`: the two pagination hooks. Each is a class whose fields are the hook's state.

Shared helpers cover three areas:
- `common.dfy`: string and arithmetic helpers;
- `js_values.dfy`: JavaScript values, truthiness, `Number()` on strings (decimal literals with a
  fraction and an exponent, unsigned `0x`/`0o`/`0b` literals, `Infinity`), and `parseInt`;
- `lists.dfy`: filter, and a stable insertion sort that stands for `Array.prototype.sort` and
  for `ORDER BY`.

The database, bcrypt, JWT and the clock are not called. Instead:
- each statement's effect on the tables is a function over them;
- a password hash is an idealised function of the salt and the password;
- token verification is a map from tokens to user ids, passed as a parameter. `AuthController.SignedAs` ties it to the claims a login or registration issues;
- the current time is an integer parameter. Where one request runs several statements that each read `NOW()` (submitting a rating runs three), each statement has a time parameter of its own.

## Model

| member | source | states |
|---|---|---|
| Auth.FirstFrom | backend/middleware/auth.js:16 | the position `String.replace` acts on: the first occurrence of the pattern at or after a position, or none when it does not occur |
| Auth.ReplaceFirstSplit | backend/middleware/auth.js:16 | `replace("Bearer ", "")` removes only the first occurrence of the pattern and keeps the text on both sides |
| Auth.BearerToken | backend/middleware/auth.js:15-16 | a header `Bearer <t>` yields `t` trimmed |
| Auth.BareToken | backend/middleware/auth.js:16 | a header with no `Bearer ` in it is used as the token, trimmed |
| Auth.AuthenticateCorrect | backend/middleware/auth.js:4-37 | every refusal is a 401; no header gives "no token"; an empty token gives "invalid format"; otherwise the caller is admitted iff the token verifies to an existing account's id, and is that account without its password; all other failures give "invalid or expired" |
| Auth.TokenChecked | backend/middleware/auth.js:18-36 | the part after the header is read: empty token, unknown token and unknown id are refused; a known id is admitted as that account |
| Auth.BearerAdmitted | backend/middleware/auth.js:7-32 | `Bearer <t>` in either header spelling, with `t` verifying to an existing account, admits exactly that account |
| Auth.AuthorizeCorrect | backend/middleware/auth.js:39-48 | the caller passes iff their role is listed, else 403 with the fixed message; an empty list admits nobody; `["admin"]` admits exactly administrators |
| Auth.AuthenticateRequest | backend/middleware/auth.js:27-32 | on success `req.user` is the authenticated account and the chain continues; on failure the reply is the refusal and `req.user` is untouched |
| Auth.AuthorizeRequest | backend/middleware/auth.js:40-47 | the verdict on `req.user` is `Authorize`'s |
| AuthController.TokenLifetime | backend/controllers/authController.js:5-9 | an issued token carries its user id and verifies exactly during the 24 hours after issue |
| AuthController.TokenAdmitted | backend/middleware/auth.js:16-32 | a token signed with claims naming an existing account, sent as `Bearer <token>`, admits that account while the claims are unexpired and gets 401 "Invalid or expired token." after |
| AuthController.LoginTokenAdmitted | backend/controllers/authController.js:78-89 | the token a login returns admits the account that logged in for 24 hours and is refused with 401 after |
| AuthController.RegisterTokenAdmitted | backend/controllers/authController.js:39-50 | the token a registration returns admits the new account, in the tables the registration leaves, for 24 hours and is refused with 401 after |
| AuthController.RegisterRoleCorrect | backend/controllers/authController.js:21-22 | self-registration never yields an administrator: `store_owner` is kept, anything else (including `admin`) becomes `user` |
| AuthController.RegisterCorrect | backend/controllers/authController.js:12-56 | validation errors give 400 with the errors and change nothing; an existing email gives 400 "User already exists" and changes nothing; a password that is not a string gives 500 (bcryptjs hashes only strings); otherwise 201 with "User registered successfully", the next user id, the submitted name, email and address, the granted role and a token for that id |
| AuthController.Registered | backend/controllers/authController.js:31-37 | a successful registration appends exactly one account under a fresh id with the submitted name, email and address and the granted role, never an administrator, whose hash compares equal to exactly the submitted password; every earlier account row stays as it was, no store or rating changes, and the schema's invariants hold |
| AuthController.RegisterOn | backend/controllers/authController.js:12-56 | the statements run against the database produce the tables and reply `Register` states |
| AuthController.LoginCorrect | backend/controllers/authController.js:59-95 | a validated request logs in iff an account has the email and the submitted password is a string that matches its hash; the reply is that account without its password and a token for its id; a non-string password gives 500 exactly when the email is known (bcryptjs rejects it); every other case is 401 "Invalid credentials" |
| AuthController.LoginAs | backend/controllers/authController.js:68-76 | with an account holding the submitted email, a login succeeds exactly when the submitted password is a string that matches that account's hash |
| AuthController.EmailsUnique | backend/controllers/authController.js:68 | the email lookup is unambiguous: two rows with one email are the same row |
| AuthController.LoginAfterRegister | backend/controllers/authController.js:31-76 | whoever registers can log in right away with the same email and password, as the account just created |
| AuthController.GetMe | backend/controllers/authController.js:98-111 | the caller's current account without its password, or 404 "User not found" exactly when the account no longer exists |
| AuthController.MismatchBeforeLookup | backend/controllers/authController.js:127-132 | a confirmation that is given and differs is refused with 400 before any lookup, whatever the tables hold |
| AuthController.UpdatePasswordCorrect | backend/controllers/authController.js:114-151 | the password changes exactly when the request validates, the confirmation is absent or matches, the caller's account exists, the current password is a string that matches and the new one is a string; a non-string current or new password gives 500 (bcryptjs rejects it), a wrong current password 401; each refusal leaves the tables as they were |
| AuthController.PasswordChanged | backend/controllers/authController.js:144 | after a change only the caller's row differs, and only in its password hash and update time |
| AuthController.LoginAfterUpdatePassword | backend/controllers/authController.js:139-146 | after a change exactly the new password value logs in; the old one, when it differs, no longer does |
| AuthController.UpdatePasswordOn | backend/controllers/authController.js:114-151 | the statements run against the database produce the tables and reply `UpdatePassword` states |
| UserController.CreateRoleCorrect | backend/controllers/userController.js:18-19 | an administrator may create any of the three roles, `admin` included; any other value becomes `user` |
| UserController.CreateUserCorrect | backend/controllers/userController.js:9-53 | validation errors give 400 with the errors; an email already in use gives 400 "User already exists"; every refusal leaves the tables unchanged; a non-string password gives 500; a validated request with a new email, a string password and values that fit their columns always creates the account |
| UserController.UserCreated | backend/controllers/userController.js:28-48 | a created account is appended under a fresh id with the granted role and a creation stamp of now; its hash compares equal to exactly the submitted password; the schema still holds; the 201 reply echoes the stored row |
| UserController.CreateUserOn | backend/controllers/userController.js:9-53 | the statements run against the database produce the tables and reply `CreateUser` states |
| UserController.StoreRatingCorrect | backend/controllers/userController.js:67-77 | a store owner's `store_rating` is the rounded mean of the ratings of the first store in their list: between 1.00 and 5.00 when it has ratings, 0 when it has none or the owner has no store |
| UserController.AttachStoreRatings | backend/controllers/userController.js:65-82 | the `map` callback applied entry by entry to an array holding the list: each entry ends as `WithStoreRating` of its old value |
| UserController.AttachAllCorrect | backend/controllers/userController.js:65-82 | every entry keeps its account; store owners, and only they, gain the `store_rating` of their first store; other entries pass through unchanged |
| UserController.GetAllUsersCorrect | backend/controllers/userController.js:58-89 | the reply (status 200) lists at most the whole table, only accounts that match the query filters, and every matching account |
| UserController.GetAllUsersRatings | backend/controllers/userController.js:65-84 | in the listed reply, store owners carry their `store_rating` and nobody else carries one |
| UserController.GetAllUsersOn | backend/controllers/userController.js:58-89 | copying the filtered accounts into an array and running the callback over it gives the reply `GetAllUsers` states |
| UserController.GetUserByIdCorrect | backend/controllers/userController.js:94-128 | an id that is not an integer ends in 500; an unknown id gives 404; otherwise the reply is that account, `total_ratings` is the number of ratings it has given, `member_since` is its creation stamp, and `store_rating` is the first store's average for a store owner and 0 for anyone else |
| UserController.GetUsersByRoleCorrect | backend/controllers/userController.js:133-142 | exactly the accounts of the path's role, without passwords; a string that names no role lists nobody |
| UserController.GetDashboardStats | backend/controllers/userController.js:147-164 | the three counts are the row counts of the users, stores and ratings tables |
| UserController.StatsAfterCreateUser | backend/controllers/userController.js:149-151 | creating an account adds one to the user count and nothing to the others; a refused request changes no count |
| UserModel.CreateCorrect | backend/models/User.js:8-21 | the insert succeeds iff the row fits its columns and the email is new; it then appends the row under a fresh id, returns that id, finds the new account by it, stores a hash that compares equal to exactly the submitted password, changes no store or rating, and keeps every constraint |
| UserModel.AppendUserKeepsSchema | backend/models/User.js:11-18 | appending a fresh account with a new email that fits its columns keeps every table constraint |
| UserModel.FindAppended | backend/models/User.js:15-20 | the id `RETURNING id` gives back finds the row just inserted |
| UserModel.SetPassword | backend/models/User.js:109-112 | the `UPDATE ... WHERE id = $2` changes the password and `updated_at` of exactly the rows with that id, and no other row |
| UserModel.UpdatePasswordCorrect | backend/models/User.js:106-113 | only the account with the id changes, and only its password and `updated_at`; its password then compares equal to exactly the new one; an absent id changes nothing; the constraints still hold |
| UserModel.FindById | backend/models/User.js:38-47 | the account of the id without its password, or null exactly when no account has the id |
| UserModel.PublicAll | backend/models/User.js:64-66 | the selected columns: each row without its password, in order |
| UserModel.GetAllUsersCorrect | backend/models/User.js:62-93 | exactly the accounts matching every given filter (`ILIKE '%v%'` on name, email and address; equality on role), in table order; with no filter, every account |
| UserModel.GetAllUsersSound | backend/models/User.js:67-89 | every listed account is a matching row of the table |
| UserModel.GetAllUsersComplete | backend/models/User.js:67-89 | every matching row of the table is listed |
| UserModel.GetUsersCount | backend/models/User.js:98-101 | the count is the number of rows of the users table |
| Schema.ParseRole | backend/config/database.js:74-75 | a role string is accepted exactly when it is one of the three names the CHECK allows, and then names that role |
| Schema.HashThenCompare | backend/models/User.js:118-120 | a password compares equal to a hash made from it and to no other password |
| Schema.Public | backend/models/User.js:40-42 | the row without its password keeps its id, email and role |
| Schema.FindUser | backend/models/User.js:38-47 | a row with the id, taken from the table, exactly when one exists; null otherwise |
| Schema.FindUserByEmail | backend/models/User.js:26-33 | a row with the email, taken from the table, exactly when one exists; null otherwise |
| Schema.FindStore | backend/models/Store.js:46-54 | a store row with the id, taken from the table, exactly when one exists |
| Schema.FindStoreByEmail | backend/models/Store.js:23-28 | a store row with the email exactly when one exists |
| Schema.RatingValuesInRange | backend/config/database.js:106 | the CHECK on `rating` bounds every value a store's average is taken over to 1..5 |
| Schema.RoundHalfAway | backend/config/database.js:89 | the rounding to hundredths that a cast to `NUMERIC(3,2)` applies: within half a unit of the exact quotient, halves away from zero |
| Schema.AverageSpellingsAgree | backend/models/Store.js:44 | over ratings in 1..5 the mean lies in 1.00..5.00, so `COALESCE(AVG(rating), 0)::numeric(3,2)` never overflows and every spelling of the average in the queries gives the same value, 0 for no ratings |
| Schema.Disown | backend/config/database.js:88 | `ON DELETE SET NULL`: the stores owned by the deleted user lose their owner, every other store and column is unchanged |
| Schema.DeleteStoreKeepsSchema | backend/config/database.js:105 | deleting a store with `ON DELETE CASCADE` on its ratings keeps every constraint, leaves neither the store nor a rating of it, and keeps every other store's average current |
| Schema.StoresAfterStoreDelete | backend/config/database.js:83-92 | the stores table without one store keeps its constraints and no longer has that id |
| Schema.RatingsAfterStoreDelete | backend/config/database.js:105 | after the cascade the ratings table keeps its constraints and holds no rating of the deleted store |
| Schema.AveragesAfterStoreDelete | backend/config/database.js:105 | the cascade removes only the deleted store's ratings, so every remaining average stays current |
| Schema.DeleteStoreKeepsRefs | backend/config/database.js:105 | every rating left after a store delete refers to a store that is left |
| Schema.DeleteUserKeepsSchema | backend/config/database.js:88-104 | deleting a user (`SET NULL` on owned stores, `CASCADE` on their ratings) keeps every constraint, and leaves neither the user, nor a rating by them, nor a store owned by them |
| Schema.DisownKeepsStores | backend/config/database.js:88 | after `SET NULL` the stores table keeps its constraints against the remaining users |
| Schema.DisownKeepsRows | backend/config/database.js:88 | clearing owners changes no other column of any store |
| Schema.DisownOwnersExist | backend/config/database.js:88 | every owner left after `SET NULL` is a remaining user |
| Schema.RatingsAfterUserDelete | backend/config/database.js:104 | the ratings table without the deleted user's ratings keeps its constraints |
| Schema.RaterRefsAfterUserDelete | backend/config/database.js:104 | every rating left refers to a remaining user |
| Schema.StoreRefsAfterUserDelete | backend/config/database.js:105 | every rating left still refers to an existing store |
| Schema.DefaultAdminIdempotent | backend/config/database.js:123-136 | the start-up insert keeps the constraints, leaves an account with the administrator's email, touches no store or rating, and a second run adds no row but still draws one more user id (`ON CONFLICT (email) DO NOTHING` after the `SERIAL` default) |
| Schema.AppendUserOk | backend/config/database.js:69-73 | a row under the next `SERIAL` id, within the VARCHAR bounds and with an unused email, keeps the users table's constraints |
| Schema.Database.Initialize | backend/config/database.js:64-142 | `initializeDatabase` on an empty database: the tables are empty but for the default administrator, and every constraint holds |
| Schema.Database.InsertAdmin | backend/config/database.js:123-136 | the live tables become those of the start-up insert, and the constraints are kept |
| StoreModel.SetAverage | backend/models/Store.js:176-182 | the UPDATE keeps every store's id and email and the number of rows |
| StoreModel.SameKeysKeepSchema | backend/models/Store.js:176-182 | an UPDATE that changes no id, email or owner and stays within the column bounds keeps every constraint |
| StoreModel.UpdateAverageCorrect | backend/models/Store.js:173-186 | the cast never fails; exactly the store with the id gets the rounded mean of its current ratings and the new time, every other row and table is as before, the constraints hold, and the averages are all current when only this one was stale |
| StoreModel.UpdateAverageTwice | backend/models/Store.js:173-186 | recomputing twice is recomputing once at the later time |
| StoreModel.SetAverageTwice | backend/models/Store.js:177-181 | writing the same average twice keeps only the later timestamp |
| StoreModel.UpdateAverageAbsent | backend/models/Store.js:182 | an id no store has changes nothing |
| StoreModel.UpdateAverageRating | backend/models/Store.js:173-186 | run against the database: it succeeds exactly when the statement does and then leaves its tables, otherwise nothing changes |
| StoreModel.RatingValuesNone | backend/models/Store.js:178-180 | a store no rating refers to has no rating values |
| StoreModel.CreateCorrect | backend/models/Store.js:7-18 | the insert succeeds iff the row fits its columns, the email is unused and the owner exists (`REFERENCES users(id)`); it then appends the row under the next id with average 0, returns that id, touches no user or rating, and keeps the constraints and the averages current |
| StoreModel.AppendStoreOk | backend/models/Store.js:10-12 | a fresh store with an unused email and an existing owner keeps the stores table's constraints |
| StoreModel.NewStoreAverage | backend/config/database.js:89 | a new store has no ratings, so its default average 0 is current |
| StoreModel.Summaries | backend/models/Store.js:44-49 | one aggregate row per store, in order, each the store's columns with its average and count |
| StoreModel.FindByIdCorrect | backend/models/Store.js:33-55 | null exactly for an absent id; otherwise the store's own columns, the number of its ratings and their rounded mean, 0 without ratings and within 1.00..5.00 with them, equal to the stored average when the averages are current |
| StoreModel.GetStoresCount | backend/models/Store.js:191-194 | the number of rows of the stores table |
| StoreModel.StoresCountAfterCreate | backend/models/Store.js:7-18 | a store insert that succeeds adds one to the count of stores |
| StoreModel.FindByOwnerIdCorrect | backend/models/Store.js:121-143 | exactly the stores whose owner is the id, each as its aggregate row, and no more rows than stores |
| StoreModel.Literals | backend/models/Store.js:79 | a value without pattern characters reads as one literal per character |
| StoreModel.PlainTokens | backend/models/Store.js:79 | a plain prefix of a pattern reads as its literals followed by the rest |
| StoreModel.AnyStringMatchesAll | backend/models/Store.js:80 | `%` alone matches every text |
| StoreModel.PrefixMatch | backend/models/Store.js:80 | literals then `%` match exactly the texts that start with those characters, ignoring case |
| StoreModel.PrefixStep | backend/models/Store.js:80 | a case-insensitive prefix comparison is the first character's then the rest's |
| StoreModel.LowerPointwise | backend/models/Store.js:80 | equal ignoring case means each pair of characters is |
| StoreModel.AnyThen | backend/models/Store.js:80 | a leading `%` matches when the rest matches some suffix |
| StoreModel.ILikeContainsPlain | backend/models/Store.js:78-91 | for a value without pattern characters, `ILIKE '%v%'` is exactly a case-insensitive substring test |
| StoreModel.SearchTokensPlain | backend/models/Store.js:79 | the search pattern of a plain value is `%`, its literals, `%` |
| StoreModel.MatchAtOccurs | backend/models/Store.js:80 | the literal part matches at a position exactly where the lower-cased value occurs there |
| StoreModel.PercentTokens | backend/models/Store.js:79 | the pattern `%` reads as one wildcard |
| StoreModel.SearchPatternWellFormed | backend/models/Store.js:79 | every pattern `findAll` builds reads as a well-formed LIKE pattern |
| StoreModel.BackslashMissesItself | backend/models/Store.js:79-80 | a backslash in the search value escapes the next character, so the value `a\b` does not find the text `a\b` |
| StoreModel.TextLeTotal | backend/models/Store.js:100 | the text order of ORDER BY relates every pair |
| StoreModel.KeyLeTotal | backend/models/Store.js:100 | the order on sort keys relates every pair |
| StoreModel.BeforeTotal | backend/models/Store.js:96-103 | every ORDER BY clause `findAll` builds is a total order |
| StoreModel.OrderingRules | backend/models/Store.js:96-103 | `rating` sorts by the average, only the exact `asc` sorts ascending and anything else descending, no `sortBy` sorts newest first, and a name that is no column makes the query fail |
| StoreModel.FindAllCorrect | backend/models/Store.js:60-116 | the result is the LIMIT/OFFSET window of the ordered matching rows: each a stored store's aggregate row passing every given filter, in the requested order, at most `limit` of them, and all matching stores when there is no window |
| StoreModel.WindowSound | backend/models/Store.js:106-112 | a window of matching rows holds only matching rows |
| StoreModel.WindowSorted | backend/models/Store.js:106-112 | a window of a sorted list is sorted |
| StoreModel.WindowSlice | backend/models/Store.js:106-112 | the window is the slice of at most `limit` rows after the first `offset`; without a limit it runs to the end, and without either it is the whole list |
| StoreModel.SortByMembers | backend/models/Store.js:100 | sorting keeps exactly the rows it sorts |
| StoreModel.OrderedCorrect | backend/models/Store.js:61-103 | before the window: sorted, only matching rows, every matching store present |
| StoreModel.SelectCorrect | backend/models/Store.js:61-100 | a filtered, grouped and sorted select is sorted, sound and complete |
| StoreModel.SelectSound | backend/models/Store.js:72-93 | every selected row is the aggregate row of a store passing the filter |
| StoreModel.SelectComplete | backend/models/Store.js:72-93 | every store passing the filter is selected |
| StoreModel.SortedSlice | backend/models/Store.js:106-112 | a slice of a sorted list is sorted |
| StoreModel.GetStoreRatingsCorrect | backend/models/Store.js:148-168 | exactly the store's ratings, each once with its author, newest first |
| StoreController.OwnerThenInsertCorrect | backend/controllers/storeController.js:30-49 | the owner check rejects with 400 exactly an absent owner or one who is not a store owner; past it the insert fails with 500 exactly when a value is too long or the email is taken; every failure leaves the tables as they were; otherwise 201 with the next id and the submitted columns, one store appended, and the constraints and averages kept |
| StoreController.CreateStoreSound | backend/controllers/storeController.js:18-28 | as written, the 400 "already exists" is only given for a real duplicate, and when the name search finds no clash the request goes on to the owner check and the insert |
| StoreController.CreateStoreFindsPlainNames | backend/controllers/storeController.js:19-28 | as written, a name without `ILIKE` pattern characters that a store already has up to case is refused with 400 and nothing changes |
| StoreController.CreateStoreCheckedCorrect | backend/controllers/storeController.js:18-49 | with the duplicate check over every store, 400 is given exactly for a duplicate, failures change nothing, 500 only for a value too long for its column, and a created store clashes with none before it |
| StoreController.CreateStoreOn | backend/controllers/storeController.js:7-54 | the request against the live database, as written (the name search, then the owner lookup and the insert), leaves the tables and the reply `CreateStore` states |
| StoreController.CreateStoreCheckedOn | backend/controllers/storeController.js:18-49 | the corrected request, with the duplicate check over every store, leaves the tables and the reply `CreateStoreChecked` states |
| StoreController.NoMatchNoRows | backend/controllers/storeController.js:19 | a name search that the only store does not match returns no rows |
| StoreController.SameEmailOtherName | backend/controllers/storeController.js:19-38 | as written, a new store reusing a store's email under an unrelated name passes the duplicate check and then fails the insert with 500; the check over every store answers 400 |
| StoreController.BackslashNameRepeats | backend/controllers/storeController.js:19-22 | as written, a name holding a backslash does not find itself under `ILIKE`, so a second store with the same name is created; the check over every store answers 400 |
| StoreController.GetAllStoresCorrect | backend/controllers/storeController.js:58-74 | 500 exactly when `sortBy` names no column; otherwise every store whose name and address contain the filters, as its aggregate row, only those, in the order asked for |
| StoreController.Stars | backend/controllers/storeController.js:100-101 | the rating value of each fetched rating, in order |
| StoreController.DistributionCounts | backend/controllers/storeController.js:92-102 | the distribution has a key for 1..5 and for every value seen, and each key counts the ratings with that value |
| StoreController.DistributionOfRatings | backend/controllers/storeController.js:92-102 | for ratings in 1..5 the keys are exactly 1..5 and the counts add up to the number of ratings |
| StoreController.RatingDistribution | backend/controllers/storeController.js:100-102 | the `forEach` loop builds the distribution of the fetched ratings |
| StoreController.AverageCorrect | backend/controllers/storeController.js:105-109 | 0 for no ratings, otherwise the sum over the count, within 1..5; rounded to hundredths it is the average the SQL aggregates compute |
| StoreController.GetStoreByIdOn | backend/controllers/storeController.js:79-123 | the request run against the database gives the reply `GetStoreById` states |
| StoreController.StarsSummary | backend/controllers/storeController.js:92-109 | for ratings in 1..5: keys 1..5, each value counted, counts adding up to the total, and the average 0 or within 1..5 |
| StoreController.StoreRatingsStars | backend/controllers/storeController.js:89 | the fetched ratings are as many as the store's ratings in the table, each in 1..5 |
| StoreController.FilterCountsValues | backend/models/Store.js:161 | the store's rating rows are as many as its rating values |
| StoreController.StoreRatingsSum | backend/controllers/storeController.js:108 | the fetched ratings, joined with their authors and sorted newest first, add up to the store's rating values in the table |
| StoreController.StarsSortSum | backend/models/Store.js:162 | sorting ratings keeps the sum of their values |
| StoreController.StarsJoined | backend/models/Store.js:160-168 | when every author exists, joining a store's ratings with their users keeps its rating values in table order |
| StoreController.DetailsAverage | backend/controllers/storeController.js:105-114 | the reply's average is the mean of the store's rating values and rounds to its `findById` row's `average_rating` |
| StoreController.GetStoreByIdCorrect | backend/controllers/storeController.js:79-123 | a path id PostgreSQL cannot read as an `INTEGER` gives 500; otherwise 404 exactly for an absent store, and else its `findById` row, `total_ratings` equal to that row's count, a distribution over 1..5 that adds up to it and counts each value, and the average 0 without ratings and otherwise the exact mean of the store's rating values, which lies within 1..5 and rounds to the row's `average_rating` |
| StoreController.StoreDetailsAgree | backend/controllers/storeController.js:89-119 | the body built from an existing store's row and fetched ratings carries that row, a distribution over 1..5 that counts each value and adds up to the row's count, and the exact mean of its rating values, which rounds to the row's `average_rating` |
| StoreController.OwnedStores | backend/models/Store.js:136 | the owner's stores are none exactly when no store has that owner, and otherwise begin with the first such store |
| StoreController.FindStoreAt | backend/models/Store.js:48 | with distinct ids, a store is found by its own id |
| StoreController.GetStoreOwnerDashboardCorrect | backend/controllers/storeController.js:127-148 | 404 exactly when the user owns no store; otherwise the first owned store's aggregate row and its ratings |
| StoreRoutes.ListStoresFixedCorrect | backend/routes/stores.js:23-30 | with the sort order normalised, a query the guard refuses gets the guard's reply, one whose `sortBy` is no column a 500; every accepted listing holds exactly the stores whose name and address contain the filters, newest first without `sortBy`, otherwise on the named column and ascending exactly when `sortOrder` is `asc` in any case |
| StoreRoutes.TwoStoresOrdered | backend/models/Store.js:72-100 | without filters both stores of the example pass, in table order, and are sorted |
| StoreRoutes.SortTwo | backend/models/Store.js:100 | sorting two rows keeps them in place exactly when the first may precede the second |
| StoreRoutes.UpperAscParams | backend/middleware/validation.js:25 | `sortOrder=ASC` passes the guard; as wired it reaches `findAll` as `ASC`, normalised as `asc` |
| StoreRoutes.TwoStoresListed | backend/controllers/storeController.js:58-69 | without filters or a window the listing of the two stores is their two aggregate rows, sorted |
| StoreRoutes.NamesOrdered | backend/models/Store.js:100 | `a` comes before `b` in ascending name order and not in descending |
| StoreRoutes.NameSorts | backend/models/Store.js:99-100 | by name, descending lists `b` first and ascending `a` |
| StoreRoutes.UpperAscListedDescending | backend/models/Store.js:99 | as wired, `sortOrder=ASC` passes the guard and then lists the stores by name descending |
| StoreRoutes.UpperAscListedAscendingFixed | backend/models/Store.js:99 | with the sort order normalised, the same request lists them ascending |
| StoreRoutes.SameEmailRouteGuard | backend/routes/stores.js:48 | on the create-store route the e-mail guard answers the duplicate-email example with a 400 before the controller, which alone would answer 500 |
| StoreRoutes.ListStoresRoute | backend/routes/stores.js:23-30 | `GET /getAllStores` as wired: the body and query are sanitised in place key by key, the page window recorded when the guard passes, and the reply is the listing with the query's own sort order (so `ASC` sorts descending); nothing else on the request changes |
| StoreRoutes.ListStoresRouteFixed | backend/routes/stores.js:23-30 | the same route with the accepted sort order passed on in lower case: the same in-place sanitising and page window, and the reply is the normalised listing |
| Guards.QueryParamsChain | backend/middleware/validation.js:22-48 | the request goes on exactly when `sortOrder` is absent or `asc`/`desc` in any case, `page` absent or a number of at least 1 (`Infinity` included), `limit` absent or a number in 1..100, and no other parameter holds one of `; \ ' " -`; a bad sort order is reported first, and every refusal is a 400 |
| Guards.UpperAscSortsDescending | backend/middleware/validation.js:25 | `sortOrder=ASC` passes the guard, but `findAll` then sorts descending |
| Guards.NormalizeQuery | backend/middleware/validation.js:25 | the corrected guard changes only `sortOrder`, and keeps every key |
| Guards.NormalizedSortHonoured | backend/middleware/validation.js:25 | after the corrected guard a sort on a known column is ascending exactly for `asc` in any case |
| Guards.NormalizedStillPasses | backend/middleware/validation.js:22-48 | the normalised query passes the guard whenever the original did |
| Guards.LowerIdempotent | backend/middleware/validation.js:25 | lower-casing twice is lower-casing once |
| Guards.RatingGuard | backend/middleware/validation.js:51-59 | only a present rating that reads as a number outside 1..5 is refused, with 400 and the fixed message (either infinity is outside); a missing or empty rating and a non-number pass |
| Guards.WordRatingPasses | backend/middleware/validation.js:51-59 | a rating of `"abc"`, which reads as no number, passes |
| Guards.RoleGuard | backend/middleware/validation.js:62-72 | a missing or empty role passes, so does one of the three role names, and anything else is refused |
| Guards.StrongPasswordPassesRules | backend/middleware/validation.js:154-169 | a password the strength guard passes also passes both password field rules |
| Guards.RulesWiderThanGuard | backend/middleware/validation.js:159 | `Abcdefg(` passes both field rules but not the strength guard, because `(` is special only to the rule |
| Guards.GuardRefusesParen | backend/middleware/validation.js:159 | the strength guard refuses `Abcdefg(` |
| Guards.RulesLengthParen | backend/utils/validators.js:47 | `Abcdefg(` has the length the field rule wants |
| Guards.RulesAcceptParen | backend/utils/validators.js:49 | `Abcdefg(` passes the field rule's pattern |
| Guards.NoBreakFirstLine | backend/middleware/validation.js:159 | a text without line terminators is its own first line, the part `.` can cover |
| Guards.NameBoundsDisagree | backend/middleware/validation.js:172-182 | a trimmed name of 20..60 characters passes both the length guard and the user-name rule |
| Guards.ShortNameAccepted | backend/middleware/validation.js:175 | `Bob` passes the guard and fails the rule |
| Guards.PaddedNameRefused | backend/utils/validators.js:10-11 | a name padded with spaces to 61 characters fails the guard but passes the rule, which trims first |
| Guards.NameLengthGuard | backend/middleware/validation.js:172-182 | a string name is refused exactly when it is non-empty and its length in UTF-16 code units is outside 3..60 |
| Guards.TrimPadding | backend/utils/validators.js:10 | trailing spaces after a word are trimmed off |
| Guards.Collapse | backend/middleware/validation.js:201 | every run of white space becomes one space: empty exactly for empty input, no run of two spaces left, and a first and last character kept when they are not white space |
| Guards.CleanTidy | backend/middleware/validation.js:199-203 | a cleaned string has no white space at either end and no run of it inside |
| Guards.CollapseTidy | backend/middleware/validation.js:201 | a string without white-space runs is left as it is |
| Guards.CleanIdempotent | backend/middleware/validation.js:199-203 | cleaning twice is cleaning once |
| Guards.CleanKeepsWords | backend/middleware/validation.js:199-203 | cleaning keeps every character that is not white space, in order |
| Guards.PageNumber | backend/middleware/validation.js:227 | the page is at least 1 |
| Guards.PageSize | backend/middleware/validation.js:228 | the limit lies in 1..100 |
| Guards.PaginateCorrect | backend/middleware/validation.js:221-237 | page at least 1, limit in 1..100, the offset skipping the earlier pages; no `page` gives page 1 and no `limit` a limit of 10 |
| Guards.PageWindowBounds | backend/middleware/validation.js:227-234 | the window's bounds, and the defaults kept |
| Guards.PaginateDecimal | backend/middleware/validation.js:224-228 | a page and a limit written in decimal within range are taken as they are |
| Guards.DecimalParses | backend/middleware/validation.js:224 | `parseInt` reads a decimal spelling back as its number |
| Guards.SelfActionGuard | backend/middleware/validation.js:240-251 | refused exactly when the target id reads as the caller's own; a missing target passes |
| Guards.StoreOwnershipGuard | backend/middleware/validation.js:106-132 | without a store id the request passes; a truthy store id PostgreSQL cannot read as an `INTEGER` makes the lookup throw, and the catch answers 500 "Store validation failed"; otherwise an absent store gives 404; a store owner is refused with 403 exactly for a store that is not theirs; everyone else passes for any existing store, which is handed on |
| Guards.UserExistsGuard | backend/middleware/validation.js:135-151 | without an id the request passes; with one, it passes exactly when an account has that id, handing that account on, else 404; an id PostgreSQL cannot read gives 500 |
| Guards.HandleValidationErrors | backend/middleware/validation.js:4-19 | the request goes on exactly when there are no errors, else 400 "Validation failed", whose `details` hold one entry per error, in order, with its field and message |
| Guards.RegisterValidation | backend/middleware/validation.js:4-19 | after the registration chain the request goes on exactly when the name, email, address and both password rules hold |
| Guards.RegisterDetails | backend/middleware/validation.js:8-15 | a refused registration lists one to five `details`, each about the name, email, address or password |
| Guards.RepliedAbout | backend/middleware/validation.js:7-16 | for at most `n` errors about some fields, the reply stops the request exactly when there are errors, and its one to `n` details are each about one of those fields |
| Guards.UniqueUserEmailGuard | backend/middleware/validation.js:75-103 | refused with 400 exactly for a present email that an account already has |
| Guards.UniqueStoreEmailGuard | backend/middleware/validation.js:75-103 | refused with 400 exactly for a present email that a store already has |
| Guards.CleanBody | backend/middleware/validation.js:205-209 | the loop over the body cleans each value and keeps every key |
| Guards.CleanQuery | backend/middleware/validation.js:211-215 | the loop over the query cleans each value and keeps every key |
| Guards.Request.constructor | backend/middleware/validation.js:198 | a request with the given body and query and nothing recorded yet |
| Guards.Request.SanitizeInput | backend/middleware/validation.js:198-218 | every value of the body and of the query is cleaned in place, with the keys and the rest of the request unchanged |
| Guards.Request.ValidatePagination | backend/middleware/validation.js:221-237 | always passes, and records the page window of the query and nothing else |
| Guards.Request.ValidateOwnership | backend/middleware/validation.js:106-132 | the verdict of the ownership guard, and the store it found recorded when it passes |
| Guards.CleanValueIdempotent | backend/middleware/validation.js:199-203 | sanitising a value twice is sanitising it once |
| FieldRules.Check | backend/utils/validators.js:9-12 | one rule gives no error exactly when it holds, and otherwise one error about its field |
| FieldRules.FirstLine | backend/utils/validators.js:49 | the longest prefix without a line terminator, the only part a look-ahead `(?=.*X)` at the start can see |
| FieldRules.RegisterChain | backend/utils/validators.js:71-76 | registration has no error exactly when the trimmed name has 20..60 characters, the email is valid, the trimmed address has at most 400, and the password has 8..16 characters with an uppercase letter and a special character on its first line |
| FieldRules.RegisterErrorFields | backend/utils/validators.js:71-76 | at most five errors, each about name, email, address or password |
| FieldRules.PasswordAbout | backend/utils/validators.js:46-52 | the password rules report at most two errors, both about the password |
| FieldRules.CreateUserChain | backend/utils/validators.js:90-96 | the admin's user form adds only the role rule after registration's: a missing role passes, a present one must name one of the three roles |
| FieldRules.CreateStoreChain | backend/utils/validators.js:98-106 | the store form has no error exactly for a 3..60 name untrimmed, a valid email, an address of at most 400 after trimming, and an owner id that reads as an integer |
| FieldRules.RatingChain | backend/utils/validators.js:108-114 | a rating request has no error exactly when the rating is an integer 1..5 and the store id reads as an integer, and such a rating is one the model accepts |
| FieldRules.RatingPassesModel | backend/utils/validators.js:57-59 | a value `isInt({min: 1, max: 5})` accepts is read by `Number` as the same integer in 1..5 |
| FieldRules.RatedValue | backend/utils/validators.js:57-59 | the integer in 1..5 an accepted rating stands for |
| FieldRules.PasswordBothErrors | backend/utils/validators.js:46-52 | a short password with neither an uppercase letter nor a special character gets both messages |
| FieldRules.FirstLineStops | backend/utils/validators.js:49 | the first line stops at the first line break |
| FieldRules.UpperAfterBreakMissed | backend/utils/validators.js:49 | an uppercase letter after a line break does not satisfy the pattern |
| FieldRules.UpperBeforeBreakSeen | backend/utils/validators.js:49 | an uppercase letter and a special character before the line break do |
| JsValues.NatToStringValue | backend/middleware/validation.js:224 | the digits of a number's decimal spelling are worth that number |
| JsValues.NatToStringParses | backend/middleware/validation.js:224 | `parseInt` and `Number` both read a decimal spelling back as its number |
| JsValues.TrimBare | backend/utils/validators.js:10 | a string with no white space at either end is its own trim |
| JsValues.DigitsNumber | backend/models/Rating.js:10 | `Number` reads a string of digits with an optional sign as that signed integer |
| JsValues.QuotientFloor | backend/models/Rating.js:10 | a fraction `n / d` is an integer exactly when `d` divides `n`, and otherwise lies strictly between its floor and the next integer |
| JsValues.ExponentNumber | backend/models/Rating.js:10 | `Number` reads `<n>e<e>` as `n` times ten to the `e` |
| JsValues.NegativeExponentNumber | backend/models/Rating.js:10 | `Number` reads `<n>E-<e>` as `n` divided by ten to the `e` |
| JsValues.RadixNumber | backend/models/Rating.js:10 | `Number` reads an unsigned `0x`, `0o` or `0b` literal as its value in base 16, 8 or 2 |
| JsValues.SignedRadixNumber | backend/models/Rating.js:10 | `Number` reads a radix literal with a `-` or `+` sign as NaN |
| JsValues.InfinityNumber | backend/models/Rating.js:10 | `Number` reads `Infinity`, `+Infinity` and `-Infinity` as the infinity of that sign |
| JsValues.IntStringNumber | backend/utils/validators.js:58 | a string `isInt` calls an integer is read by `Number` as that integer |
| RatingModel.StoredComment | backend/models/Rating.js:26 | `comment || null`: a missing or empty comment is stored as NULL, any other kept as it is |
| RatingModel.CheckedRatingCorrect | backend/models/Rating.js:10-13 | the model's error is raised exactly for values `Number` reads as NaN or outside [1, 5]; an accepted value is an integer in 1..5 that `Number` reads from it |
| RatingModel.CheckedRatingExamples | backend/models/Rating.js:10-13 | 4 passes, `null` and `undefined` are refused, `true` reads as 1, and 4.5 passes the check but fails the `INT` column |
| RatingModel.CheckedRatingStrings | backend/models/Rating.js:10-11 | a decimal string is read as its number and checked; the empty string reads as 0 and is refused |
| RatingModel.PairIndex | backend/models/Rating.js:19 | the row of the pair `(user_id, store_id)` when there is one, and none exactly when no row has the pair |
| RatingModel.RatingValuesUpdateOther | backend/models/Rating.js:20-23 | rewriting a row of another store leaves a store's rating values as they were |
| RatingModel.PairIndexUnique | backend/config/database.js:110 | under `UNIQUE (user_id, store_id)` a row is the one its pair finds |
| RatingModel.UpsertResubmission | backend/models/Rating.js:19-24 | a resubmission rewrites the pair's row in place: the schema holds, the row keeps its id and creation time and takes the new rating and comment, the rating sequence advances by one, every other row and other stores' values are unchanged |
| RatingModel.UpsertFirst | backend/models/Rating.js:17-24 | a first submission appends a row under the sequence's next id, keeps the earlier rows in place and the schema, and changes no other store's values |
| RatingModel.AppendRatingOk | backend/config/database.js:102-111 | a row with the next id, a rating in 1..5, existing references and a new pair keeps every constraint of the ratings table |
| RatingModel.UpsertCorrect | backend/models/Rating.js:15-27 | in both cases the schema holds, the pair's row carries the new rating, the comment and the returned id, and no other store's values change |
| RatingModel.CreateOrUpdateOutcome | backend/models/Rating.js:8-33 | the model's error is raised exactly for a value outside [1, 5]; a rejected or non-integer value changes nothing; a missing user or store fails the foreign key after the `SERIAL` default has drawn its id, so only the rating sequence advances; under the schema every failure writes no row, and the write succeeds exactly for an integer in 1..5 with an existing user and store |
| RatingModel.UpsertThenAverage | backend/models/Rating.js:30 | the average update after a valid upsert finds its store |
| RatingModel.CreateOrUpdateCorrect | backend/models/Rating.js:8-33 | after a successful write the schema holds, the pair's only row has the new rating, the stored comment and the returned id, and current averages stay current |
| RatingModel.UpsertOthersCurrent | backend/models/Rating.js:30 | a write that changes only one store's values leaves every other average current |
| RatingModel.CreateOrUpdateAverage | backend/models/Rating.js:29-30 | after a successful write the rated store's average is the rounded mean of its ratings after the write, stamped with the time of the average update, which is a statement of its own, and every other store is unchanged |
| RatingModel.ResubmissionKeepsId | backend/models/Rating.js:19-24 | a second submission for the same pair returns the first one's id and adds no row |
| RatingModel.CreateOrUpdateRating | backend/models/Rating.js:8-33 | the statements run against the live database, each at its own time, leave the tables and the result `CreateOrUpdate` states, the sequence advance on a foreign-key failure included |
| RatingModel.UpsertRating | backend/models/Rating.js:15-27 | the upsert statement against the live database leaves the tables and the id `Upsert` states |
| RatingModel.OwnedRating | backend/models/Rating.js:102-103 | the row with the id and the user, exactly when one exists |
| RatingModel.WithoutOwnedSplit | backend/models/Rating.js:102-103 | with unique ids the delete removes exactly the named row |
| RatingModel.WithoutOwnedKeepsSchema | backend/models/Rating.js:102-103 | deleting rows keeps every constraint |
| RatingModel.FilterKeepsRatingsOk | backend/config/database.js:102-111 | any rows a filter leaves keep the ratings table's constraints |
| RatingModel.WithoutOwnedRemovesOne | backend/models/Rating.js:99-107 | the delete removes the owned row and no other, and leaves every other store's values as they were |
| RatingModel.DistinctIds | backend/config/database.js:103 | two different rows have different ids |
| RatingModel.SameIdSameRow | backend/config/database.js:103 | two rows with the same id are the same row |
| RatingModel.WithoutOwnedRows | backend/models/Rating.js:102-103 | the sequence-level facts of the delete: one row fewer, no row with the id, every other row kept, other stores' values unchanged |
| RatingModel.WithoutOwnedOtherValues | backend/models/Rating.js:102-104 | only the deleted row's store can see its values change |
| RatingModel.DeleteRatingCorrect | backend/models/Rating.js:99-117 | null and no change exactly when no row of the user has the id; otherwise exactly that row goes, its store id is returned, that store's average becomes the rounded mean of the rest, and current averages stay current |
| RatingModel.DeleteOwnedRating | backend/models/Rating.js:99-117 | the delete run against the live database leaves the tables and the result `DeleteRating` states |
| RatingModel.GetUserRatingsCorrect | backend/models/Rating.js:38-59 | exactly the user's ratings, each once with its store, most recently updated first |
| RatingModel.GetStoreRatingsCorrect | backend/models/Rating.js:64-85 | exactly the store's ratings, each once with its author, most recently updated first |
| RatingModel.RatingsCountAfterWrites | backend/models/Rating.js:90-94 | the count rises by one for a first rating of a pair, stays for a resubmission and for a failed write, and falls by one for a delete |
| RatingController.SubmitRatingAgrees | backend/controllers/ratingController.js:9-48 | under the schema the controller's own recomputation writes back the average `createOrUpdate` already stored, so the tables are those after `createOrUpdate` except that the rated store's `updated_at` is the time of the controller's own UPDATE; the reply reports the rounded mean, within 1.00..5.00, and the count, at least one, of the store's ratings after the write |
| RatingController.RatingValuesHas | backend/controllers/ratingController.js:26-28 | a store with a rating in the table has rating values |
| RatingController.SubmitRatingFailure | backend/controllers/ratingController.js:49-52 | every failure is the one 500 "Failed to submit rating" reply; under the schema it happens exactly when `createOrUpdate` fails, and no row of any table changes |
| RatingController.SubmitRatingOn | backend/controllers/ratingController.js:9-53 | the statements run against the live database, the upsert, the model's average update and the controller's UPDATE each at its own `NOW()`, give the tables and reply `SubmitRating` states |
| RatingController.DeleteRatingNotOwned | backend/controllers/ratingController.js:131-144 | a path id PostgreSQL cannot read as an `INTEGER` gives 500 and changes nothing; otherwise an absent rating and another user's rating get the same 404 and change nothing, and under the schema there is no other failure |
| RatingController.DeleteRatingRemoves | backend/controllers/ratingController.js:146-166 | the own rating's row goes; its store's average becomes the rounded mean of the rest, 0 for none, with `updated_at` kept; every other store is untouched and the schema holds |
| RatingController.AverageKeepsStores | backend/controllers/ratingController.js:155-164 | writing an in-range average into one store without touching `updated_at` changes only that store's average and keeps every constraint |
| RatingController.DeleteRatingKeepsAverages | backend/controllers/ratingController.js:135-164 | every delete request, refused or not, keeps every average current |
| RatingController.DeleteRatingOn | backend/controllers/ratingController.js:129-171 | the request against the live database gives the tables and reply `DeleteRating` states |
| RatingController.GetUserRatingsCorrect | backend/controllers/ratingController.js:70-89 | exactly the caller's ratings, each once with its store, newest created first |
| RatingController.GetStoreWithUserRatingCorrect | backend/controllers/ratingController.js:93-125 | a path id PostgreSQL cannot read as an `INTEGER` gives 500; otherwise 404 exactly for an absent store, and else that store and its ratings newest first: as many entries as the store has ratings, each a row of the ratings table for that store joined with its author, and every rating of the store among them; and, when the averages are current, the rounded mean of its ratings |
| Joins.JoinUsers | backend/models/Rating.js:76-77 | `JOIN users u ON u.id = r.user_id`: no more rows than ratings, each pairing a stored rating with its stored author |
| Joins.JoinStores | backend/models/Rating.js:50-51 | `JOIN stores s ON s.id = r.store_id`: no more rows than ratings, each pairing a stored rating with its stored store |
| Joins.JoinUsersComplete | backend/models/Rating.js:76-77 | when every rating has its author the join loses no rating and keeps their order |
| Joins.JoinStoresComplete | backend/models/Rating.js:50-51 | when every rating has its store the join loses no rating and keeps their order |
| Joins.JoinedWithUsers | backend/models/Rating.js:64-85 | the ratings passing the WHERE, joined with authors and sorted: sorted, one entry per such rating, each with its author |
| Joins.JoinedUsersKeeps | backend/models/Rating.js:76-79 | joining and sorting loses no rating |
| Joins.JoinedWithUsersAll | backend/models/Rating.js:76-79 | no rating passing the WHERE is missing from the sorted join |
| Joins.JoinedWithStores | backend/models/Rating.js:38-59 | the ratings passing the WHERE, joined with their stores and sorted: sorted, one entry per such rating, each with its store |
| Joins.JoinedStoresKeeps | backend/models/Rating.js:50-53 | joining and sorting loses no rating |
| Joins.JoinedWithStoresAll | backend/models/Rating.js:50-53 | no rating passing the WHERE is missing from the sorted join |
| Placeholders.CountCharAppend | backend/config/database.js:46 | the placeholders of a concatenation are those of its parts |
| Placeholders.MapPlaceholders | backend/config/database.js:44-50 | the loop over the query with its counter produces the left-to-right numbering `Rewrite` states |
| Placeholders.RewriteAppend | backend/config/database.js:45-49 | in a concatenation the numbering of the second part continues after the placeholders of the first |
| Placeholders.KthPlaceholder | backend/config/database.js:46-48 | the `?` that follows `k` earlier ones becomes `$(k+1)`, and the text around it is rewritten on its own |
| Placeholders.NoPlaceholderUnchanged | backend/config/database.js:46 | a query without `?` is passed through unchanged |
| Placeholders.TokenCounts | backend/config/database.js:48 | a token `$n` holds one `$` and no `?` |
| Placeholders.RewriteCounts | backend/config/database.js:44-50 | no `?` survives, and the output holds one more `$` for each `?` of the input |
| Permissions.AuthGuardCorrect | frontend/src/hooks/useAuth.js:23-36 | signed in exactly with a user and a token; with no roles listed the role holds and access is exactly being signed in; otherwise the role holds exactly for a signed-in user whose role is listed, and access needs both |
| Permissions.AdminOnlyCorrect | frontend/src/hooks/useAuth.js:47-69 | the user-management checks, deleting stores, the admin dashboard and `isAdmin` are allowed exactly to an administrator |
| Permissions.AdminMayDoAll | frontend/src/hooks/useAuth.js:45-72 | an administrator passes every check except those that name another role |
| Permissions.EditStoresCorrect | frontend/src/hooks/useAuth.js:55 | `editStores(o)` holds for an administrator or the store owner whose id is `o`, and for nobody else on a `null` id |
| Permissions.RatingPermissions | frontend/src/hooks/useAuth.js:53-61 | creating ratings is for users and administrators; editing and deleting one is for an administrator or its author, and the two agree; viewing stores is for everyone, signed in or not |
| Permissions.SignedOut | frontend/src/hooks/useAuth.js:45-72 | without a user only the open views pass, and the author checks on an `undefined` author, since `undefined === undefined` |
| ProtectedRoute.DecideCorrect | frontend/src/components/common/ProtectedRoute.jsx:6-22 | loading shows the spinner; otherwise the signed-out go to the login page, a signed-in user without a listed role goes home, and the page renders exactly when nothing is loading and the guard grants access |
| ProtectedRoute.AdminRoute | frontend/src/components/common/ProtectedRoute.jsx:17 | a route for `admin` renders only for a signed-in administrator once loading is over |
| RegisterForm.KeyCount | frontend/src/pages/auth/Register.jsx:118 | `Object.keys(errors).length`: at most five, and zero exactly when no field has a message |
| RegisterForm.ValidateForm | frontend/src/pages/auth/Register.jsx:76-119 | each field gets a message exactly when it fails its checks, and the message of the first check it fails; the form is valid exactly when no field has one |
| RegisterForm.CheckName | frontend/src/pages/auth/Register.jsx:80-84 | the name block sets the name's message exactly when the name fails, and nothing else |
| RegisterForm.CheckEmail | frontend/src/pages/auth/Register.jsx:87-91 | the email block sets the email's message exactly when the email fails, and nothing else |
| RegisterForm.CheckPassword | frontend/src/pages/auth/Register.jsx:94-101 | the password block sets the password's message exactly when the password fails, and nothing else |
| RegisterForm.CheckConfirm | frontend/src/pages/auth/Register.jsx:104-108 | the confirmation block sets its message exactly when the confirmation is empty or differs, and nothing else |
| RegisterForm.CheckAddress | frontend/src/pages/auth/Register.jsx:111-115 | the address block sets the address's message exactly when the address fails, and nothing else |
| RegisterForm.PasswordStrengthCorrect | frontend/src/pages/auth/Register.jsx:64-74 | the strength counts the requirements met, one each: 0..3, 3 exactly when all hold and 0 exactly when none does |
| RegisterForm.StrengthDisplay | frontend/src/pages/auth/Register.jsx:149-177 | the meter reads "Strong" in green exactly when all three requirements hold, and "Very Weak" in grey exactly when none does |
| RegisterForm.AcceptedPasswordIsStrong | frontend/src/pages/auth/Register.jsx:94-101 | a password the form accepts has strength 3 |
| RegisterForm.Payload | frontend/src/pages/auth/Register.jsx:131 | the payload is the form without `confirmPassword`, every other field as typed |
| RegisterForm.PayloadFields | frontend/src/pages/auth/Register.jsx:18-25 | the form sends exactly name, email, password, address and role, as typed |
| ClientRatings.Values | frontend/src/pages/ratings/MyRatings.jsx:142 | the star value of each rating, in order |
| ClientRatings.Distribution | frontend/src/pages/dashboard/StoreOwnerDashboard.jsx:46-52 | the `forEach` loop builds the tally of the ratings' values |
| ClientRatings.TallyCorrect | frontend/src/pages/ratings/MyRatings.jsx:145-146 | the keys are 1..5 and every value that occurs; each of 1..5 counts its ratings, and an entry outside 1..5 holds NaN (`undefined++`) |
| ClientRatings.TallySums | frontend/src/pages/dashboard/StoreOwnerDashboard.jsx:46-52 | for stars in 1..5 the keys are exactly 1..5 and the five counts add up to the number of ratings |
| ClientRatings.AverageCorrect | frontend/src/pages/dashboard/StoreOwnerDashboard.jsx:54-58 | 0 exactly for no ratings; otherwise the sum over all of them, within 1..5 for stars in 1..5 |
| MyRatings.OrderTotal | frontend/src/pages/ratings/MyRatings.jsx:71-86 | every choice of `sortBy`, the default included, orders any two ratings one way or the other |
| MyRatings.FilterAndSortRatings | frontend/src/pages/ratings/MyRatings.jsx:54-89 | the list shown is the ratings `Kept` selects, stably sorted in the chosen order: a permutation of them, sorted |
| MyRatings.Narrowings | frontend/src/pages/ratings/MyRatings.jsx:57-69 | the search narrowing and then the star narrowing keep exactly the ratings `Kept` selects, in their order |
| MyRatings.SearchStage | frontend/src/pages/ratings/MyRatings.jsx:57-64 | the search stage keeps everything for an empty term and otherwise filters by the lower-cased term |
| MyRatings.StarStage | frontend/src/pages/ratings/MyRatings.jsx:66-69 | the star stage keeps everything for `all` and otherwise filters by the parsed value |
| MyRatings.NoFilterKeepsAll | frontend/src/pages/ratings/MyRatings.jsx:55-66 | with no search term and the filter `all`, the list is a permutation of all the ratings |
| MyRatings.KeptCorrect | frontend/src/pages/ratings/MyRatings.jsx:57-69 | a search term keeps exactly the ratings whose store name or address contains it, both in lower case; a star filter `n` keeps exactly the ratings of value `n` |
| MyRatings.OrdersNamed | frontend/src/pages/ratings/MyRatings.jsx:72-82 | each order offered is the one it names: newest and oldest by creation time, highest and lowest by value, `store_name` by name |
| MyRatings.Find | frontend/src/pages/ratings/MyRatings.jsx:94 | an entry with the id, from the list, exactly when one exists |
| MyRatings.UpdateRatingCorrect | frontend/src/pages/ratings/MyRatings.jsx:92-112 | a request is sent exactly when the id is in the list; after it succeeds only the value of the entries with that id changes, order and other entries kept; a missing id or a failed request changes nothing |
| MyRatings.DeleteRatingCorrect | frontend/src/pages/ratings/MyRatings.jsx:115-126 | after a confirmed and successful removal no entry has the id, every other entry stays and nothing new appears; a refused confirmation or a failed request changes nothing |
| MyRatings.GetRatingStats | frontend/src/pages/ratings/MyRatings.jsx:138-149 | the count, the average and the distribution of all the ratings |
| MyRatings.StatsAgree | frontend/src/pages/ratings/MyRatings.jsx:145-146 | for stars in 1..5 the five buckets add up to the total; no ratings have average 0 |
| OwnerDashboard.NewerAll | frontend/src/pages/dashboard/StoreOwnerDashboard.jsx:62-64 | in a newer-first list each entry is at least as new as every later one |
| OwnerDashboard.RecentActivityCorrect | frontend/src/pages/dashboard/StoreOwnerDashboard.jsx:60-65 | at most five ratings, all of them when there are fewer, drawn from the list, newest first, and none left out is newer than any shown |
| OwnerDashboard.PrefixNewest | frontend/src/pages/dashboard/StoreOwnerDashboard.jsx:65 | a prefix of a newer-first list is sorted, drawn from the list, and no older than anything it leaves behind |
| OwnerDashboard.NeedsAttention | frontend/src/pages/dashboard/StoreOwnerDashboard.jsx:177 | `ratingDistribution[1] + ratingDistribution[2]` is the number of one- and two-star ratings |
| OwnerDashboard.LowCount | frontend/src/pages/dashboard/StoreOwnerDashboard.jsx:46-52 | the one- and two-star ratings are the occurrences of 1 and of 2 among the values |
| StoreFilters.HandleFilterChangeCorrect | frontend/src/components/stores/StoreFilters.jsx:31-34 | the new object holds the value at the key and every other key as before |
| StoreFilters.CountFlags | frontend/src/components/stores/StoreFilters.jsx:446-451 | `.filter(Boolean).length` counts the tests that hold |
| StoreFilters.ActiveFilterCountCorrect | frontend/src/components/stores/StoreFilters.jsx:446-451 | the count lies in 0..4, adds one per test that holds and is 0 exactly when none does; any count lights the active indicator, which a non-ascending sort order alone lights too |
| StoreFilters.ResetInactive | frontend/src/components/stores/StoreFilters.jsx:40-50 | after a reset nothing is active and nothing is counted |
| StoreFilters.QuickFilter | frontend/src/components/stores/StoreFilters.jsx:52-75 | each quick filter sets its own fields and sorts descending, an unknown one changes nothing, and every key it does not name keeps its value |
| StoreFilters.QuickFilterActive | frontend/src/components/stores/StoreFilters.jsx:52-75 | every quick filter leaves the indicator active, and "high rated" counts at least two filters |
| StoresPage.HandleSearchCorrect | frontend/src/pages/stores/Stores.jsx:43-49 | a search sets only the name filter, to the search box's text |
| StoresPage.HandleFilterChangeCorrect | frontend/src/pages/stores/Stores.jsx:51-54 | the panel's filters are taken whole, the panel closes, the search box stays |
| StoresPage.ClearFiltersCorrect | frontend/src/pages/stores/Stores.jsx:56-64 | clearing gives the initial filters and an empty search box from any state, keeps the panel as it is, and twice is once |
| StoresPage.InitialFiltersInactive | frontend/src/pages/stores/Stores.jsx:56-64 | the initial filters, which clearing restores, show nothing as active |
| StoresPage.FilteredStoresCorrect | frontend/src/pages/stores/Stores.jsx:66-74 | an empty search keeps the list; otherwise a store is shown exactly when its name, address or owner's name contains the term, both in lower case |
| StoresPage.MatchesShown | frontend/src/pages/stores/Stores.jsx:68-73 | the `includes` tests are occurrence tests |
| StoresPage.FilteredStoresOrdered | frontend/src/pages/stores/Stores.jsx:66-74 | the list shown keeps the stores' order, whatever the server sorted them by |
| UseApi.ErrorMessage | frontend/src/hooks/useApi.js:100 | never empty: the server's error when there is one, else the call's own message, else "An error occurred" |
| UseApi.Ceil | frontend/src/hooks/useApi.js:91 | `Math.ceil(a / b)`: the least `c` with `a <= c * b` |
| UseApi.PaginateCorrect | frontend/src/hooks/useApi.js:87-94 | the record holds the loaded page and the limit, a next page exactly below the page count and a previous one exactly past page 1; without a reported page count, just enough pages of `limit` rows to hold the reported total |
| UseApi.EmptyResultNoNext | frontend/src/hooks/useApi.js:91-92 | without a reported page count or total, the page count is 0 and no next page is offered from any page |
| UseApi.PaginatedApi.constructor | frontend/src/hooks/useApi.js:60-71 | no rows, page 1 with a limit of 10 and nothing counted, no load under way, no error, the initial parameters |
| UseApi.PaginatedApi.LoadData | frontend/src/hooks/useApi.js:73-106 | the request carries the parameters with the new ones over them, the page and the limit; on an answer page 1 replaces the rows and any other page appends, the pagination is recomputed and the parameters take in the new ones; a failure records its message and changes nothing else |
| UseApi.PaginatedApi.NextPage | frontend/src/hooks/useApi.js:108-112 | loads the following page exactly when there is one, and otherwise changes nothing and sends nothing |
| UseApi.PaginatedApi.PrevPage | frontend/src/hooks/useApi.js:114-118 | loads the preceding page exactly when there is one, and otherwise changes nothing and sends nothing |
| UseApi.PaginatedApi.SetLimit | frontend/src/hooks/useApi.js:133-135 | the new limit, back on page 1, nothing else changed |
| UseApi.PaginatedApi.Reset | frontend/src/hooks/useApi.js:137-149 | no rows, the initial pagination and parameters, no error |
| UseApi.HasMoreCorrect | frontend/src/hooks/useApi.js:204 | an empty page ends the scroll; otherwise a reported `hasNext` decides, and without it the page is compared with the reported page count, or with 10 |
| UseApi.InfiniteScroll.constructor | frontend/src/hooks/useApi.js:180-185 | no rows, page 1, more to come, no load under way, no error, the initial parameters |
| UseApi.InfiniteScroll.StartLoadMore | frontend/src/hooks/useApi.js:187-195 | nothing while a load is under way or when no more pages exist and this is no reset; otherwise the load is marked under way and page 1 on a reset, else the current page, is asked for with the current parameters |
| UseApi.InfiniteScroll.FinishLoadMore | frontend/src/hooks/useApi.js:196-214 | a reset replaces the rows and any other load appends them; whether more exist is `HasMore`'s; the next page is 2 after a reset and the one after the loaded page otherwise; a failure records its message; either way the load is over |
| UseApi.InfiniteScroll.Reset | frontend/src/hooks/useApi.js:228-234 | no rows, page 1, more to come, the initial parameters, no error |
| UseApi.InfiniteScroll.UpdateParamsAsWritten | frontend/src/hooks/useApi.js:221-226 | as written: the parameters take in the new ones and the scroll restarts, but the request sent is built from the parameters held before the call |
| UseApi.InfiniteScroll.UpdateParams | frontend/src/hooks/useApi.js:221-226 | corrected: the request for page 1 is built from the merged parameters |
| UseApi.StaleParamsExample | frontend/src/hooks/useApi.js:221-226 | from a fresh scroll, `updateParams({name: "pizza"})` as written sends only `{page: 1}` while the hook holds the new name |
| UseApi.UpdatedParamsExample | frontend/src/hooks/useApi.js:221-226 | with the correction the same call sends the name with page 1 |
| UseApi.NoOverlappingLoads | frontend/src/hooks/useApi.js:188 | a second `loadMore` started before the first has answered sends no request |

## Left out

- **Infrastructure.**
  - PostgreSQL, the `pg` pool and the SQL text are not modelled. Each statement is the function it computes over the tables, and statements run one at a time.
  - Concurrent requests and their interleavings are left out; the model is sequential.
  - Logging and `console.error` are left out. They change no state.
- **Foreign calls.**
  - bcrypt is an idealised hash that keeps the password, so exactly the right password compares equal.
  - JWT signing and verification are a map from tokens to user ids. The issued claims carry the 24-hour lifetime, and `SignedAs` states that the map answers for a token as its claims do at the given second. The signature itself and the token's text encoding are not modelled.
  - express-validator's `isEmail` is a predicate parameter, since its internals are foreign. The `validationResult` plumbing is modelled only as the list of field errors.
- `AuthController.Register` and `UserController.CreateUser`: a `name`, `email` or `address` missing from the body is read as the empty text, and the insert goes ahead. The program passes the body value on, and a `NULL` in a `NOT NULL` column (backend/config/database.js:69-72) is refused with 500. The name and email rules of the validation chain refuse a missing name or email before that. For a missing address the outcome rests on express-validator's `trim()` sanitizer, which is not modelled.
- `Guards.HandleValidationErrors`: each entry of the 400 reply's `details` carries the error's field and message but not its `value`. That value is the field as the chain's own sanitizers (`trim()` and the string conversion) left it, and those sanitizers are not modelled.
- **Representation.**
  - The tables are sequences in insertion order, not the map of rows a key-value store would suggest. A query without `ORDER BY` is modelled as returning rows in that order. `Store.findByOwnerId` is one such query, and `getStoreOwnerDashboard`'s "first store" is then the earliest inserted.
  - Path ids (`/getStoreById/:id`, `/store/rating/:storeId`, `/deleteRating/:ratingId`, `/getUserById/:id`) are read as PostgreSQL reads an `INTEGER` parameter: an optionally signed decimal within 32 bits, else 500. The surrounding white space PostgreSQL also accepts is not modelled.
  - Dates are integers. `new Date(...)` and `toLocaleDateString` are not modelled.
  - Averages are integer hundredths. `AVG` is modelled as the exact mean; PostgreSQL's internal scale is far finer than two decimals.
  - JavaScript numbers in request bodies are integers, fractions known by their floor, the two infinities, or NaN. Arithmetic on fractions is not modelled.
  - `Number` on a string reads the literal's exact value. The rounding of a double to 53 significant bits, and its overflow to `Infinity` (as for `"1e400"`), are not modelled.
  - `!==` on two NaN or two fractional values is not modelled.
  - Arrays and nested objects in request bodies and query strings are not modelled.
  - `TextOf` gives the text a rule sees for a non-string value. It is the string for strings, `true`/`false` for booleans and the decimal spelling for integers; anything else reads as empty.
- **Floats and display.**
  - `toFixed(1)` (MyRatings.jsx, StoreOwnerDashboard.jsx) and `toFixed(2)` (ratingController's `getStoreWithUserRating`) are not modelled. The client averages are the exact quotient `sum / count`.
  - PostgreSQL `numeric` values arrive at the client as strings. So do `COUNT` results, which are `bigint`: the `total_ratings` that `submitRating` answers with (backend/controllers/ratingController.js:27 and :32), and that of backend/models/Store.js:45, :71 and :133. This string-versus-number distinction of `store_rating`, `average_rating` and `total_ratings` is not modelled.
- **Text.**
  - Lower-casing is ASCII only.
  - `localeCompare` and the database collation are code-point order. This includes the `store_name` sort of MyRatings.jsx.
  - There is no Unicode normalisation.
  - `isLength` counts code points and JavaScript's `.length` counts UTF-16 code units. Both are modelled, and the lemmas about them restrict to the Basic Multilingual Plane where needed.
- **Sorting.**
  - The client sorts are modelled on sequences, as a stable insertion sort. Every client sort sorts a fresh copy (`[...ratings]` or the result of `filter`), so sorting it in place is not modelled. `ORDER BY` ties are broken by table order.
  - The interpolation of `sortBy` into the SQL text of `Store.findAll`, and any injection through it, is not modelled. A `sortBy` naming no output column is the query error it causes.
  - `getAllUsers` passes `sortBy`/`sortOrder` to `User.getAllUsers`, whose query never reads them and has no `ORDER BY`. The list is modelled in table order.
- **Frontend.**
  - The base `useApi` hook (`execute`/`reset`, frontend/src/hooks/useApi.js lines 9-51) is outside the modelled core.
  - React effects are not modelled. This covers the limit effect of `usePaginatedApi` and the loading effects of the pages. React's batching of state updates is not modelled either; each callback's updates apply in order.
  - `usePaginatedApi.goToPage`, `refresh` and `updateParams`, and `useInfiniteScroll.refresh`, are not modelled separately. Each is a `LoadData` or `StartLoadMore` with the given page and parameters.
  - Page counts, totals and `hasNext` in the hooks' responses are integers or booleans. A NaN total is not modelled.
  - After recording a failed request, `loadData` and `loadMore` rethrow the error (`throw err`, frontend/src/hooks/useApi.js:102 and :211). The model records the error and stops; what the caller does with the rethrown error is not modelled.
  - All JSX rendering, the axios service wrappers, `useLocalStorage`, `AuthContext` and timers are outside the modelled core.
- **Contracts deliberately weaker than the source.**
  - `UserModel.Create`: a failed `INSERT` (an e-mail already taken, a value too long for its column) leaves the user counter where it was. PostgreSQL's `SERIAL` default has already drawn the next id by then, so after such a failure the model hands later users lower ids than the program.
  - `StoreModel.Create`: the same for a failed store insert (an e-mail already taken, a missing owner, a value too long for its column) and the store counter.
  - `UseApi.PaginatedApi.SetLimit`: requires a positive limit. The hook accepts any value, and a limit of 0 or less would make the next `Math.ceil(total / limit)` infinite or negative, which integers cannot represent.
- **Other.**
  - The HTTP wiring in `backend/index.js` and the route files is not modelled. The one exception is `GET /api/stores/getAllStores` (backend/routes/stores.js:23-30), whose chain of `sanitizeInput`, `validateQueryParams`, `validatePagination` and `getAllStores` is composed in `routes.dfy`. The other routes' middleware chains are not composed; each guard and each controller is modelled on its own.

## Findings

| source | as written | input that shows it | evidently intended | confidence | as-written member | corrected member |
|---|---|---|---|---|---|---|
| backend/models/Store.js:99 | `validateQueryParams` accepts `sortOrder` in any case (backend/middleware/validation.js:25), but `findAll` sorts ascending only for the exact string `asc` | `GET /api/stores/getAllStores?sortBy=name&sortOrder=ASC` passes the guard and lists the stores by name descending | an accepted `ASC` sorts ascending, as the guard's case-insensitive check implies | high; not executed | StoreRoutes.UpperAscListedDescending | StoreRoutes.UpperAscListedAscendingFixed |
| backend/controllers/storeController.js:19-22 | the duplicate check searches with `findAll({ name })`, an `ILIKE '%name%'` in which a backslash escapes the next character, so a name holding `\` does not find itself | a store named `a\b` exists, and a second store named `a\b` with another email is created | any store with the same name, ignoring case, is found and the request answers 400 | high; not executed | StoreController.BackslashNameRepeats | StoreController.CreateStoreCheckedCorrect |
| backend/controllers/storeController.js:19-22 | the email half of the duplicate test runs only over the stores whose name contains the new name | a store `abc` / `shop@mail.com` exists, and `createStore` is called for a store `xyz` / `shop@mail.com`: the check passes, the insert breaks `UNIQUE (email)`, and the reply is 500. On `POST /api/stores/create-store` the guard `validateUniqueEmail("store")` (backend/routes/stores.js:48) runs first and answers 400 "store with this email already exists" (StoreRoutes.SameEmailRouteGuard), so the defect shows only where the controller is reached without that guard | the controller finds a store with the same email and answers 400 "Store already exists with this name or email" | medium: masked on the route by the e-mail guard; not executed | StoreController.SameEmailOtherName | StoreController.CreateStoreCheckedCorrect |
| frontend/src/hooks/useApi.js:221-226 | `updateParams` calls the `loadMore` of the render before, which still sees the old parameters | a fresh infinite scroll with no parameters, then `updateParams({ name: "pizza" })`: the request sent is `{ page: 1 }` although the hook now holds the name | the first page is requested with the merged parameters | high; not executed | UseApi.StaleParamsExample | UseApi.InfiniteScroll.UpdateParams |
