# Reviews backend: a verified model

This project models the core of a small review service written in Python
(FastAPI, SQLAlchemy, Argon2, python-jose, Gemini). Users register with an
email and password and log in for a bearer token. With that token they post
product reviews. Each review is labelled `positivo`, `negativo` or `neutro`
from a language model's reply. Anyone can list the reviews of a product,
newest first.

The model has one module per source file, plus two helper modules:

- `Wrappers` holds `Option` and `Result`.
- `Text` holds the Python `str` operations the core relies on: `isspace`,
  `strip()`, `split()`, `lower()` and substring `in`. Its definitions without
  a row below (`IsSpace`, `AllSpace`, `NoSpace`, `LowerChar`, `OccursAt`,
  `Span`, `SpanBack`) are these primitives themselves or their building blocks.
- `Models` (`app/models.py`) holds the `User` and `Review` rows, the declared
  length of `sentimiento` and the uniqueness predicate on emails.
- `Schemas` (`app/schemas.py`) parses request bodies into records or into the
  field errors of a 422 answer. It also holds `TokenOut`, `ReviewOut` and the
  conversion of a stored review into `ReviewOut`.
- `Security` (`app/security.py`) holds password truncation, hashing and
  verification, and token issue and decode. Argon2 and the JWT library are
  records of functions passed in as parameters. The properties the model
  relies on are stated as predicates: `Sound` (a hash verifies against its
  own password), `Faithful` (a signed payload decodes to itself) and
  `Compact` (an issued token is non-empty and free of whitespace).
- `Sentiment` (`app/gemini_client.py`) maps the model's raw reply to a label.
- `Crud` (`app/crud.py`) holds `Store`, a class whose `users` and `reviews`
  sequences stand in for the two tables. The inserts are methods that append
  to them. The queries are functions that read them.
- `Api` (`app/main.py`) holds the handlers as compositions of the above, and
  `Session`, the whole register, login, post and list walk.

Inputs the source gets from outside are parameters. These are the clock
(`now`, whole seconds), the salt of a new hash, the classifier's reply and
the email-address checker behind `EmailStr`.

Worth noting about the code:

- A duplicate registration is answered with 400 "Email ya registrado", not
  with a conflict status.
- A failed login is answered with 400 "Credenciales inválidas", not with 401.
- A token without `sub` fails with its own message "Token sin 'sub'.". It is
  not folded into the invalid-token case, though it still answers 401.
- The order of reviews with equal timestamps is not promised by the query.

## Model

| member | source | states |
|---|---|---|
| `Text.Strip` | app/gemini_client.py:25 | the stripped string is empty exactly when the input is all whitespace, otherwise it begins and ends with a non-space |
| `Text.ContainsStrip` | app/gemini_client.py:25-27 | a non-empty word without whitespace occurs in `s.strip()` exactly when it occurs in `s` |
| `Text.Lower` | app/gemini_client.py:25 | `lower()` keeps the length and the whitespace positions and leaves no upper-case ASCII letter |
| `Text.Contains` | app/gemini_client.py:27-31 | the `in` test: the empty string is in every string, a longer string is in none, and a string is in itself |
| `Text.Words` | app/main.py:77 | every word `split()` yields is non-empty and free of whitespace |
| `Text.WordsOfTwo` | app/main.py:77-78 | `split()` of two words with whitespace between and around them is exactly those two words |
| `Sentiment.LabelOf` | app/models.py:27 | a stored string names a label exactly when it is one of the three words, and then it is that label's text |
| `Sentiment.LabelRoundTrip` | app/gemini_client.py:27-33 | each label's text reads back as that label |
| `Sentiment.Pick` | app/gemini_client.py:27-33 | the first matching word wins: positive exactly when "positivo" occurs, negative exactly when "negativo" occurs without it, neutral otherwise, so the "neutro" test decides nothing |
| `Sentiment.Classify` | app/gemini_client.py:25-33 | a missing reply counts as empty, and stripping never changes the label: the label is the first match in the lower-cased reply |
| `Sentiment.PositiveWins` | app/gemini_client.py:27-28 | a reply containing "positivo" in any case is positive, whatever else it contains |
| `Sentiment.NegativeNext` | app/gemini_client.py:29-30 | a reply containing "negativo" but not "positivo" is negative |
| `Sentiment.NeutralOtherwise` | app/gemini_client.py:31-33 | a reply containing neither "positivo" nor "negativo" is neutral |
| `Sentiment.NoReplyIsNeutral` | app/gemini_client.py:25 | a missing reply and an empty reply are neutral |
| `Sentiment.ClassifyIgnoresCase` | app/gemini_client.py:25 | replies equal up to case get the same label |
| `Sentiment.ClassifyIgnoresPadding` | app/gemini_client.py:25 | whitespace around the reply does not change its label |
| `Sentiment.ExactLabel` | app/gemini_client.py:25-32 | a reply that is one label word in any case yields that label |
| `Security.Truncate` | app/security.py:29 | the result is a prefix of the password, of its full length up to 128 and of length 128 beyond |
| `Security.TruncateLong` | app/security.py:21-29 | a password of 128 characters or more is cut to exactly its first 128 |
| `Security.VerifyPassword` | app/security.py:32-43 | the answer is true exactly when the library verifies the stored hash against the truncated candidate, a missing candidate counting as empty |
| `Security.HashPassword` | app/security.py:23-30 | the hash is of the password itself when it has at most 128 characters, and of its first 128 characters otherwise |
| `Security.HashUsesPrefix` | app/security.py:21-30 | two passwords sharing their first 128 characters get the same hash for the same salt |
| `Security.VerifyUsesPrefix` | app/security.py:37-38 | two candidates sharing their first 128 characters verify alike against any hash |
| `Security.VerifyNoneIsEmpty` | app/security.py:37 | a missing candidate verifies like the empty string |
| `Security.VerifyNeverRaises` | app/security.py:36-43 | a mismatch, a malformed hash or any other library failure gives false |
| `Security.HashThenVerify` | app/security.py:23-43 | for a sound hasher, a password verifies against its own hash, whatever its length |
| `Security.LongPasswordsCollide` | app/security.py:21-38 | two long passwords with the same first 128 characters each verify against the other's hash |
| `Security.ExpireMinutes` | app/security.py:55 | no TTL argument or a TTL of 0 gives the default of 60 minutes; any other value is used as given |
| `Security.AccessClaims` | app/security.py:55-60 | the claims are `sub` = subject, `iat` = issue time and `exp` = issue time plus the TTL in minutes |
| `Security.CreateAccessToken` | app/security.py:51-61 | a faithful codec decodes the token back to exactly its claims: `sub`, `iat` and `exp` |
| `Security.JoseDecode` | app/security.py:69 | an undecodable token is an error; a decodable one whose `exp` lies before `now` is expired; otherwise its claims are returned |
| `Security.DecodeToken` | app/security.py:63-77 | the subject is returned exactly for a valid, unexpired token with a non-empty `sub`; otherwise the failure is expired, invalid or missing `sub`, each characterised exactly |
| `Security.DecodeAccessToken` | app/security.py:80-81 | behaves exactly as `decode_token` |
| `Security.Message` | app/security.py:72-77 | each fixed message belongs to exactly one error; only the invalid-token message starts with "Token inválido: ", followed by the library's reason |
| `Security.MessagesDistinct` | app/security.py:72-77 | the expiry, missing-subject and invalid-token messages differ from one another |
| `Security.IssueThenDecode` | app/security.py:51-77 | a token for a non-empty subject, read back no later than its `exp`, decodes to that subject |
| `Security.ExpiredAfterTtl` | app/security.py:74-75 | a token read back after its TTL fails as expired, never as invalid |
| `Security.EmptySubjectRejected` | app/security.py:70-72 | an unexpired token issued for the empty subject fails with the missing-`sub` error |
| `Security.DefaultTtlIsOneHour` | app/security.py:49-58 | with the default TTL a token is accepted one hour after issue and expired one second later |
| `Schemas.ParseRegisterIn` | app/schemas.py:9-11 | a registration is accepted exactly when the email checks and the password has at least 6 characters; each failing field is reported |
| `Schemas.ParseReviewCreate` | app/schemas.py:21-23 | a review body is accepted exactly when `producto` and `texto_resena` are non-empty; each failing field is reported |
| `Schemas.TokenTypeDefault` | app/schemas.py:14-16 | `token_type` defaults to "bearer" |
| `Schemas.ToReviewOut` | app/schemas.py:26-35 | a stored review serialises exactly when it has an author, and then it carries exactly the six fields of the review |
| `Crud.FirstWithEmail` | app/crud.py:13 | a user found has the given email and is stored; none is found exactly when no stored user has that email |
| `Crud.OfProduct` | app/crud.py:70 | a review is kept exactly when it is stored and its product equals the argument |
| `Crud.OfProductCounts` | app/crud.py:70 | the filter keeps every copy of a review of the product and no copy of a review of another product |
| `Crud.InsertNewestFirst` | app/crud.py:71 | inserting into a newest-first list keeps it newest first and adds exactly one copy of the review |
| `Crud.SortNewestFirst` | app/crud.py:71 | the result is newest first and a permutation of the input |
| `Crud.ListingExample` | app/crud.py:64-73 | reviews of a product stored at t1 < t2 < t3, with one of another product among them, are listed as t3, t2, t1 |
| `Crud.Store.constructor` | app/models.py:7-32 | a new store is empty and meets the table constraints |
| `Crud.Store.FindByEmail` | app/crud.py:11-13 | a user found has the given email and is stored; none is found exactly when no stored user has that email |
| `Crud.Store.FindByEmailIsTheUser` | app/models.py:11 | with unique emails, looking up a stored user's email finds that very user |
| `Crud.Store.CreateUser` | app/crud.py:16-25 | a new email is stored with the hash of the password under the next id, other rows unchanged; a stored email fails on the unique constraint and changes nothing |
| `Crud.Store.Authenticate` | app/crud.py:28-37 | the stored user is returned exactly when the email is found and the password verifies against its hash; otherwise nothing |
| `Crud.Store.StoredUserAuthenticates` | app/crud.py:34-37 | a user stored with the hash of a password authenticates with that password |
| `Crud.Store.AuthenticateFailsAlike` | app/crud.py:34-36 | an unknown email and a wrong password both give no user |
| `Crud.Store.CreateReview` | app/crud.py:42-61 | one review with exactly the given fields, the next id and the insertion time is appended; nothing else changes |
| `Crud.Store.ReviewsByProduct` | app/crud.py:64-73 | the listing holds every stored review of the product and no other, with as many copies of each as the table, newest first |
| `Crud.Store.ListedOnce` | app/crud.py:64-73 | since row ids are distinct, a listing holds each stored review of the product exactly once and nothing else |
| `Api.LabelsFitColumn` | app/models.py:27 | every label fits the 20-character `sentimiento` column |
| `Api.Register` | app/main.py:40-47 | an invalid body gets 422; a registered email gets 400 "Email ya registrado" and no user; otherwise exactly one user is added; the API invariant is kept |
| `Api.Login` | app/main.py:50-61 | login fails exactly when authentication does, always with 400 "Credenciales inválidas"; success gives a bearer token for the email |
| `Api.LoginFailsAlike` | app/main.py:56-58 | an unknown email and a wrong password get the identical answer |
| `Api.RegisteredUserLogsIn` | app/main.py:56-61 | a user stored with the hash of a password logs in with it |
| `Api.LoginTokenNamesUser` | app/main.py:60-61 | the login token decodes to the email for the whole of its hour |
| `Api.GetCurrentEmail` | app/main.py:66-92 | every failure is 401; a missing or empty header is "Falta header Authorization"; success means two words, the first "bearer" in any case, and the second decodes to the email |
| `Api.MalformedHeader` | app/main.py:77-82 | a header that is not two words starting with "bearer" gets 401 "Formato de Authorization inválido" |
| `Api.WellFormedHeader` | app/main.py:77-92 | a well-formed bearer header gives the token's subject, or 401 carrying the decode message |
| `Api.LoginThenAuthorize` | app/main.py:60-92 | "Bearer " followed by a fresh login token authorises as the logged-in email |
| `Api.CrearReview` | app/main.py:97-117 | a failed authorisation or an invalid body stores nothing; otherwise one review is stored with the classifier's label and the caller's email, and returned; the API invariant is kept |
| `Api.SerializeAll` | app/main.py:122-129 | a list serialises exactly when each review has an author, element by element |
| `Api.ListReviews` | app/main.py:122-129 | the answer is the store's listing for the product, element by element as response bodies |
| `Api.ListReviewsSucceeds` | app/main.py:128-129 | when every stored review has an author, listing never fails |
| `Api.ListingOfOneReview` | app/main.py:122-129 | a store holding one authored review of a product lists exactly that review |
| `Api.RegisterAndLogin` | app/main.py:40-61 | after registering, a login with a wrong password gets 400 "Credenciales inválidas", and after logging in the bearer header authorises as that email |
| `Api.Session` | app/main.py:40-129 | after registering, a wrong-password login gets 400 "Credenciales inválidas"; after logging in, a review without a header gets 401 "Falta header Authorization"; with the bearer header it is stored as positive under the caller's email, and the product's listing is exactly that review |

## Left out

- app/database.py is not modelled: the engine, the session factory and the
  `get_db` generator are plumbing. The store starts empty.
- Application setup, table creation, CORS and `/health` (app/main.py:13-35)
  are framework configuration.
- The Gemini call, its prompt and the API-key check at start-up
  (app/gemini_client.py:8-24) are a remote call. The reply is a parameter.
  A reply whose `text` raises is not modelled. Nor is an exception from
  `generate_content` itself, after which `crear_review` answers 500 and
  stores nothing. `Api.CrearReview` always receives a reply and stores a
  review once the header and body are accepted.
- Argon2 and JWT are abstract. There is no cryptography, salt generation,
  cost parameters or signature check.
- A wrong password failing verification is not derived from Argon2; it is an
  assumption. The methods `Api.RegisterAndLogin` and `Api.Session` require
  that "wrong1" does not verify against the hash of "secret1".
- The shape of an issued token is assumed, not derived. `Api.LoginThenAuthorize`
  requires the login token to be non-empty and free of whitespace, as a
  compact JWS is. `Api.RegisterAndLogin` and `Api.Session` require
  `Security.Compact`, which says this of every token the codec issues.
- `EmailStr` validation is an abstract checker that returns the normalised
  address.
- Environment configuration (`.env`, `SECRET_KEY`, `ALGORITHM`,
  `DATABASE_URL`) is not modelled. The TTL is fixed at its default of 60.
- `Text.LowerChar` folds only A to Z. Python's full Unicode lower-casing is
  not modelled.
- The conversion of a non-string password with `str()` (app/security.py:27-28)
  is not modelled, because the model's passwords are strings.
- `Crud.Store.CreateUser` models only the sequential unique-constraint
  rejection. The concurrent check-then-insert race is enforced by the
  database.
- Column lengths and the foreign key on `usuario_email` are not enforced, as
  SQLite does not enforce them by default. The model does not reject long
  values or unknown authors.
- The library's other claim checks, such as `nbf` and the types of `iat` and
  `sub`, are not modelled. Only `exp` is checked, with no leeway.
- `Security.AccessClaims` uses one clock reading for `iat` and `exp`, where
  the source reads the clock twice.
- Timestamps are whole seconds, not `datetime` values.
- `Crud.Store.ReviewsByProduct` promises only newest-first order and the
  exact contents. `Crud.SortNewestFirst` is one ordering the database may
  return; the source does not fix the order of equal timestamps.
- Of the login form's fields, only `username` and `password` are modelled.
- Database failures other than the unique constraint are not modelled. In
  the source they surface as server errors.
- `Api.CrearReview` checks the `Authorization` header before the body. That
  order is the framework's, since dependencies are resolved first.
