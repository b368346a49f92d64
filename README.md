# MealcraftAI backend: authentication routes and reply classifier

This project is a Dafny model of the two pieces of logic in the MealcraftAI backend.

- **Authentication routes** (`backend/app/api/v1/auth/auth.py`):
  - `/register` checks whether a user document with the email already exists. If not, it inserts a document holding the email and the hashed password.
  - `/login` fails in the same way for an unknown email and for a wrong password. On success it issues a bearer token whose `sub` claim is the email.
  - `create_access_token` copies the caller's claims and adds `exp = now + delta`. The delta defaults to `ACCESS_TOKEN_EXPIRE_MINUTES`, which itself defaults to 60.
  - `get_current_user` and `/users/me` turn three different failures into one 401 with `WWW-Authenticate: Bearer`: a token that does not decode, a token without a `sub`, and an unknown subject.
- **`/respond` handler** (`backend/app/api/v1/ai.py`):
  - It fails with 500 when the API key is unset or empty.
  - It strips the model's reply.
  - It labels the reply `recipe`, `suggestion` or `text` by keyword substring matching on the lower-cased text, with recipe keywords taking priority.

Neither router is mounted by `backend/app/main.py:27`; the model describes them as written.

Files:
- `http.dfy` (module `Http`): `Option`, and `Result`, which is a response body or the `HTTPException` raised.
- `text.dfy` (module `Text`): the ASCII behaviour of `str.lower()`, `str.strip()` and the substring test `w in s`.
- `ai.dfy` (module `Ai`): the classifier and the `/respond` envelope.
- `auth.dfy` (module `Auth`): the user collection, the routes and the token claims.

Modelling choices:
- **Collaborators.** Password hashing and verification, token encoding and token decoding are function-typed fields of `Auth.AuthContext`. The model therefore assumes nothing about them. `decode` returns `None` whenever the token library would raise `JWTError`: a bad signature, a malformed token, or an expired token.
- **User collection.** The `users` collection is a sequence of documents in insertion order, held by the class `Auth.UserCollection`. `find_one` returns the first document with a matching email. Because of this, "at most one document per email" (`UniqueEmails`) is a real invariant that registration has to keep, not a property of the data structure.
- **Time.** Times and deltas are integers in seconds. `now` stands for `datetime.utcnow()`.
- **`expires_delta or ...` in `create_access_token`.** This is modelled as Python evaluates it: a zero `timedelta` is false, so a zero delta falls back to the default lifetime, just as an absent one does.
- **`sub` of the wrong type.** A `sub` claim that is present but not a string never reaches the lookup at `auth.py:71`. The token library's `jwt.decode` (`auth.py:64`) rejects it with a claims error, which is a `JWTError` and is caught at `auth.py:68-69`. The model therefore lets the abstract `decode` stand for that check, and `Subject` treats such a claim like a missing `sub`: the same 401.
- **Uniqueness and expiry.** `insert_one` (`auth.py:90`) is unconditional, so at most one document per email rests only on the existence check at `auth.py:83-86`; the model proves that this check keeps the invariant in any sequential run. The `exp` claim is checked inside `jwt.decode` (`auth.py:64`), which the model folds into the abstract `decode`.

## Model

| member | source | states |
|---|---|---|
| `Text.LowerChar` | backend/app/api/v1/ai.py:45 | lower-casing one ASCII character never yields an upper-case letter, shifts `A`-`Z` by 32, keeps everything else, and keeps whitespace as whitespace |
| `Text.Lower` | backend/app/api/v1/ai.py:45 | `lower()` keeps the length and lower-cases each character in place |
| `Text.LowerIdempotent` | backend/app/api/v1/ai.py:45 | lower-casing an already lower-cased text changes nothing |
| `Text.Contains` | backend/app/api/v1/ai.py:46 | `w in s` is true exactly when `w` occurs in `s` as a contiguous substring (always, for the empty word) |
| `Text.StripBounds` | backend/app/api/v1/ai.py:40 | `strip()` keeps one contiguous slice; everything outside it is whitespace, and the slice neither starts nor ends with whitespace |
| `Text.Strip` | backend/app/api/v1/ai.py:40 | the stripped reply is that slice of the reply, no longer than the reply, with no whitespace at either end |
| `Text.StripIdempotent` | backend/app/api/v1/ai.py:40 | stripping a stripped text changes nothing |
| `Text.OccursLowerStrip` | backend/app/api/v1/ai.py:40-45 | a word without whitespace occurs in the lower-cased stripped text exactly when it occurs in the lower-cased raw text |
| `Ai.AnyIn` | backend/app/api/v1/ai.py:46 | `any(word in text for word in words)` is true exactly when some listed word occurs in the text |
| `Ai.Classify` | backend/app/api/v1/ai.py:44-51 | the label is `recipe` iff a recipe keyword occurs in the lower-cased reply; `suggestion` iff no recipe keyword occurs but "suggest" or "recommend" does; `text` iff none of the five occurs |
| `Ai.RecipeWins` | backend/app/api/v1/ai.py:45-47 | any recipe keyword in the reply gives `recipe`, whatever other keywords appear |
| `Ai.LabelNames` | backend/app/api/v1/ai.py:46-51 | the envelope's label is always "recipe", "suggestion" or "text" |
| `Ai.ClassifyIgnoresCase` | backend/app/api/v1/ai.py:45 | a reply and its lower-cased form get the same label |
| `Ai.CookingIsRecipe` | backend/app/api/v1/ai.py:46-47 | matching is by substring: "Cooking" is labelled `recipe` |
| `Ai.RecommendationIsSuggestion` | backend/app/api/v1/ai.py:48-49 | matching is by substring: "recommendation" holds no recipe keyword and is labelled `suggestion` |
| `Ai.ClassifyStrip` | backend/app/api/v1/ai.py:40-51 | the stripped reply gets the same label as the raw reply |
| `Ai.Respond` | backend/app/api/v1/ai.py:20-59 | fails with 500 "OpenAI API key not configured" exactly when the key is unset or empty; otherwise `content` is the stripped reply, with no whitespace at either end, and `type` is the label of the reply |
| `Ai.KeyCheckedBeforeCall` | backend/app/api/v1/ai.py:22-23 | without a key, the outcome does not depend on the completion service: the guard fires before any call |
| `Auth.ExpiryDelta` | backend/app/api/v1/auth/auth.py:49 | a non-zero explicit delta is used as given; an absent or zero delta means the configured lifetime, which is 3600 seconds when the setting is unset |
| `Auth.AccessTokenClaims` | backend/app/api/v1/auth/auth.py:47-50 | the signed claims are the caller's claims plus `exp`, with every other claim unchanged and `exp = now + delta` |
| `Auth.ExpireMinutes` | backend/app/api/v1/auth/auth.py:16 | the token lifetime is the `ACCESS_TOKEN_EXPIRE_MINUTES` setting when present and 60 minutes otherwise |
| `Auth.CreateAccessToken` | backend/app/api/v1/auth/auth.py:47-52 | the token is the signature over exactly the copied claims plus `exp`, no more and no less |
| `Auth.FindUser` | backend/app/api/v1/auth/auth.py:54-55 | the lookup finds nothing exactly when no document has the email; otherwise it returns the first document with that email |
| `Auth.FindAppend` | backend/app/api/v1/auth/auth.py:88-90 | after an insert, a lookup changes only for an email that no earlier document had |
| `Auth.RegisterStep` | backend/app/api/v1/auth/auth.py:83-90 | a known email leaves the collection unchanged; a fresh one appends exactly one document holding the email and `hash(password)`; the email is then found; lookups of other emails do not change; at most one document per email is kept |
| `Auth.UserCollection.InsertOne` | backend/app/api/v1/auth/auth.py:90 | `insert_one` appends the document after the existing ones |
| `Auth.RegisterUser` | backend/app/api/v1/auth/auth.py:80-92 | a taken email gives 400 "Email already registered" with the collection unchanged; otherwise exactly one document `(email, hash(password))` is appended and the answer holds only the email; at most one document per email is kept |
| `Auth.RegisterAllKeepsUnique` | backend/app/api/v1/auth/auth.py:83-90 | any sequence of registrations keeps at most one document per email and leaves every requested or earlier email findable |
| `Auth.RegisterTwice` | backend/app/api/v1/auth/auth.py:83-86 | registering an email a second time finds the first document, leaves the collection as it was, and keeps one document for the email |
| `Auth.LoginUser` | backend/app/api/v1/auth/auth.py:94-105 | fails with 400 "Incorrect email or password" exactly when the email is unknown or the password does not verify against the stored hash; otherwise returns a "bearer" token signed over `{sub: email, exp}` |
| `Auth.LoginClaims` | backend/app/api/v1/auth/auth.py:103 | a login token carries exactly `sub` (the email) and `exp` (now plus the configured lifetime) |
| `Auth.LoginFailuresAlike` | backend/app/api/v1/auth/auth.py:97-101 | an unknown email and a wrong password give the identical failure |
| `Auth.RegisterThenLogin` | backend/app/api/v1/auth/auth.py:88-105 | if `verify(p, hash(p))` holds, logging in right after registering a fresh email succeeds with a token for that email |
| `Auth.Subject` | backend/app/api/v1/auth/auth.py:65-67 | a decoded payload has a subject exactly when its `sub` claim is present and a string, and then the subject is that string |
| `Auth.TokenSubject` | backend/app/api/v1/auth/auth.py:63-69 | a token yields no subject exactly when it does not decode or its payload has no string `sub`; otherwise the subject is the decoded `sub` |
| `Auth.GetCurrentUser` | backend/app/api/v1/auth/auth.py:57-74 | fails with 401 "Could not validate credentials." and `WWW-Authenticate: Bearer` exactly when the token does not decode, has no string `sub`, or names an email with no document; otherwise returns a stored document whose email is the token's subject |
| `Auth.ReadUsersMe` | backend/app/api/v1/auth/auth.py:116-118 | succeeds exactly when the identity lookup does, and returns only the subject's email (a stored user's), never the hash; failures are the same 401 |
| `Auth.LoginThenMe` | backend/app/api/v1/auth/auth.py:103-118 | a login token that still decodes to its signed claims makes `/users/me` return the email that logged in |

## Left out

- Auth.ExpiryDelta: does not model the range limit of Python's datetime arithmetic. `datetime.utcnow() + timedelta(minutes=...)` (`auth.py:49`) raises `OverflowError` when the expiry would pass year 9999 (a lifetime of roughly 4·10^9 minutes or more), and `timedelta` itself overflows past 999999999 days. The model computes an expiry for every integer lifetime.
- Auth.LoginUser: for the same reason, a lifetime that large makes every login end in an uncaught 500 in the source, while the model issues a token.
- Password hashing (bcrypt through passlib) is an arbitrary function, and bcrypt's random salt is not modelled. Nothing is proved about hashes beyond what a lemma assumes, for example `verify(p, hash(p))` in `Auth.RegisterThenLogin`. A malformed stored hash, which makes `verify` raise, is not modelled.
- Token signing with the secret and algorithm, and the token library's checks of signature, format and `exp`, are inside the abstract `encode`/`decode`. The model therefore does not say when a token expires. "A token verifies before its lifetime runs out" is a property of the library and is not proved.
- The document store: the connection lifecycle, the `_id` field of stored documents, and the race between the existence check and `insert_one` under concurrent requests. The model is sequential.
- `EmailStr` validation (`auth.py:27`) is not modelled. It rejects some addresses, and it also normalizes the accepted ones (it lower-cases the domain). `UserIn.email` is read as that normalized form, which is what gets stored. `/login` takes `form_data.username` (`auth.py:97`) as a plain string, so registering "Bob@Example.COM" and then logging in with "Bob@Example.COM" fails with 400. `Auth.RegisterThenLogin` assumes login uses the normalized form.
- The form and dependency machinery, and the framework's 401 "Not authenticated" for a missing `Authorization` header: these are framework behaviour. The token is a parameter.
- `/login` is declared twice (`auth.py:94-105` and `auth.py:107-114`). The two differ only in debug prints, so login is modelled once. Which one the framework dispatches to is framework behaviour.
- An `ACCESS_TOKEN_EXPIRE_MINUTES` value that does not parse as an integer is not modelled. It makes `int()` fail when the module loads.
- The completion call is not modelled: its prompt, `max_tokens`, the 30-second timeout, timeout mapped to 504, other errors mapped to 500, and a reply whose content is absent. The reply is whatever the `complete` parameter returns.
- The envelope's `latency_seconds` and `timestamp`, and the JSON re-encoding: clock readings and float rounding.
- Debug prints and traceback logging.
- Unicode: `lower()` and `strip()` are modelled on ASCII only. Non-ASCII case mappings and non-ASCII whitespace are not modelled.
- `backend/app/main.py` (startup wiring, CORS), `backend/app/api/v1/health.py` (a constant reply) and `frontend/app.py` (the web form) have no logic to verify.
