# Portfolio backend: a verified model of its request handlers

The system is a multi-user portfolio API. Users sign up and log in. Each user has
one public profile and publishes projects and blog posts under their username.
Everything lives in four document collections: `user`, `profile`, `project` and
`blog`. This project models the request handlers of `main.py` and the record
shapes of `schemas.py` in Dafny, and proves what each handler does to the store.

Structure:

- `results.dfy` (`Results`): `Option` (Python's `None`) and `Result` (a handler's
  value or the HTTP error it raises).
- `object_ids.dfy` (`ObjectIds`): the store-assigned identifier. It is a 12-byte
  value, written as 24 lower-case hex digits. `Parse` models `ObjectId(s)`;
  the model accepts exactly 24 hex digits in either case. Proved: parsing the text
  of an identifier gives it back, and accepted text denotes the identifier
  whose text is its lower-case form.
- `schemas.dfy` (`Schemas`): the `User`, `Profile`, `Project` and `Blog`
  records, their defaults, and the 3..30 username-length constraint.
- `documents.dfy` (`Documents`): `to_public` on dictionary documents.
- `collections.dfy` (`Collections`): the store queries the handlers use.
  `find_one` is the first match in insertion order. `find` keeps every match, as
  often as it is stored. `sort(key, -1)` gives non-increasing key order, using the store's type
  order (a missing field sorts below booleans, and booleans below dates).
- `portfolio.dfy` (`Portfolio`): the `Store` class. It holds one sequence of
  records per collection, and each record is paired with its identifier.
  Handlers that write are methods that reassign those sequences. Handlers that
  only read are functions of the store. `Store.Valid()` is the invariant every
  write preserves:
  - identifiers are unique within each collection;
  - usernames are unique among users (emails are not: see "## Findings");
  - every username has 3 to 30 characters;
  - every profile belongs to a registered user, and no user has two profiles.
- `scenarios.dfy` (`Scenarios`): request sequences on a fresh store. Their
  outcomes are proved from the handler contracts alone.

Inputs the handlers get from their environment are parameters:

- the fresh identifier each insert receives (required unused in its collection);
- the current time, `now`, as an integer;
- the validation of an email field (`EmailCheck`): it rejects an address, or
  gives the normalized form that the User record stores;
- Python's `str` conversion, in `ToPublic`.

Handler responses are the stored records. Each carries its identifier, which is
the `id` that `to_public` exposes.

Two behaviours of the code worth noting:

- `signup` builds the `User` record only after both uniqueness checks pass.
  Building it enforces the username length and validates the email. So an
  unregistered username of the wrong length, or a rejected email, raises an
  uncaught validation error (HTTP 500). Nothing is written. This is
  `Error.ValidationFailed`.
- The display name is `display_name or username`, so an empty display name also
  falls back to the username.

## Model

| member | source | states |
|---|---|---|
| `ObjectIds.Parse` | main.py:159-162 | `ObjectId(project_id)` succeeds exactly for strings of 24 hexadecimal digits |
| `ObjectIds.Text` | main.py:34 | `str(oid)` is 24 lower-case hexadecimal digits, so it is itself an accepted identifier string |
| `ObjectIds.ParseText` | main.py:157-163 | the id string a create handler returns parses back to the identifier of the stored record |
| `ObjectIds.TextParse` | main.py:159-160 | any accepted string denotes the identifier whose text is that string in lower case |
| `ObjectIds.TextInjective` | main.py:34 | two identifiers have the same text iff they are equal |
| `Schemas.NewUser` | schemas.py:17-24 | a User is built iff the username has 3 to 30 characters and the email passes its check; it stores the normalized email; `display_name`, `avatar_url`, `bio` default to None, `verified` to false |
| `Schemas.NewProfile` | schemas.py:26-31 | Profile defaults: `headline` and `about` None, `socials` an empty map, `theme` "holo" |
| `Schemas.NewProject` | schemas.py:33-40 | Project needs `username` and `title`; `tags` defaults to empty, `featured` to false, the other fields to None |
| `Schemas.NewBlog` | schemas.py:42-49 | Blog needs `username`, `slug`, `title`, `content`; `published` defaults to false, `published_at` and `cover_image` to None |
| `Documents.ToPublic` | main.py:29-35 | an absent or empty document is returned as is; otherwise `_id` is gone, `id` holds `str` of the old `_id` when there was one, and every other key keeps its value |
| `Documents.ToPublicIdempotent` | main.py:29-35 | a public document is left as it is by a second `to_public` |
| `Documents.PublicIdOfStored` | main.py:33-34 | the public `id` of a stored document parses back to the document's identifier |
| `Collections.FindFirst` | main.py:106 | `find_one` returns the first matching record, and nothing iff no record matches |
| `Collections.Filter` | main.py:109 | `find` returns every matching record as often as it is stored, and nothing else |
| `Collections.SortDesc` | main.py:109 | `sort(key, -1)` returns the same records in non-increasing key order |
| `Collections.RemoveAt` | main.py:163 | `delete_one` removes one occurrence of the matched record and nothing else |
| `Portfolio.DisplayName` | main.py:84 | `display_name or username`: a non-empty display name is kept, otherwise the username is used, so the result is empty only for an empty username |
| `Portfolio.SignupUser` | main.py:80-86 | the signup user has `password_hash` equal to the password, the normalized email, display name equal to `display_name or username` and `verified` false; it fails the schema iff the username length is outside 3..30 or the email is rejected |
| `Portfolio.EmptyProfile` | main.py:90 | the profile created at signup has the username, empty headline and about, empty socials and theme "holo" |
| `Portfolio.ApplyPatch` | main.py:130-133 | exactly the non-None patch fields overwrite the profile; `updated_at` becomes `now` iff at least one field is supplied |
| `Portfolio.ApplyEmptyPatch` | main.py:130-131 | an empty patch changes no field and not `updated_at` |
| `Portfolio.ApplyPatchIdempotent` | main.py:130-133 | applying the same patch twice at the same time equals applying it once |
| `Portfolio.ProjectFrom` | main.py:148 | the stored project takes the username from the path and every other field from the body |
| `Portfolio.BlogFrom` | main.py:178-181 | the stored blog copies the body and path username; `published_at` is `now` iff `published`, otherwise absent |
| `Portfolio.FeaturedFirst` | main.py:109 | in a list sorted on `featured` descending, no non-featured project precedes a featured one |
| `Portfolio.LatestFirst` | main.py:110 | in a list sorted on `published_at` descending, publication times do not increase, and a missing time comes last |
| `Portfolio.Store.Signup` | main.py:71-93 | username taken: 400; else the raw email equals a stored one: 400; else username length invalid or email rejected: 500. The store is unchanged on every error. On success exactly one user (with the normalized email) and one empty profile are appended, the reply carries the new user's id, the credentials log in, get_profile shows the new profile, and it is the only profile with that username |
| `Portfolio.Store.SignupUniqueEmail` | main.py:77-78 | the corrected signup compares the normalized email instead; otherwise it behaves as signup, and a store with distinct emails keeps them distinct |
| `Portfolio.RegisterKeepsEmailsDistinct` | main.py:77-87 | adding a user whose email no user has keeps emails distinct |
| `Portfolio.Store.Register` | main.py:87-91 | the user, then its profile, are appended; the invariant is kept, and the new profile is the only one with its username |
| `Portfolio.RegisterKeepsProfilesUnique` | main.py:75-91 | a profile is created only for a username no user has, so no two profiles share a username (schemas.py:27 calls the profile username unique) |
| `Portfolio.PatchKeepsProfilesUnique` | main.py:130-133 | a profile update never changes the username, so profile usernames stay distinct |
| `Portfolio.Store.Login` | main.py:95-101 | succeeds with the username iff some user has exactly that username and password hash; otherwise 401 |
| `Portfolio.Store.MatchingUserLogsIn` | main.py:98-101 | one user matching both fields is enough for login to succeed |
| `Portfolio.Store.FindProfile` | main.py:127 | `find_one({"username": ...})` on profiles: the first profile with the username, and none iff no profile has it |
| `Portfolio.Store.GetProfile` | main.py:104-115 | 404 iff no profile has the username; otherwise the first such profile, that user's projects as list_projects orders them, and only their published blogs, newest first |
| `Portfolio.Store.FirstProfileIsFetched` | main.py:106-112 | the first profile with a username is the one get_profile returns |
| `Portfolio.Store.UpdateProfile` | main.py:124-135 | 404 and no change when no profile has the username; else only the first such profile is patched (nothing is written for an empty patch), every other record is unchanged, and the patched profile is returned |
| `Portfolio.Store.CreateProject` | main.py:146-150 | appends exactly one project built from the body and the path username, returns its id, and adds it to that user's listing |
| `Portfolio.Store.ListProjects` | main.py:152-155 | exactly the user's projects, each as often as stored, featured before non-featured |
| `Portfolio.Store.FindProject` | main.py:163 | the delete filter matches a project only if both its id and its username match |
| `Portfolio.Store.DeleteProject` | main.py:157-166 | malformed id: 400 and no change; no project with that id and username: 404 and no change; else exactly that project is removed; another user's project is never removed |
| `Portfolio.Store.CreateBlog` | main.py:176-183 | appends exactly one blog and returns its id; a published one joins the default listing and a draft leaves it unchanged |
| `Portfolio.Store.ListBlogs` | main.py:185-191 | exactly the user's blogs, only the published ones when `published_only`, with publication times non-increasing and drafts last |
| `Portfolio.Store.GetBlog` | main.py:193-198 | the first blog matching both username and slug, or 404 iff there is none |
| `Scenarios.SignupTwice` | main.py:74-76 | a second signup with the same username fails with the username conflict, whatever the email |
| `Scenarios.SignupThenFetch` | main.py:89-112 | right after signup the credentials log in and the public profile exists, empty, with theme "holo" |
| `Scenarios.DuplicateEmailAccepted` | main.py:77-87 | `a@example.com` then `a@EXAMPLE.com`: the second signup succeeds and both users store `a@example.com` |
| `Scenarios.DuplicateEmailRejected` | main.py:77-78 | with the corrected check the same second signup is refused with the email conflict |
| `Scenarios.DeleteByOwnerOnly` | main.py:157-166 | deleting by a correct id under another username is a 404; the owner's delete succeeds |
| `Scenarios.DraftThenPublished` | main.py:176-191 | a draft has no `published_at` and is absent from the default listing, which shows only the published post |

## Left out

- FastAPI app construction, CORS middleware and routing (main.py:13-21), the `/` greeting and the `/test` health endpoint (main.py:38-58): framework plumbing and environment/connection diagnostics.
- `database.py` (`db`, `create_document`, `get_documents`) is not part of this model. An insert is an append with a caller-supplied fresh identifier. Store-level failures such as lost connections are not modelled.
- `EmailStr` validation (schemas.py:19) is the `EmailCheck` parameter. The model does not say which addresses it rejects or how it normalizes them.
- `datetime.utcnow()`: the time is the integer parameter `now`.
- `ObjectId` parsing internals: `bytes.fromhex` also tolerates whitespace inside a 24-character string, and the model rejects such strings.
- Pydantic request parsing (`model_dump`, rejection of ill-typed bodies with 422): handler inputs are typed values, and the caller fills in the request-body defaults (`tags=[]`, `featured=False`, `cover_image=None`, `published=False`; main.py:141-144, 173-174). `published_only` defaults to true (main.py:186) as in the source.
- `socials` holds arbitrary JSON values in the source; the model uses a map from strings to strings.
- Response wrappers (`{"ok": True, ...}`, `{"id": ...}`): replies are modelled as the essential values.
- Concurrency: the check-then-insert race in signup and the non-transactional user-then-profile pair.
- Portfolio.Store.ListProjects: does not promise that projects with equal `featured` keep store order, because the store's sort is not guaranteed stable.
- Portfolio.Store.ListBlogs: does not promise that blogs with equal `published_at` keep store order, because the store's sort is not guaranteed stable.

## Findings

| source | as written | input that shows it | evidently intended | confidence | as-written member | corrected member |
|---|---|---|---|---|---|---|
| main.py:77 | the duplicate-email check compares the raw request email with stored emails. The User record (schemas.py:19, `EmailStr`) stores the address normalized, with the domain lower-cased | sign up `alice` with `a@example.com`, then `bobby` with `a@EXAMPLE.com`: the second signup succeeds and both users store `a@example.com` | compare the normalized address, so that no two users share an email | medium; not executed (the normalization comes from the email validation library, which is outside this model) | `Portfolio.Store.Signup`, `Scenarios.DuplicateEmailAccepted` | `Portfolio.Store.SignupUniqueEmail`, `Scenarios.DuplicateEmailRejected` |
