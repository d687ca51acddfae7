# Mentor–mentee matching backend, modelled in Dafny

This project models the core of a FastAPI backend for a mentor–mentee matching service. It covers these handlers of `backend/backend_code.py`:

- **Sign-up.** E-mails are unique and each new user gets a fresh id.
- **Caller resolution.** A verified bearer token yields a user, or 401.
- **`GET /me`.** The caller's own profile. A mentor's comma-joined skills come back as a list.
- **`PUT /profile`.** Checks the id and role. Checks an uploaded image's size against the 1 MiB cap and sniffs its JPEG or PNG signature. Rewrites a mentor's skills.
- **`GET /mentors`.** Mentees only. Filters on a skill substring, then sorts stably by name, by first skill or by id.
- **Match requests.**
  - Creation: only the named mentee may create one. The mentor must exist. At most one request per pair may be pending.
  - The incoming list (mentors) and the outgoing list (mentees).
  - Accept. It rejects the mentor's other pending requests.
  - Reject and cancel.

Files:

- `http.dfy` defines the `Option` and `Result` wrappers and the four HTTP errors: 400, 401, 403 and 404.
- `seqs.dfy` holds `Filter`. It is the model of a SQL `WHERE` clause over a table kept in storage order.
- `images.dfy` covers the image upload: the 1 MiB cap and the byte-signature sniff.
- `skills.dfy` models the skills column. Python's `",".join` stores it and `str.split(",")` reads it. The file proves the round trips between the two.
- `directory.dfy` holds the `User` row, the table invariants, authentication, `/me` and sign-up's invariant. It also has the profile update, as a pure function on one row.
- `sorting.dfy` is a generic stable insertion sort. Its keys follow Python's ordering: integers, and strings compared code point by code point. It proves that the result is sorted, that it is a permutation of the input and that it is stable.
- `mentors.dfy` models `GET /mentors`.
- `requests.dfy` holds the `MatchRequest` row and the lookups and lists. It also defines the status transitions as functions on the table and proves the lemmas about them.
- `store.dfy` is the database as a `class`. It holds both tables and their next ids. Each state-changing handler is a method that keeps `Valid()` and states the whole new state. A handler that raises leaves the state unchanged, because the transaction is never committed.

Where the code differs from the behaviour one would expect from the service's description, the model follows the code:

- **No status check on transitions.** `accept_request`, `reject_request` and `cancel_request` never look at the current status. Any request the caller owns can be accepted, rejected or cancelled, including one that was already resolved. There is no "invalid state" error.
- **Missing mentor is a 400.** When `create_match_request` names a mentor who does not exist, the answer is 400, not 404.
- **Several accepted requests per mentor.** Acceptance rejects only the mentor's other *pending* requests. An earlier accepted request stays accepted. An earlier rejected request can also be accepted later. `Requests.TwoAcceptedForOneMentor` builds such a table.
- **`update_profile` errors are all 400.** The `except Exception` also catches the size and signature errors raised inside it. All three image errors therefore come back as one 400.

## Model

| member | source | states |
|---|---|---|
| Images.CheckImage | backend/backend_code.py:233-247 | an image is accepted iff it is at most 1 MiB and starts with the JPEG or the PNG signature; the JPEG prefix gives jpg, the PNG prefix gives png; anything else is a 400 |
| Images.HeadIsPrefix | backend/backend_code.py:239-241 | comparing the slice `data[:n]` with an n-byte signature is the same as a prefix test |
| Images.SignaturesDisjoint | backend/backend_code.py:239-244 | no byte string starts with both signatures, so the order of the two tests does not matter |
| Images.ExactlyOneMiBAccepted | backend/backend_code.py:236-240 | a JPEG of exactly 1 MiB is at the cap and is accepted as jpg |
| Images.OversizeRejected | backend/backend_code.py:236-237 | any image over 1 MiB is refused with 400, whatever its signature |
| Skills.Join | backend/backend_code.py:249 | `",".join` starts with the first part |
| Skills.JoinCount | backend/backend_code.py:249 | joining comma-free parts puts exactly one comma between each two: one comma fewer than there are parts |
| Skills.Split | backend/backend_code.py:206 | `split(",")` yields at least one part and no part contains a comma |
| Skills.SplitCount | backend/backend_code.py:206 | `split(",")` yields one part more than there are commas |
| Skills.Decode | backend/backend_code.py:206 | `split(",") if skills else []`: empty iff the stored text is empty, otherwise one skill more than there are commas, none holding a comma |
| Skills.FirstSkill | backend/backend_code.py:321 | the text before the first comma: a comma-free prefix that ends at a comma or at the end |
| Skills.SplitJoin | backend/backend_code.py:249 | splitting the join of comma-free parts gives those parts back |
| Skills.JoinSplit | backend/backend_code.py:206 | joining the parts of a split gives the original text back |
| Skills.EncodeDecode | backend/backend_code.py:206 | re-joining the decoded skills list (`split` if non-empty, else `[]`) reproduces the stored column |
| Skills.DecodeEncode | backend/backend_code.py:249-259 | for comma-free skills, decoding the joined column gives the list back iff the list is not `[""]` |
| Skills.FirstOfDecode | backend/backend_code.py:314-321 | the first decoded skill, or "" when there is none, is the text before the first comma |
| Seqs.Filter | backend/backend_code.py:301-304 | the query keeps exactly the matching rows with their multiplicities, and nothing else |
| Seqs.FilterKeepsOrder | backend/backend_code.py:301-304 | the query keeps storage order: any relation between each row and every later row also holds in the result |
| Directory.MeView | backend/backend_code.py:198-212 | the view copies id, e-mail, role, name and bio; `imageUrl` is `/api/images/<role>/<id>`; skills are present iff the user is a mentor, are then the decoded column (`split(",")` or `[]`), and re-join to the stored column |
| Directory.FindUser | backend/backend_code.py:192 | `first()` on an id: the first row with that id, or none if no row has it |
| Directory.Authenticate | backend/backend_code.py:179-195 | the caller resolves iff the token yields a subject that is a stored user's id; otherwise 401 |
| Directory.GetMe | backend/backend_code.py:198-212 | 401 iff the caller does not resolve; otherwise the `/me` view of the caller's own row |
| Directory.NewUser | backend/backend_code.py:123-130 | the new row carries the submitted e-mail, password hash, name and role, with empty bio and skills and no image, so it meets the row invariant |
| Directory.SignupKeepsWellFormed | backend/backend_code.py:121-133 | inserting a user with a free e-mail and the next id keeps ids increasing and e-mails unique, and every row keeps its invariant |
| Directory.ApplyProfileUpdate | backend/backend_code.py:229-249 | succeeds iff id and role match and the image is absent or acceptable; otherwise 400; sets name and bio; stores the image with its sniffed type; keeps id, e-mail, role and password; replaces a mentor's skills by the join (none if omitted); leaves a mentee's skills alone; keeps the row invariant |
| Directory.ProfileUpdateIdempotent | backend/backend_code.py:229-249 | applying the same successful update twice gives the same row |
| Directory.UpdatedSkillsReadBack | backend/backend_code.py:248-259 | a mentor who sends comma-free skills (not `[""]`) reads exactly those skills back in the response |
| Directory.UpdateKeepsWellFormed | backend/backend_code.py:231-249 | replacing a row by one with the same id and e-mail that keeps the row invariant keeps the users table well formed |
| Directory.UpdateKeepsRoles | backend/backend_code.py:229-230 | a profile update never changes which id has which role |
| Sorting.StrLeTotal | backend/backend_code.py:319 | Python's string order is total |
| Sorting.StrLeTrans | backend/backend_code.py:319 | Python's string order is transitive |
| Sorting.StrLeAntisym | backend/backend_code.py:319 | Python's string order is antisymmetric |
| Sorting.Insert | backend/backend_code.py:318-323 | insertion adds exactly the one element: a permutation of `[x] + s` |
| Sorting.Sort | backend/backend_code.py:318-323 | `list.sort` returns a permutation of its input |
| Sorting.InsertSorted | backend/backend_code.py:318-323 | inserting into a sorted list keeps it sorted |
| Sorting.SortSorted | backend/backend_code.py:318-323 | the sort's result is sorted by the key |
| Sorting.InsertStable | backend/backend_code.py:318-323 | insertion puts the new element before every element with an equal key that was already present |
| Sorting.SortStable | backend/backend_code.py:318-323 | for every key, the elements with that key keep their input order |
| Sorting.SortKeepsIncreasing | backend/backend_code.py:322-323 | a list already in strictly increasing key order is left as it is |
| Mentors.GetMentors | backend/backend_code.py:292-324 | 401 iff the caller does not resolve; else exactly 403 iff the caller is not a mentee; else a permutation of the profiles of the mentors matching the skill filter, sorted by the chosen key, and stable for every key |
| Mentors.MentorProfile | backend/backend_code.py:305-316 | a listing entry copies id, e-mail, role, name and bio; its `imageUrl` is the mentor image path; its skills are the decoded column and re-join to it |
| Mentors.MentorImageUrl | backend/backend_code.py:313 | the listing's literal `/api/images/mentor/<id>` is the path `/me` builds for a mentor |
| Mentors.MentorProfileIsMeView | backend/backend_code.py:305-316 | a listed mentor's entry is exactly what `/me` shows that mentor |
| Mentors.Contains | backend/backend_code.py:303 | `LIKE '%skill%'` as a substring test: true iff the skill is a prefix of some suffix of the stored text |
| Mentors.Matches | backend/backend_code.py:301-303 | a row matches iff it is a mentor and either no non-empty skill was given or the skill occurs in its skills text |
| Mentors.Query | backend/backend_code.py:301-304 | the query returns each matching stored row as often as it is stored, and only mentors |
| Mentors.Profiles | backend/backend_code.py:317 | one listing entry per queried mentor, in query order |
| Mentors.OrderOf | backend/backend_code.py:318-323 | `order_by` "name" selects the name order, "skill" the skill order, anything else the id order |
| Mentors.SortKey | backend/backend_code.py:318-323 | the key is the name, the first skill ("" if there is none) or the id, per order |
| Mentors.ListedExactly | backend/backend_code.py:301-317 | a profile is listed iff it belongs to a stored mentor matching the skill filter |
| Mentors.SkillKeyIsFirstSkill | backend/backend_code.py:320-321 | the `order_by=skill` key is the stored skills text before the first comma |
| Mentors.SortByIdKeepsQueryOrder | backend/backend_code.py:322-323 | with ids increasing in storage order, the default sort by id returns the query's own order |
| Mentors.FilterKeepsIncreasingIds | backend/backend_code.py:301-304 | filtering keeps ids strictly increasing |
| Requests.FullView | backend/backend_code.py:374-381 | a response body copies id, mentor, mentee and status, and carries the message |
| Requests.OutgoingView | backend/backend_code.py:390-396 | the outgoing body copies id, mentor, mentee and status, and carries no message |
| Requests.Find | backend/backend_code.py:404 | lookup by request id scoped to the caller's side: the first owned row with that id, or none if there is none |
| Requests.Listed | backend/backend_code.py:373 | the requests in which the user is on the given side, each as often as it is stored, and no others |
| Requests.Incoming | backend/backend_code.py:369-382 | 401 iff the caller does not resolve; else exactly 403 iff not a mentor; else one full view per request addressed to the caller, in query order, and nothing else: a stored request is listed iff it is addressed to the caller |
| Requests.Outgoing | backend/backend_code.py:385-397 | 401 iff the caller does not resolve; else exactly 403 iff not a mentee; else one message-less view per request the caller sent, in query order, and nothing else: a stored request is listed iff the caller sent it |
| Requests.NewRequest | backend/backend_code.py:351-356 | the created row carries the new id and the message, and is pending for the given pair |
| Requests.WithStatus | backend/backend_code.py:434 | the status update changes only the status of the one row; every other row is unchanged |
| Requests.Cascade | backend/backend_code.py:408-414 | only statuses change; a row changes iff it is another pending request to the mentor, and it becomes rejected; afterwards none of the mentor's other requests is pending |
| Requests.AfterAccept | backend/backend_code.py:408-415 | the accepted row becomes accepted; only statuses change |
| Requests.AcceptEffect | backend/backend_code.py:407-415 | the target becomes accepted whatever its status; the mentor's other pending requests become rejected; every other row is unchanged; none of the mentor's requests is left pending |
| Requests.NoNewPendingKeepsWellFormed | backend/backend_code.py:408-415 | a status-only update that makes nothing pending keeps the requests table well formed and the references resolving |
| Requests.AcceptKeepsWellFormed | backend/backend_code.py:408-415 | acceptance keeps the requests table well formed, pending uniqueness included |
| Requests.ResolveKeepsWellFormed | backend/backend_code.py:434 | rejection and cancellation keep the requests table well formed |
| Requests.NewUserKeepsReferences | backend/backend_code.py:131-132 | inserting a user leaves every request naming a stored mentor and a stored mentee |
| Requests.CreateKeepsPendingUnique | backend/backend_code.py:343-356 | appending a request after the duplicate check keeps pending requests unique per pair |
| Requests.ResolvedPairMayAskAgain | backend/backend_code.py:343-350 | once a pair's pending request is resolved, the pair has no pending request and may ask again |
| Requests.AcceptedPairMayAskAgain | backend/backend_code.py:408-415 | after acceptance, the accepted pair has no pending request |
| Requests.TwoAcceptedForOneMentor | backend/backend_code.py:400-415 | accepting one request and then the one it rejected leaves two accepted requests for the same mentor |
| Store.Database.constructor | backend/backend_code.py:26-48 | empty tables; ids are handed out from 1 |
| Store.Database.Signup | backend/backend_code.py:119-134 | 400 and no change iff the e-mail is taken; otherwise one new user with the next id, empty bio and skills, and no image; the new id and e-mail are fresh; the tables stay valid |
| Store.Database.UpdateProfile | backend/backend_code.py:223-265 | 401 without a caller; the caller's row becomes the result of `ApplyProfileUpdate`, or nothing changes on its 400; the response is the new `/me` view |
| Store.Database.CreateMatchRequest | backend/backend_code.py:332-366 | 401; 403 unless the caller is the named mentee; 400 if the mentor does not exist; 400 if the pair has a pending request; otherwise one pending request with the next id is appended; the tables stay valid |
| Store.Database.Accept | backend/backend_code.py:400-424 | 401; 403 unless a mentor; 404 unless the request is addressed to the caller; otherwise the table becomes `AfterAccept` and the accepted request is returned |
| Store.Database.RejectOtherPending | backend/backend_code.py:408-414 | the loop rejects exactly the mentor's other pending requests and changes nothing else |
| Store.Database.Reject | backend/backend_code.py:427-443 | 401; 403 unless a mentor; 404 unless the request is addressed to the caller; otherwise only that request becomes rejected |
| Store.Database.Cancel | backend/backend_code.py:446-462 | 401; 403 unless a mentee; 404 unless the caller sent the request; otherwise only that request becomes cancelled and stays in the table |

## Left out

- **FastAPI and SQLAlchemy plumbing.** Routing, dependency injection, CORS, the Swagger redirects and the validation-error handler are left out. Sessions are left out too. Each handler is modelled as one atomic commit, and a raised error leaves the tables unchanged. Concurrency between handlers is not modelled.
- **Password hashing and tokens.** bcrypt, the JWT encoding and decoding, `os.urandom` and the clock are not modelled. A request's token is abstracted to `subject: Option<int>`. `None` stands for a missing, malformed, expired or wrongly signed token, or one without a subject. `Store.Database.Signup` takes the password hash as a parameter.
- **Login.** The handler's body parsing, in JSON or form encoding, and its password check are external code. They are not modelled.
- **Non-numeric subjects.** A token whose subject is not an integer makes `int(user_id)` raise. It is not modelled, because login always issues numeric subjects.
- **Base64.** Decoding is abstracted to `Directory.ImageField`, which has three cases:
  - `NoImage`: the field is missing or empty;
  - `Undecodable`: the field is not valid base64;
  - `Decoded`: the decoded bytes.
- **Pydantic field validation.** The `EmailStr` format check, and the other checks on body fields, happen before the handler runs. They are not modelled.
- **`get_profile_image`.** Serving files and redirecting to placeholder images is output plumbing. It is not part of this model. Only the `imageUrl` strings that point to it are modelled.
- **`LIKE`.** Mentors.GetMentors models `LIKE '%skill%'` as a case-sensitive substring test on the stored skills column. It does not model SQLite's ASCII case-insensitivity or the `%` and `_` wildcards inside the skill text.
- **Result order of queries.** SQL queries without `ORDER BY` are assumed to return rows in storage order, which is ascending id.
- **Other files.** `frontend/app.py`, `backend/test_api.py` and `backend/add_dummy_mentors.py` are not part of this model.
