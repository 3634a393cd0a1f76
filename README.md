# Video store model

A Dafny model of the in-memory video service of `ht-01-api-videos`. The
server keeps one ordered, process-wide list of video records, each holding an
`id`, a `title` and an `author`. It starts with five fixtures and serves these
routes over that list:

- `GET /videos` lists the records.
- `GET /videos/:id` finds one record.
- `POST /videos` creates a record.
- `PUT /videos/:id` replaces a record's title.
- `DELETE /videos/:id` removes a record.
- `DELETE /testing/all-data` clears the list.

Create and replace share a title check. It stops at the first failing rule, so
a 400 response always carries exactly one `{message, field}` error.

The model is in four modules:

- `Wrappers` (`wrappers.dfy`): `Option`, for a request field that may be
  absent or a search that may find nothing.
- `JsText` (`js_text.dfy`): the JavaScript string behaviour the handlers rely
  on, stated exactly.
  - `trim`, with the whitespace set of ECMA-262 (sections 12.2 and 12.3).
  - `length`, counted in UTF-16 code units.
  - The decimal `toString` of an integer id, with its inverse `ParseDecimal`.
- `Validation` (`validation.dfy`): the title check and its two error values.
- `VideoStore` (`video_store.dfy`): the records and the response datatype.
  - `FindFirst` is the `find`/`findIndex` search.
  - `Store` is a class whose `videos: seq<Video>` field stands for the
    module-level `videos` array. Each route handler is a method with
    `modifies this` that returns a `Response`, which carries the status code
    and the body.

Two invariants are proved about the stored collection:

- Every stored title passes the title check. The seed satisfies it, and every
  handler keeps it.
- If the ids were distinct before an operation, they stay distinct after a
  replace or a delete. After a create they stay distinct exactly when the new
  id is fresh. The server does not guarantee fresh ids: it takes them from the
  clock. So the property "delete then get answers 404" is proved only for
  distinct ids, and `DuplicateSurvivesRemoval` shows it failing without them.

The handlers check only `title`, stop at the first failing rule, and write
only `id`, `title` and `author`.

## Model

| member | source | states |
|---|---|---|
| `JsText.TrimStart` | src/index.ts:49 | the result is the suffix of the input left after every leading whitespace character, and does not itself start with whitespace |
| `JsText.TrimEnd` | src/index.ts:49 | the result is the prefix of the input left after every trailing whitespace character, and does not itself end with whitespace |
| `JsText.Trim` | src/index.ts:49 | `trim()` gives "" exactly when the title is whitespace only; otherwise the result starts and ends with a non-whitespace character |
| `JsText.Utf16Length` | src/index.ts:62 | JavaScript's `length` lies between the number of characters and twice that number |
| `JsText.Utf16LengthIsSizeIffBmp` | src/index.ts:62 | `length` equals the number of characters exactly when no character lies outside the Basic Multilingual Plane |
| `JsText.DecimalString` | src/index.ts:33 | `id.toString()` is one or more digits with no leading zero, and starts with '0' only for id 0 |
| `JsText.ParseDecimalString` | src/index.ts:33 | reading back the decimal rendering of an id gives the id (round trip) |
| `JsText.DecimalStringOfParse` | src/index.ts:33 | every canonical decimal string is the rendering of its own value (the other round trip) |
| `JsText.DecimalStringIff` | src/index.ts:33 | a string is the rendering of n if and only if it is canonical decimal text whose value is n |
| `JsText.DecimalStringInjective` | src/index.ts:33 | distinct ids have distinct renderings |
| `Validation.ValidateTitle` | src/index.ts:49-73 | "Title is required" if and only if the title is missing or whitespace only; "Title should be less then 40 symbols" if and only if it is not blank and its `length` exceeds 40; accepted if and only if neither; never any other error |
| `Validation.TitleLengthBoundary` | src/index.ts:62-73 | a non-blank title of exactly 40 characters of the Basic Multilingual Plane is accepted, and one of 41 such characters is rejected as too long; the boundary in code units for any title is in `Validation.ValidateTitle` |
| `VideoStore.FindFirst` | src/index.ts:33 | the result is the first position whose id renders as the route parameter, and it is None exactly when no record matches |
| `VideoStore.SeedFacts` | src/index.ts:15-21 | the seed holds five records with ids 1 to 5 in order; the ids are distinct, every title passes the title check, and "3" finds the third record |
| `VideoStore.IdMatchesFunctional` | src/index.ts:33 | two ids that the same route parameter matches are equal |
| `VideoStore.IdMatchesIff` | src/index.ts:33 | the parameter matches an id if and only if it is canonical decimal text for that id |
| `VideoStore.LeadingZeroDoesNotMatch` | src/index.ts:33 | the parameter "01" does not match id 1 |
| `VideoStore.AppendedIsFound` | src/index.ts:42-77 | a record appended under a fresh id is the one that get-by-id finds for that id, at the end of the list |
| `VideoStore.WithTitleKeepsLookup` | src/index.ts:108-109 | changing a title leaves the result of every lookup unchanged |
| `VideoStore.WithTitlePreservesInvariants` | src/index.ts:109 | setting an accepted title keeps every stored title valid and keeps ids distinct |
| `VideoStore.RemoveFirstMatchLeavesNone` | src/index.ts:117-126 | with distinct ids, removing the first match leaves no record that the parameter matches, so a later get-by-id answers 404 |
| `VideoStore.DuplicateSurvivesRemoval` | src/index.ts:118-121 | with two records sharing id 7, deleting "7" removes only the first, and the second still matches |
| `VideoStore.RemovePreservesInvariants` | src/index.ts:121 | removing one record keeps ids distinct and keeps every stored title valid |
| `VideoStore.AppendKeepsUniqueIds` | src/index.ts:44-75 | appending keeps ids distinct if and only if the new id differs from every stored id |
| `VideoStore.Store.constructor` | src/index.ts:15-21 | the store starts with the five fixtures, all with valid titles |
| `VideoStore.Store.List` | src/index.ts:27-29 | GET /videos answers 200 with the whole collection in insertion order |
| `VideoStore.Store.GetById` | src/index.ts:31-40 | answers 200 with the first record the parameter matches, and 404 if and only if none matches; the collection is not changed |
| `VideoStore.Store.Create` | src/index.ts:42-77 | a rejected title gives 400 with its single error and no change; otherwise the answer is 201 with {id, title, "it-incubator.eu"}, and the collection is the old one plus exactly that record at the end; valid titles stay valid |
| `VideoStore.Store.Replace` | src/index.ts:79-115 | the title is checked first, so a bad title gives 400 with no change even for an unknown id; a valid title with no match gives 404 with no change; otherwise the answer is 204, only the title of the first match changes (its id and author stay), and every other record is unchanged; valid titles and distinct ids are kept |
| `VideoStore.Store.Delete` | src/index.ts:117-126 | no match gives 404 with no change; otherwise the answer is 204, exactly the first match is removed, the rest keep their order, and the length drops by one; valid titles and distinct ids are kept |
| `VideoStore.Store.ClearAll` | src/index.ts:128-131 | the collection is empty afterwards, whatever it held, and the answer is 204 |

## Left out

- The Express application, CORS, body parsing, `app.listen`, the port, logging and the `GET /` greeting (src/index.ts:1-13, 23-25, 133-135). They are framework plumbing.
- `VideoStore.Store.Create`: the id comes from `new Date().valueOf()` (src/index.ts:44), a clock call. It is a parameter here, and its freshness is not claimed.
- `Validation.ValidateTitle`: a `title` that is present but is a truthy non-string is not modelled (a non-zero number, `true`, an object or an array). There `.trim` throws and the framework answers 500. Falsy non-strings (`null`, `false`, `0`) stop at `!req.body.title` (src/index.ts:49, 82) and get 400 "Title is required", just as a missing title does; the model's `None` covers them. The model's title is either absent (`None`) or a string.
- `VideoStore.Store.Replace` and `VideoStore.Store.Delete` send the collection as the body of their 204 responses (src/index.ts:111, 122). HTTP drops the body of a 204, so only the status is modelled.
- `VideoStore.IdMatches`: ids are assumed to be safe integers, below 2^53, and are rendered in plain decimal. A JavaScript id is a double. Above 2^53 not every integer is a JavaScript number, and `toString` prints the shortest digits that read back as the same double (`(2**60).toString()` is "1152921504606847000"). From 10^21 up it uses exponent notation. Clock values (about 1.7·10^12) and the fixtures stay far below 2^53.
- `JsText.Utf16Length`: a JavaScript string may hold unpaired surrogate code units. A Dafny `string` holds only Unicode scalar values, so such titles cannot be expressed.
- The `IVideo` type (`./@types`) is not part of this model. Records carry only the fields the handlers write: `id`, `title` and `author`.
- The in-place assignment `video.title = ...` (src/index.ts:109) is modelled as an update of the sequence at the first match. Records are values here, not shared objects. Each record object in the server is referenced only from the array, so no aliasing can be observed.
- The end-to-end tests in `__tests__/e2e/course.api.test.ts` are not modelled. They expect fields the create handler never produces.
