# Talker manager: a Dafny model

This project models the core of a small Express service. The service keeps
"talker" (speaker) records in one JSON file. It answers list, lookup, create,
update and delete requests on that file, and it has a login endpoint that hands
out a random token.

The model covers two parts of `index.js`:

- **The validation middleware.** Each check is a function from a request
  (the `authorization` header and the JSON body) to a `Check`:
  `Pass`, `Reject(status, message)`, or `Crash`. `Crash` is a JavaScript
  exception, which Express answers with a 500.
  `RunChain` runs a route's checks in order and stops at the first one that
  does not pass. The talker chain is token → name → age → talk → talk
  fields. Login has its own email/password check.
- **The talker store.** The file is the `talkers: seq<Talker>` field of a
  `Store` class. `Create`, `Update` and `Delete` each load the sequence,
  transform it and write it back whole, as the handlers do.
  - Create sorts by descending id with a stable sort. It then appends a record
    whose id is one more than the first id.
  - Update drops every record with the id and appends the replacement. It is
    an upsert.
  - Delete is the same filter without the append.

  The route methods in `Routes` put the chains and the store together and
  return the `Reply` (status and body) the client sees.

What the source promises is proved about the model:

- the exact decision table of every check, in both directions;
- first-failure order, and that the talker chain never throws;
- that the `watchedAt` regular expression accepts exactly the `dd/dd/dddd`
  shape;
- that the sort is sorted, a permutation, stable, and the only sequence with
  those properties;
- that the new id is the maximum id + 1;
- that unique ids stay unique under create, update and delete (for create, as long as ids stay within the range JavaScript numbers hold exactly; see "Left out");
- that after an update exactly one record has the id, and after a delete none
  does;
- that every other record is kept, in order;
- that a login token decodes back to the random bytes it was made from.

Files: `types.dfy` (records), `validation.dfy` (checks and chains),
`login.dfy` (login route and hex token), `store.dfy` (filters, sort, store
class), `routes.dfy` (handlers).

Behaviour that differs from the prose description of the service, modelled
as the code has it:

- An empty `authorization` header counts as missing ("Token não encontrado"), because the code tests `!authorization`.
- A name of exactly three characters is refused, because the code tests `name.length <= 3`.
- An age of 0 counts as missing, because the code tests `!age`.
- A `rate` of 0 is defined, so it fails the range check and not the "talk obrigatório" check.
- GET /talker's empty-array branch only runs for a falsy file. The modelled file is always an array, so that branch never applies.

## Model

| member | source | states |
|---|---|---|
| `Validation.AuthorizationToken` | index.js:60-70 | The header passes iff it is present with exactly 16 characters, whatever they are. 401 "Token não encontrado" iff it is missing or empty. 401 "Token inválido" iff it is non-empty with another length. |
| `Validation.NameValidation` | index.js:72-80 | Passes iff the name is present and longer than 3 characters. 400 "name obrigatório" iff it is missing or empty. The too-short 400 iff its length is 1 to 3, so a 3-character name is refused. |
| `Validation.AgeValidation` | index.js:82-90 | Passes iff the age is present and greater than 18. The "age obrigatório" 400 iff it is missing or 0. The legal-age 400 iff it is a non-zero value of at most 18. |
| `Validation.TalkerValidation` | index.js:92-101 | Passes iff `talk` is present. Otherwise 400 with the talk-required message. |
| `Validation.TalkerInfoValidation` | index.js:103-120 | Crashes iff `talk` is missing. The talk-required 400 iff a sub-field is undefined. The watchedAt 400 iff both are defined and the date shape is wrong. The rate 400 iff the shape is right and the rate is outside 1..5. Passes iff none of these. |
| `Validation.DateShapeByPosition` | index.js:113 | `/^\d{2}\/\d{2}\/\d{4}$/` accepts a string iff it has 10 characters, `/` at positions 2 and 5, and ASCII digits elsewhere. Any digits pass. |
| `Validation.MatchesWholeByPosition` | index.js:113 | An anchored pattern of fixed atoms matches exactly the strings of its length that match it atom by atom. |
| `Validation.EmailAndPassword` | index.js:36-53 | Checks email present, email format, password present, then password length ≥ 6. Each 400 message is returned iff every earlier check passed and this one failed. Passes iff all four hold. The email format test is a parameter. |
| `Validation.RunChainFirstFailure` | index.js:122-128 | A chain passes iff every check passes. Otherwise its answer is that of a check k with every check before k passing. |
| `Validation.TalkerChainFirstFailure` | index.js:140-146 | The POST/PUT chain answers the first failing check in the order token, name, age, talk, talk fields. |
| `Validation.TalkerChainPassIff` | index.js:122-128 | A request gets through the talker chain iff it is well formed. Well formed means: a 16-character token, a name over 3 characters, an age over 18, talk present, a dd/dd/dddd date, and a rate in 1..5. |
| `Validation.TalkerChainNeverCrashes` | index.js:103-107 | No request makes the talker chain throw, because `talk` is checked before it is destructured. |
| `Validation.NameReportedBeforeAge` | index.js:125-126 | With a valid token, a body missing both name and age gets the name-required 400. |
| `Validation.MissingTokenReportedFirst` | index.js:63-65 | A missing or empty header gets 401 "Token não encontrado" from both the talker chain and the delete chain, whatever the body holds. |
| `Validation.DeleteChainIsAuthorization` | index.js:159 | DELETE runs the token check and nothing else. |
| `Login.HexEncode` | index.js:56 | The hex text of n bytes has 2n characters, all lower-case hex digits. |
| `Login.HexValue` | index.js:56 | A character has a value iff it is a lower-case hex digit, and that digit is the one at that value. |
| `Login.HexDecode` | index.js:56 | The inverse of the token encoding: a decoding is half as long as the text. It is not in the service and serves as the partner of `HexEncode`. |
| `Login.HexRoundTrip` | index.js:56 | Decoding the hex text of any bytes gives back those bytes. |
| `Login.PostLogin` | index.js:55-58 | If the email/password check passes, the reply is 200 with a 16-character token that decodes to the 8 random bytes. Otherwise it is the refusal of `EmailAndPassword`: 400 with the message of the first check that fails, in the order email present, email format, password present, password length. |
| `Login.LoginTokenPassesAuthorization` | index.js:60-68 | A token handed out by login passes the authorization check, whatever the body of the later request. |
| `TalkerStore.Without` | index.js:152 | A record is in the result iff it is in the file and has a different id. |
| `TalkerStore.WithId` | index.js:162 | A record is in the result iff it is in the file and has that id. This is the complement of the delete filter. |
| `TalkerStore.FiltersDistribute` | index.js:162 | Both filters distribute over concatenation, so they keep file order. |
| `TalkerStore.FiltersPartition` | index.js:162 | Every record goes to exactly one of the two filters, by count and by multiset. |
| `TalkerStore.WithIdOfWithout` | index.js:152 | Dropping one id leaves the records of every other id unchanged, in order. |
| `TalkerStore.WithoutUnchangedIff` | index.js:162 | The delete filter leaves the file unchanged iff no record has the id. |
| `TalkerStore.WithoutOfAbsent` | index.js:162 | Filtering out an id that no record has gives back the whole file. |
| `TalkerStore.WithoutIdempotent` | index.js:162 | Filtering the same id out twice is the same as once. |
| `TalkerStore.FindById` | index.js:29 | The lookup finds nothing iff no record has the id. Otherwise it returns the record at the first index with that id. |
| `TalkerStore.FindByIdIsFirstWithId` | index.js:29 | The lookup returns the first record that the id filter selects. |
| `TalkerStore.InsertDesc` | index.js:132 | Inserting adds exactly the one record: the multiset grows by it. |
| `TalkerStore.SortByIdDesc` | index.js:132 | The sort returns a permutation of the file. |
| `TalkerStore.InsertDescSorted` | index.js:132 | Inserting into a descending sequence keeps it descending. |
| `TalkerStore.SortByIdDescSorted` | index.js:132 | The sort's result is in descending id order. |
| `TalkerStore.InsertDescStable` | index.js:132 | Inserting puts the record before the existing records that share its id. Records of every other id keep their order. |
| `TalkerStore.SortByIdDescStable` | index.js:132 | The sort is stable: for every id, the records with that id come out in file order. |
| `TalkerStore.SortByIdDescUnique` | index.js:132 | Any sequence that is descending and has the same id groups as the file is the sort's result. |
| `TalkerStore.SortedWithSameGroupsEqual` | index.js:132 | Two descending sequences with the same records per id are equal. |
| `TalkerStore.MaxId` | index.js:132 | For a non-empty file, the result is the largest id of any record, and some record has it. |
| `TalkerStore.NextIdIsMaxPlusOne` | index.js:132 | The new id (first id after sorting, + 1) is the largest id + 1, so it exceeds every id in the file. |
| `TalkerStore.CreateKeepsIds` | index.js:131-135 | After create, the new id belongs only to the new record, lookup finds it, and unique ids stay unique. |
| `TalkerStore.UpdateKeepsIds` | index.js:149-154 | After update, only the replacement has the id and lookup finds it. Every other id's records are unchanged, and unique ids stay unique. |
| `TalkerStore.DeleteKeepsIds` | index.js:160-163 | After delete, no record has the id and lookup finds nothing. Every other id's records are unchanged, and unique ids stay unique. |
| `TalkerStore.Store.constructor` | index.js:17-20 | The store holds the given file contents. |
| `TalkerStore.Store.Create` | index.js:130-136 | An empty file gives `None` and is left unchanged. Otherwise the file becomes the old records sorted by descending id plus the new record, whose id is the maximum + 1. The file grows by one. Unique ids stay unique. |
| `TalkerStore.Store.Update` | index.js:148-155 | The file becomes the old records without the id, in order, plus the replacement with that id. Exactly that record has the id, and other ids are untouched. |
| `TalkerStore.Store.Delete` | index.js:160-164 | The file becomes the old records without the id, in order. No record with the id remains. An absent id leaves the file unchanged. |
| `Routes.GetTalkers` | index.js:22-25 | 200 with the whole file in file order. |
| `Routes.GetTalkerById` | index.js:27-34 | 404 "Pessoa palestrante não encontrada" iff no record has the id. Otherwise 200 with the first record with the id. |
| `Routes.PostTalker` | index.js:122-138 | Refuses with the first failing check and leaves the file alone. Answers 500 on an empty file. Otherwise answers 201 with the new record, and the file is the sorted old records plus the new one. |
| `Routes.PutTalker` | index.js:140-157 | Refuses with the first failing check. Otherwise answers 200 with the replacement, and the file is the old records without the id plus the replacement. |
| `Routes.DeleteTalker` | index.js:159-165 | Refuses on a bad token. Otherwise answers 204, existing id or not, and afterwards no record has the id. |
| `Routes.PutThenGet` | index.js:147-155 | A well-formed PUT followed by a GET of the same id answers the replacement. |
| `Routes.DeleteThenGet` | index.js:160-164 | An authorized DELETE followed by a GET of the same id answers 404. |

## Left out

- HTTP plumbing is left out: Express routing, body-parser, and status and JSON writing. Replies are the `Reply` record.
- File I/O is left out: reading, parsing, serialising and writing `talker.json` (index.js:17-20, 135, 154, 163). The file is the store's sequence. A missing or malformed file, and parse failures, are not modelled.
- JSON key order of the written records is not modelled.
- The server start and the health-check route (index.js:13-15, 167) are not modelled.
- The email regular expression (index.js:38) is the parameter `emailOk` of `EmailAndPassword` and `PostLogin`. It is a third-party pattern, so the model does not restate it.
- Login randomness is a parameter: `crypto.randomBytes(8)` becomes the 8-byte parameter of `PostLogin`. Only the hex encoding of those bytes is modelled.
- JavaScript type coercion is left out. Age, rate and ids are integers. Names, dates, headers and passwords are strings. Not modelled:
  - `Number(...)` on strings;
  - NaN ids from a non-numeric path;
  - fractional rates passing the range check;
  - `null` fields;
  - a non-string `name` skipping the length check;
  - a numeric `password` going through `toString()`.
- String length is counted in Unicode scalar values. JavaScript counts UTF-16 code units. The two differ only for characters outside the Basic Multilingual Plane.
- The stored talk keeps only `watchedAt` and `rate`. The source stores the request's whole `talk` object (index.js:130, 133, 148, 151), so any other keys in it reach the file and the 201/200 reply in the source but not in the model.
- TalkerStore.Store.Create: ids are unbounded integers in the model. In the source, `talkers.sort(...)[0].id + 1` (index.js:132) is IEEE-754 double arithmetic, so once the largest id exceeds Number.MAX_SAFE_INTEGER (2^53 - 1) the `+ 1` can return the same id and create can repeat an id. The unique-id results for create (`CreateKeepsIds`, `Store.Create`, `Routes.PostTalker`) hold only below that bound.
- The body of Express's default 500 page is not modelled. It is `InternalError`.
- Concurrency is left out: two requests that race on read-modify-write of the file. Each modelled call runs alone against the store.
- The in-place reordering of the loaded array in create is modelled as one assignment of the sorted sequence. The intermediate array is not shared with anything, so nothing else can observe it.
