# EcoSpectre core, modelled in Dafny

EcoSpectre is a mobile app. The user photographs a product, a vision
service describes it, a scoring service rates how sustainable it is, and
the user consumes or rejects it. Each decision goes to a queue on the
device and then to an Express/MongoDB backend. This project models the
sequential logic at the core of that flow as pure functions over
immutable data, and proves what each piece promises:

- **ScanRoutes** (`backend/src/routes/scans.ts`) covers the scan
  ingestion route:
  - the optional-auth gate, which never rejects a request;
  - normalisation of the two accepted `score` shapes;
  - validation that names every missing field;
  - owner resolution;
  - the choice between the in-memory list and the durable store;
  - both listing paths and their common wire projection.
- **LocalScans** (`src/services/localScans.ts`) is the device queue. It is
  one JSON file holding the whole list. It provides fail-open reading,
  `add` (prepend with defaults), `getAll` (filter by owner, stable sort
  newest first) and `markSynced`.
- **ResultFlow** (`src/screens/ResultScreen.tsx`) covers the decision
  handler:
  - a re-entry guard;
  - a local save first, whose failure is swallowed;
  - a reset to the main screen;
  - a best-effort network create.

  It also gives the body the client posts, and proves where that body
  lands in the server's validation.
- **Processing** (`src/screens/ProcessingScreen.tsx`) is the analysis
  pipeline. It runs analyse → score → thumbnail and checks that the
  screen is still mounted before each stage. It navigates at most once
  and reports a failure only while mounted.
- **AuthStore** (`src/store/auth.ts`) is the session store: `signIn`,
  `signOut`, `updateUser` and `initialize`. It works over a key-value
  secure storage whose operations can fail part-way.
- **ServerConfig** (`backend/src/server.ts`) parses `CORS_ORIGINS`
  (split, trim, drop blanks) and holds the `PORT`/`MONGODB_URI` defaults.
- Supporting modules:
  - **Js** holds JavaScript values, truthiness, `typeof` and `Number()`.
  - **Strings** holds `split`, `join`, `trim` and first-occurrence
    `replace`.
  - **Seqs** holds filter, map, take and a stable descending sort.
  - **ScanTypes** holds the client records.
  - **Wrappers** holds `Option` and `Result`.

Every collaborator the code cannot see becomes a parameter:

- JWT verification is `verify: string -> Verdict`.
- String-to-number and date parsing are `parseNumeric` and `parseDate`.
- Database readiness, fresh ids and the clock are fields of an
  environment record.
- The vision and scoring services are functions to a `Result`.
- Storage faults are an index naming the awaited operation that fails.
- JSON serialisation of a user is an encoder/decoder pair.

In these places the code does less than a reader might expect, and the
model follows the code:

- A reader might expect scores to be limited to `0..100`, but there is
  no range check. Any non-NaN number, including a zero, 150, −5 or an
  infinity, is accepted (`ScanRoutes.AnyNumericScoreAccepted`).
- The breakdown is checked only for being an object. Its four components
  are never inspected.
- A durable create replies `{id}` with no `storage` field. Only the
  memory path says `storage: 'memory'`.
- The memory listing keeps stored order, which is newest created first
  because `create` prepends. It has no timestamp sort and no cap. Only
  the durable listing sorts and caps at 100.
- `markSynced` exists, but the decision flow never calls it. A record
  saved by the handler stays pending even after a successful create
  (`ResultFlow.SavedRecordStaysPending`).

The proofs also bring out some behaviour of the code as written:

- `signIn` accepts an empty token, but a restart does not restore that
  session (`AuthStore.EmptyTokenNotRestored`).
- A `signOut` that fails after deleting the token still ends the session
  at the next start (`AuthStore.PartialSignOutEndsSessionOnRestart`).
- `add` on a file that exists but cannot be read as a list replaces the
  file's content with the new record alone
  (`LocalScans.AddOverwritesUnreadableFile`).
- A record written to memory while the database is down never appears in
  a later durable listing (`ScanRoutes.MemoryWriteInvisibleToDurable`).

## Model

| member | source | states |
|---|---|---|
| ScanRoutes.OptionalAuth | backend/src/routes/scans.ts:11-20 | The gate never rejects. An identity is attached only when a header was sent, the token left after removing `Bearer ` is non-empty, and verification returned that identity. |
| ScanRoutes.BearerHeaderVerified | backend/src/routes/scans.ts:12-16 | For a standard `Bearer <token>` header, the identity attached is exactly what verifying `<token>` yields, or none for an empty token or a failed verification. |
| ScanRoutes.HeaderWithoutBearerUsedVerbatim | backend/src/routes/scans.ts:12-16 | A header with no `Bearer ` in it is verified as it stands. |
| ScanRoutes.NormaliseScore | backend/src/routes/scans.ts:39-55 | A score exists exactly for a numeric or object `score`. A numeric score is taken as is, with the top-level breakdown when, and only when, that is an object. An object score gives `Number(score.score)`, and its own `score.breakdown` when, and only when, that is an object. A breakdown is always an object, and there is never a breakdown without a score. |
| ScanRoutes.ObjectScoreIgnoresTopLevelBreakdown | backend/src/routes/scans.ts:50-55 | With an object `score`, the top-level `breakdown` has no influence. |
| ScanRoutes.PayloadShapesAgree | backend/src/routes/scans.ts:45-55 | A flat numeric score with a breakdown normalises exactly like the same pair nested under `score`. |
| ScanRoutes.MissingFields | backend/src/routes/scans.ts:57-63 | A field is listed as missing exactly when its check fails: a NaN or absent score, a non-object breakdown, or a falsy value for the other four. |
| ScanRoutes.MissingFieldsOrdered | backend/src/routes/scans.ts:57-63 | Missing fields come in the fixed reporting order, each at most once. |
| ScanRoutes.Validate | backend/src/routes/scans.ts:57-66 | The body is rejected exactly when some required field is missing, with the message naming all missing fields. An accepted body has a non-NaN score, an object breakdown and truthy labels, packaging, materials and action. |
| ScanRoutes.AllPresentAccepted | backend/src/routes/scans.ts:57-66 | With every field present, the body is accepted with its normalised score and breakdown. |
| ScanRoutes.AnyNumericScoreAccepted | backend/src/routes/scans.ts:45-64 | There is no range check: any non-NaN numeric score is accepted unchanged when the other fields are present. |
| ScanRoutes.SingleMissingFieldNamed | backend/src/routes/scans.ts:57-65 | With exactly one field missing, the message is the prefix followed by that field's name alone. |
| ScanRoutes.AllMissingFieldsNamed | backend/src/routes/scans.ts:57-65 | With every field missing, the message names all six, in reporting order. |
| ScanRoutes.NothingPresentAllMissing | backend/src/routes/scans.ts:57-63 | When no check passes, the missing list is the entire reporting order. |
| ScanRoutes.EmptyBodyLacksEverything | backend/src/routes/scans.ts:25-63 | An empty body fails every one of the six checks. |
| ScanRoutes.ResolveOwner | backend/src/routes/scans.ts:69 | The owner is the authenticated id when non-empty, else a truthy payload `userId`, else the all-zero guest id. It is never falsy. |
| ScanRoutes.Create | backend/src/routes/scans.ts:23-112 | 400 exactly on a validation failure, with its message. 500 exactly when the durable write fails, with the error's message or a generic one. Neither writes anything. With the database down, one record goes in front of the memory list and the reply says `memory`. Otherwise one record goes to the durable store with no storage tag, and the memory list is untouched. On either path the stored record is the posted one: the fresh id, the resolved owner, the clock, the normalised score and breakdown, and the posted labels, packaging, materials, OCR and brand text, thumbnail and action. |
| ScanRoutes.DurableQuery | backend/src/routes/scans.ts:157-166 | The query restricts the owner exactly when the caller is authenticated. A timestamp condition appears only with at least one bound. |
| ScanRoutes.QueryAgreesWithMemoryFilter | backend/src/routes/scans.ts:122-166 | The durable query selects a record exactly when the in-memory filter keeps it. |
| ScanRoutes.Project | backend/src/routes/scans.ts:132-153 | The wire shape sets `image` to the thumbnail and empties `top_factors`, `suggestion`, `disposal` and `user_note`. It copies the id, timestamp, score, breakdown, labels, packaging, materials, OCR and brand text, thumbnail and action, each into its own field. |
| ScanRoutes.ProjectKeepsAllButOwner | backend/src/routes/scans.ts:132-153 | Two records with the same projection differ at most in their owner. |
| ScanRoutes.ListMemory | backend/src/routes/scans.ts:122-154 | Every listed item is the projection of a visible record inside the bounds. Every such record is listed. The order is the stored order, with no cap. |
| ScanRoutes.DurablePage | backend/src/routes/scans.ts:167 | The page holds min(n, 100) of the n matching records, all of them when they fit, with timestamps non-increasing. |
| ScanRoutes.DurablePageNewest | backend/src/routes/scans.ts:167 | The page is the newest part of the matches. No record is on it more often than it matches, and every match cut off by the limit is no newer than any record on the page. |
| ScanRoutes.ListDurable | backend/src/routes/scans.ts:157-190 | Every listed item is the projection of a stored record matching the query. At most 100 items come back, and all matches when they fit. The listing is newest first. |
| ScanRoutes.ListDurableNewest | backend/src/routes/scans.ts:157-190 | No match is listed more often than it is stored. A match whose projection is not listed is no newer than any listed item, so the cap keeps the newest 100. |
| ScanRoutes.ProjectedPage | backend/src/routes/scans.ts:168-189 | Projection keeps each item's origin, the page's completeness and its timestamp order. |
| ScanRoutes.List | backend/src/routes/scans.ts:115-195 | With the database down, the listing comes from memory. Otherwise it comes from the durable store, or is a 500 exactly when the query fails. |
| ScanRoutes.CreateThenListMemory | backend/src/routes/scans.ts:72-154 | In memory mode, the creator's next unbounded listing starts with the new record, with the posted fields and the normalised score. |
| ScanRoutes.CreateThenListDurable | backend/src/routes/scans.ts:93-107 | In durable mode, when at most 100 records match, the creator's next unbounded listing contains the new record, with the posted fields and the normalised score. |
| ScanRoutes.MemoryWriteInvisibleToDurable | backend/src/routes/scans.ts:72-167 | A record created while the database is down never shows up in any durable listing. |
| LocalScans.ReadAll | src/services/localScans.ts:8-19 | Anything other than a stored array reads as the empty list. |
| LocalScans.ReadAfterWrite | src/services/localScans.ts:8-24 | What `writeAll` wrote is what the next `readAll` returns. |
| LocalScans.ReadFailsOpen | src/services/localScans.ts:9-18 | A failing file system, a missing file, empty text, bad JSON and non-array JSON all read as no scans. |
| LocalScans.OwnerOrLocal | src/services/localScans.ts:42 | An absent or empty owner becomes `local`. Any other owner is kept. |
| LocalScans.Add | src/services/localScans.ts:31-54 | The new record is in front of every earlier one, and it is exactly the record returned. It carries the fresh id and the given context, score and action. A timestamp or pending flag that was given is kept, even when it is 0 or false. Only absent ones default, to now and false. A failing rewrite rejects. |
| LocalScans.AddShiftsEarlierRecords | src/services/localScans.ts:51-52 | After `add` the list is one longer and every earlier record follows, unchanged and in order. |
| LocalScans.AddOverwritesUnreadableFile | src/services/localScans.ts:39-52 | Adding to a file that does not read as a list leaves the new record alone in the file. |
| LocalScans.ZeroTimestampKept | src/services/localScans.ts:43-49 | A zero timestamp and a false pending flag are kept, not replaced by defaults. |
| LocalScans.OwnedBy | src/services/localScans.ts:59 | A record survives the filter exactly when no or an empty user is given, or when the record is that user's. |
| LocalScans.GetAll | src/services/localScans.ts:56-62 | The result is a permutation of the filtered records, sorted by non-increasing timestamp with a missing one counting as 0. |
| LocalScans.GetAllWithoutUserKeepsEverything | src/services/localScans.ts:59 | With no or an empty user, every stored record is returned. |
| LocalScans.GetAllKeepsTies | src/services/localScans.ts:61 | The sort is stable: records with equal timestamps keep stored order. |
| LocalScans.AddThenGetAllFirst | src/services/localScans.ts:31-62 | A record added no older than its owner's other records is the first that owner's `getAll` returns. |
| LocalScans.FirstIndex | src/services/localScans.ts:66 | The result is the first position holding the id, or none exactly when no record has it. |
| LocalScans.MarkSynced | src/services/localScans.ts:64-72 | An unknown id writes nothing and succeeds. A known id clears `pending` and refreshes `updatedAt` on its first record only; every other record is unchanged. A failing rewrite rejects. |
| LocalScans.MarkSyncedKeepsIds | src/services/localScans.ts:64-72 | Marking changes no id, so every first index stays where it was. |
| LocalScans.IdsDecideFirstIndex | src/services/localScans.ts:66 | Lists with the same ids position by position agree on every first index. |
| LocalScans.MarkSyncedTwice | src/services/localScans.ts:64-72 | Marking twice is the same as marking once with the later time. |
| LocalScans.MarkSyncedClearsPending | src/services/localScans.ts:66-70 | After marking a known id, its first record reads back as not pending, with the new time. |
| ResultFlow.Decide | src/screens/ResultScreen.tsx:23 | The action is `consumed` exactly for the consume gesture. |
| ResultFlow.DecideInjective | src/screens/ResultScreen.tsx:23 | Different gestures give different actions. |
| ResultFlow.HandleAction | src/screens/ResultScreen.tsx:19-52 | While busy nothing happens. Otherwise the handler marks itself busy, attempts the local save, resets to Main, then requests the create with the card's data and the decided action. A warning appears exactly when the create fails, and the handler always ends not busy. |
| ResultFlow.TraceCountsOnce | src/screens/ResultScreen.tsx:22-51 | Every handled trace contains the reset, busy-on and busy-off effects once each. |
| ResultFlow.ResetExactlyOnce | src/screens/ResultScreen.tsx:22-51 | Whatever the save and the create do, navigation is reset exactly once, and the busy flag is set and cleared exactly once. |
| ResultFlow.LocalSaveFirst | src/screens/ResultScreen.tsx:26-35 | The local save carries the card, the decided action, now and `pending: true`, with a never-empty owner. A failing save changes neither the queue nor the rest of the trace. |
| ResultFlow.SavedRecordStaysPending | src/screens/ResultScreen.tsx:26-51 | The saved record is the queue's newest entry and stays pending, whether or not the create succeeds. |
| ResultFlow.OptionalContextJson | src/services/api.ts:109 | Only the five optional context fields can appear. Each appears exactly when it is set, holding its value as a string. |
| ResultFlow.ContextJsonFields | src/services/api.ts:109 | Spreading the context puts labels, packaging and materials at the top level of the body unchanged. The labels become an array of the same strings in the same order. |
| ResultFlow.CreateBodyFields | src/services/api.ts:106-110 | The server reads the whole assessment as `score` and the decided action's name as `action`. It reads the context's own labels, element by element and in order, and its packaging and materials. |
| ResultFlow.ScoreJsonNormalises | backend/src/routes/scans.ts:50-55 | A serialised assessment normalises to its own score and breakdown, whatever the top level says. |
| ResultFlow.ObjectScoreAccepted | backend/src/routes/scans.ts:50-66 | A body with a serialised assessment as `score` and the other fields present is accepted with that assessment's score and breakdown. |
| ResultFlow.ObjectScoreWithoutPackaging | backend/src/routes/scans.ts:57-65 | The same body with an empty packaging type is refused, naming that field alone. |
| ResultFlow.ClientBodyUsesObjectScore | src/services/api.ts:106-110 | The client's create passes validation whenever packaging and materials are non-empty, even with a zero score, and the server keeps the nested score and breakdown. |
| ResultFlow.ClientEmptyPackagingRejected | src/services/api.ts:106-110 | A client create whose context has no packaging type is refused with `packaging_type` named alone. |
| Processing.GenerateThumbnail | src/screens/ProcessingScreen.tsx:69-73 | The thumbnail is the image itself. |
| Processing.ProcessImage | src/screens/ProcessingScreen.tsx:27-67 | The run has navigated exactly when it had before or navigates now. A run that had navigated does not navigate again. A screen unmounted from the start does nothing. |
| Processing.HappyPath | src/screens/ProcessingScreen.tsx:27-60 | With both services succeeding and the screen mounted, the run is the three status/stage pairs, then one navigation with the draft. |
| Processing.EarlierUnmountIsPrefix | src/screens/ProcessingScreen.tsx:30-63 | The run with an earlier unmount is a prefix of the run with a later one. |
| Processing.NothingStartsAfterUnmount | src/screens/ProcessingScreen.tsx:30-57 | No stage call and no navigation happens past the point where the screen unmounted. |
| Processing.StagesInOrder | src/screens/ProcessingScreen.tsx:32-42 | Scoring is called only after analysis, on exactly its context. The thumbnail is made only after scoring succeeded, on the photo. |
| Processing.DraftContents | src/screens/ProcessingScreen.tsx:45-59 | The draft is the analysed context with image and thumbnail set to the photo, plus the stage-two score, `consumed` and the time. Navigation is the last step. |
| Processing.AnalysisFailureStops | src/screens/ProcessingScreen.tsx:30-66 | A failing analysis skips everything after it and is reported exactly when the screen is still mounted. |
| Processing.ScoringFailureStops | src/screens/ProcessingScreen.tsx:35-66 | A failing scoring stage skips the thumbnail and navigation, and is reported exactly when the screen is still mounted. |
| Processing.NavigatesAtMostOnce | src/screens/ProcessingScreen.tsx:57-60 | A run navigates at most once, and a screen that already navigated never navigates again. |
| AuthStore.SignIn | src/store/auth.ts:23-27 | On success the state is authenticated and ready with the user, and both keys hold the token and the serialised user. A failure keeps the state. A failing token write leaves storage as it was, and a failing user write leaves just the token written. No other key is added or changed. |
| AuthStore.SignOut | src/store/auth.ts:28-33 | On success the state is signed out with readiness kept, and both keys are gone. The token is gone as soon as the first deletion ran, and the user entry once the second did. A failure keeps the state. A failing first deletion leaves storage as it was, and a failing second one leaves just the token deleted. No key is added and no other key changes. |
| AuthStore.Merge | src/store/auth.ts:36 | Fields of the update win. Every other field of the user is kept. |
| AuthStore.UpdateUser | src/store/auth.ts:34-41 | With no user, nothing changes. Otherwise the merged user replaces the current one and is stored. A failing write leaves storage as it was, while the state still changes. |
| AuthStore.UpdateUserIdempotent | src/store/auth.ts:34-41 | Applying the same update twice equals applying it once. |
| AuthStore.UpdateUserStoresStateUser | src/store/auth.ts:36-39 | When the codec reads the merged user back, the stored user reads back as exactly the user the state holds. |
| AuthStore.Initialize | src/store/auth.ts:42-57 | The store always ends ready and never writes. It becomes authenticated with the parsed user exactly when both entries are present and non-empty and the user parses. Otherwise the session fields are unchanged. |
| AuthStore.SignInThenRestart | src/store/auth.ts:23-57 | After a sign-in with a non-empty token, and a user the codec reads back, a fresh start restores the same session. |
| AuthStore.EmptyTokenNotRestored | src/store/auth.ts:23-57 | A sign-in with an empty token is authenticated, but a restart does not restore it. |
| AuthStore.SignOutThenRestart | src/store/auth.ts:28-51 | After a sign-out, a restart comes up ready and signed out. |
| AuthStore.PartialSignOutEndsSessionOnRestart | src/store/auth.ts:28-51 | A sign-out failing after the token deletion leaves the running app signed in, but ends the session at the next start. |
| ServerConfig.NonBlank | backend/src/server.ts:14 | Keeps exactly the non-empty pieces. |
| ServerConfig.TrimAll | backend/src/server.ts:14 | Each piece is trimmed, one for one. |
| ServerConfig.Origins | backend/src/server.ts:14 | Every origin is a non-empty trimmed piece of the split value. |
| ServerConfig.OriginsAreClean | backend/src/server.ts:14 | Every parsed origin is non-empty, trimmed and comma-free. |
| ServerConfig.CorsOrigins | backend/src/server.ts:14-15 | With the variable unset there is no origin option. An option is configured exactly when the parse yields at least one origin, and it is that list. |
| ServerConfig.NonBlankAppend | backend/src/server.ts:14 | Dropping blanks distributes over concatenation. |
| ServerConfig.OriginsConcat | backend/src/server.ts:14 | The origins of `a,b` are those of `a` followed by those of `b`, so they are read left to right. |
| ServerConfig.OriginsOfSegment | backend/src/server.ts:14 | A comma-free value yields its trimmed self, or nothing when blank. |
| ServerConfig.BlankListIsUnrestricted | backend/src/server.ts:14-15 | Only commas and whitespace: no origin, and the same configuration as unset. |
| ServerConfig.EmptyValueIsUnrestricted | backend/src/server.ts:15 | The empty value is configured exactly like an unset one. |
| ServerConfig.CleanOriginParses | backend/src/server.ts:14 | A clean origin parses as itself. |
| ServerConfig.JoinedOriginsRoundTrip | backend/src/server.ts:14 | Joining clean origins with commas and parsing gives them back in order. |
| ServerConfig.MongoUri | backend/src/server.ts:19 | The variable when set and non-empty, else the local default. Never empty. |
| ServerConfig.PortSetting | backend/src/server.ts:34 | The default 5000 exactly when the variable is unset or empty. Otherwise its text, unparsed. |
| Strings.Split | backend/src/server.ts:14 | At least one piece, none containing the separator. |
| Strings.JoinSplit | backend/src/server.ts:14 | Joining the pieces with the separator gives the string back. |
| Strings.SplitConcat | backend/src/server.ts:14 | `a + sep + b` splits into the pieces of `a` followed by those of `b`. |
| Strings.Trim | backend/src/server.ts:14 | The result neither starts nor ends with whitespace. It is a middle part of the input with only whitespace cut away, and it is empty exactly for an all-whitespace input. |
| Strings.ReplaceFirst | backend/src/routes/scans.ts:12 | An occurrence at the start is replaced there. |
| Strings.ReplaceFirstAt | backend/src/routes/scans.ts:12 | Only the first occurrence is replaced, and the rest of the string is kept. |
| Strings.ReplaceFirstAbsent | backend/src/routes/scans.ts:12 | Without an occurrence the string is unchanged. |
| Seqs.Filter | src/services/localScans.ts:59 | The kept elements are exactly those satisfying the predicate, no more than the input. |
| Seqs.FilterAppend | src/services/localScans.ts:59 | Filtering distributes over concatenation, so relative order is kept. |
| Seqs.SortDesc | src/services/localScans.ts:61 | A permutation of the input with non-increasing keys. |
| Seqs.SortDescStable | src/services/localScans.ts:61 | Equal keys keep their input order. |
| Seqs.SortDescFront | src/services/localScans.ts:61 | An element whose key is no smaller than every other key stays in front. |

## Left out

- Token verification (`jsonwebtoken`), string-to-number parsing inside `Number()`, and date parsing (`new Date(..).getTime()`) are parameters. An unparseable date, which gives NaN and makes every comparison false, is not modelled. Bounds are integers.
- Database connection state, ObjectId generation, `Date.now`, `toISOString` and `Math.random` ids are inputs. Nothing guarantees that local ids are unique.
- Mongoose schema casting and validation on `Scan.create` are not modelled. The durable store stores what the route passes and fails only through the supplied fault.
- ScanRoutes.ListDurable: MongoDB does not fix the order of records with equal timestamps. The model picks stored order, so only the non-increasing timestamp order is promised.
- ScanRoutes.OptionalAuth: a decoded `userId` claim is modelled as an optional string. Non-string claims are not modelled.
- JSON serialisation is assumed lossless: `writeAll` then `readAll` returns the same list, and a parsed list is taken to hold well-formed records. A stored array whose elements lack fields is not modelled.
- The assessment's numbers are reals. The client sends the factors as an array of the right length, which the server ignores.
- Concurrency is not modelled. Interleaved `add` calls racing on the whole-file rewrite, React's scheduling and stale closures, and a screen unmounting during an await are reduced to a count of completed stages.
- Logging (`console.error`, `console.warn`) is not modelled, except the network warning, which appears as an effect.
- The network client (`fetch`, timeouts, headers) is a success/failure outcome. Only the body shape of `createScan` is modelled.
- ScanRoutes.Project: it gives the reply object before `res.json` serialises it. JSON turns an infinite score into `null` and omits `undefined` fields, and that step is not modelled.
- AuthStore.SignInThenRestart: the user's JSON round trip is a parameter, assumed for the one user signed in. `JSON.stringify` drops `undefined` fields, so a user holding one is not restored as it was.
- Processing.ProcessImage: the initial status text set before the pipeline starts, and the rendering of the error view, are presentation and not modelled.
- Presentation components, the auth routes, `App.tsx` and `src/config/env.ts` are not part of this model.
- The `PORT` text is passed on unparsed, as the code does. Listening on it and connecting to the database URI are I/O.
