# Models of the ONDC gateway plugins

A Dafny model of five parts of the Beckn/ONDC gateway plugins, and proofs about them.

- **Level-1 validation** (`KeyNormalizer`, `KeySharing`, `RuleTree`, `RuleEvaluator`,
  `RuleReport`, `PayloadGraph`, `PayloadValidator`). The generated
  rule files are instances of two templates, a leaf and a group, so one rule tree stands for all of
  them. `RuleEvaluator` runs the loops as the generated code does, on cloned objects it writes to and
  deletes from; `RuleTree.Eval` is what they compute; `RuleTree.FailingPaths` and `RuleTree.Holds` are a
  second reading, by leaf positions. The proofs carry an evaluation through the filters, the search for
  the overall entry and the caller, down to the list of errors a client sees. `KeyNormalizer` is the pass
  that gives the payload's objects their keys before any rule looks at it, and what that pass promises;
  `KeySharing` says the same by where objects stand, without templates;
  `PayloadGraph` builds the mutable objects that rules walk from its result.
- **Network observability** (`AuditDispatcher`, `ResponseCapture`, `Uuid`). The dispatcher is a
  transition system over callers and workers; a run is any interleaving. The capture writer is a class
  whose fields are tied to the whole history of calls; the UUID printer writes an array in place.
- **Router** (`GoPath`, `RoutingRules`, `RouteSpec`, `Router`). The three-level index is proved against a
  backward scan of the rule list, and the `Router` class, with URL objects shared between index and
  answers, against the functions of `RouteSpec`.
- **Signatures and encryption** (`Decimal`, `Text`, `Utf8`, `AuthHeader`, `Base64`, `Signature`, `Envelope`). Header
  rendering and both header readers, decimal and base64 text, the signing string, and the encrypted
  envelope. Base64 follows section 4 of RFC 4648; the header and signing string follow sections 2.1, 2.3
  and 3.1 of draft-cavage-http-signatures-12. The hash, Ed25519, AES-GCM and the JSON library are
  parameters; what they promise is stated as a hypothesis (`Signature.Correct`, `Envelope.Lawful`).
- **Schema index** (`SchemaIndex`). The directory walk that files schemas under concatenated keys, and
  the key a request asks for.

`dafny verify dfyconfig.toml` checks everything.

## What turned out not to hold as stated

- The search for the overall entry of a report can panic, but only under the conditions of
  `RuleReport.PanicExactly`. Generated leaves always carry a description, so `RuleReport.NeverPanics`
  covers them.
- A group can also have a skip condition (`on_search.go:1563-1582`), so a group is entered when some element
  of its scope is not skipped; for a group without one this is the scope not being empty.
- The decryption middleware does not always answer. `aesGCM.Open` panics on a nonce that is not 12 bytes
  long (`pkg/crypto_util/encryption_util.go:116`), and nothing checks the length before; the panic leaves
  the handler without a status and without calling the next one. `Envelope.CrashExactly` says exactly when,
  `Envelope.EmptyNonceCrashes` and `Envelope.OverriddenNonceCrashes` give inputs, and by `Envelope.EnvelopeArrives` no envelope that
  `EncryptData` makes does it.
- `Sign` can panic on a short private key (`signer/signer.go:56`), but reslicing goes by the capacity of the
  decoded buffer, which is three bytes for four characters of text: it panics exactly when the text decodes
  and that is less than 32 (`Signature.SignPanicsExactly`). A 31-byte key signs as if a zero followed it
  (`Signature.EncodedKeySigns`), and the empty key panics (`Signature.EmptyKeyPanics`).
- Loaded stateful data never reaches a rule: the external data has one member, which the payload always
  overrides (`PayloadValidator.LoadedDataUnused`).
- The check for an envelope reads member names as they are, but decrypting also accepts them in another letter
  case and lets a later member replace an earlier one (`Envelope.LaterMemberWins`).
- A resolved URL does not end in the endpoint when the deciding rule excludes the action, no session
  override applies and the configured URL ends otherwise (`RouteSpec.DestinationKeepsEndpoint`;
  `RouteSpec.KeptUrlEndsOtherwise` is a case).
- The truncation flag also goes up for an empty write onto a full buffer (`ResponseCapture.TruncatedExactly`).
- A request can be answered with another file's schema even when every file follows the naming rules:
  the key `a_v1_v2_x` is that of `a/v1/v2_x.json` and of `a_v1/v2/x.json`. `SchemaIndex.MisleadsExactly`
  says for which requests.
- A signature made over the literal text `[object Object]` is accepted for every body
  (`Signature.LiteralHeaderFitsAnyBody`), as the comment in the code says.
- The router's comments and tests describe a wildcard domain and duplicate checks for version 2 rules;
  that code is commented out, and the model follows what runs.
- In `Route` the parameter `url` hides the package of that name, so a JSONPath URL is resolved against
  the request's URL (`router/router.go:396`); `RouteSpec.Urls` keeps the two apart.
- For a repeated header key the signature validator keeps the last value and the decryption middleware
  takes the first `keyId`.

## Model

| member | source | states |
|---|---|---|
| RuleTree.EvalStructure | ondc-validator/validationpkg/jsonvalidations/cancel.go:2555-2574 | A result list is never empty, is headed by the rule's own entry, that entry is valid exactly when all entries are, and code 200 goes with valid and 30000 with invalid, at every level |
| RuleTree.EvalPreorder | ondc-validator/validationpkg/jsonvalidations/cancel.go:2523-2574 | Entries come in preorder of the part of the tree that was entered |
| RuleTree.ObjectScopesEvaluate | ondc-validator/validationpkg/jsonvalidations/cancel.go:71-75 | Evaluation can err only over a scope that selects something other than an object |
| RuleTree.GroupDependsOnEntryOnly | ondc-validator/validationpkg/jsonvalidations/on_issue.go:1011-2310 | Over a whole tree: children run on the group's own input, so two documents that agree on the reached leaf scopes and on which groups are entered evaluate alike, however many elements the groups' scopes hold and whatever these contain |
| RuleTree.UnskippedGroupEntry | ondc-validator/validationpkg/jsonvalidations/on_issue.go:1012-1017 | A group without a skip condition runs its children exactly when its scope is not empty |
| RuleTree.FailingPathsExact | ondc-validator/validationpkg/jsonvalidations/cancel.go:2523-2538 | The list of failing positions holds every reached leaf that fails, each once, in declaration order |
| RuleTree.SortedUnique | ondc-validator/validationpkg/jsonvalidations/cancel.go:2523-2538 | Declaration order and membership determine such a list |
| RuleTree.LeafVerdict | ondc-validator/validationpkg/jsonvalidations/cancel.go:116-150 | Returning at the first failure decides the same as this: every object in the scope that the leaf does not skip, with the external data under its key, satisfies its check |
| RuleTree.LeafErrsExactly | ondc-validator/validationpkg/jsonvalidations/cancel.go:116-127 | A leaf errs exactly when a scan past objects that it skips or that satisfy its check meets something that is not an object |
| RuleTree.EnteredExactly | ondc-validator/validationpkg/jsonvalidations/cancel.go:71-77 | A group runs its children exactly when its scope holds an object that it does not skip, with the external data under its key |
| RuleTree.EvalErrsExactly | ondc-validator/validationpkg/jsonvalidations/cancel.go:71-75 | Evaluation errs exactly when some rule below entered groups meets something that is not an object, and the error names such a rule |
| RuleTree.HeadDebug | ondc-validator/validationpkg/jsonvalidations/cancel.go:2550-2562 | The debug text of a rule's entry: its configuration, or that of a nested test, once an object in its scope is not skipped, and empty before |
| RuleTree.NothingFails | ondc-validator/validationpkg/jsonvalidations/cancel.go:2530-2548 | No position fails exactly when every reached leaf holds on all of its scope |
| RuleEvaluator.JsonObject.Put | ondc-validator/validationpkg/jsonvalidations/cancel.go:565 | Setting a key changes that key and nothing else |
| RuleEvaluator.JsonObject.Delete | ondc-validator/validationpkg/jsonvalidations/cancel.go:603 | Deleting a key removes that key and nothing else |
| RuleEvaluator.Clone | ondc-validator/validationpkg/jsonvalidations/cancel.go:560-563 | Cloning a selected object gives a fresh one with equal fields, and anything else is refused |
| RuleEvaluator.Conclude | ondc-validator/validationpkg/jsonvalidations/cancel.go:152-165 | The closing entry of a rule: its name and verdict, and the code that goes with it |
| RuleEvaluator.Evaluate | ondc-validator/validationpkg/jsonvalidations/cancel.go:65-2575 | Running a rule computes Eval and leaves the payload, the external data and everything else that existed before unchanged |
| RuleEvaluator.EvaluateLeaf | ondc-validator/validationpkg/jsonvalidations/cancel.go:556-625 | The leaf template, with its skip that leaves the external key in the clone, computes Eval and changes no older object |
| RuleEvaluator.EvaluateGroup | ondc-validator/validationpkg/jsonvalidations/cancel.go:65-2575 | The group template, which reruns the children for every scope element and overwrites the last result, computes Eval |
| RuleEvaluator.RunChildren | ondc-validator/validationpkg/jsonvalidations/cancel.go:2523-2538 | Children run in order on the same input; the first error stops them, otherwise their lists are appended |
| RuleEvaluator.CheckAll | ondc-validator/validationpkg/jsonvalidations/cancel.go:2541-2548 | The verdict over a result list is that all entries are valid |
| RuleReport.Tests | ondc-validator/validationpkg/jsonvalidations/cancel.go:10-63 | The generated entry point, for every combination of flags, is Answer applied to Eval |
| RuleReport.DropDebug | ondc-validator/validationpkg/jsonvalidations/cancel.go:16-20 | Overwriting entries in place removes the debug data of every entry and nothing else |
| RuleReport.HideParents | ondc-validator/validationpkg/jsonvalidations/cancel.go:22-32 | Keeps, in order, the entries that are valid or described |
| RuleReport.KeepInvalid | ondc-validator/validationpkg/jsonvalidations/cancel.go:34-40 | Keeps, in order, the invalid entries |
| RuleReport.FindOverall | ondc-validator/validationpkg/jsonvalidations/cancel.go:42-57 | Returns the first entry with the root's name, and panics without one |
| RuleReport.EvalReports | ondc-validator/validationpkg/jsonvalidations/cancel.go:22-40 | The described failures in a result list are those of the failing leaves, in declaration order; all entries are valid exactly when no reached leaf fails |
| RuleReport.KeptFailures | ondc-validator/validationpkg/jsonvalidations/cancel.go:16-40 | What both filters leave of an evaluation, with or without debug data |
| RuleReport.PanicExactly | ondc-validator/validationpkg/jsonvalidations/cancel.go:42-54 | The panic is reached exactly when both filters are on, some leaf fails, no failing leaf has a description and no valid entry carries the root's name |
| RuleReport.DescribedFailures | ondc-validator/validationpkg/jsonvalidations/cancel.go:133-146 | When every leaf carries a description, so does every failure |
| RuleReport.NeverPanics | ondc-validator/validationpkg/jsonvalidations/cancel.go:52-54 | For described leaves the panic is unreachable for every tree, payload and combination of flags |
| RuleReport.ReportExactly | ondc-validator/validationpkg/jsonvalidations/cancel.go:10-63 | With both filters on, the report is the root's valid entry when nothing fails and otherwise exactly the failing leaves in declaration order |
| RuleReport.ReportSelects | ondc-validator/validationpkg/jsonvalidations/cancel.go:10-63 | For every combination of flags: the report holds exactly the entries that the flags let in, each once and in order, with or without debug data; when only failures are wanted and there are none, a valid root's own entry |
| RuleReport.FilterExactly | ondc-validator/validationpkg/jsonvalidations/cancel.go:22-40 | Filtering keeps exactly the entries it should, each once and in order |
| KeyNormalizer.Templates.Record | ondc-validator/validationpkg/validationutils/json_normalizer.go:36-42 | Adds an object's keys to its property's template and leaves the other templates alone |
| KeyNormalizer.Templates.Collect | ondc-validator/validationpkg/validationutils/json_normalizer.go:23-48 | The recursive pass adds, for every property, the keys of all objects that stand under it anywhere in the node, in whatever order properties are visited |
| KeyNormalizer.Templates.CollectProperties | ondc-validator/validationpkg/validationutils/json_normalizer.go:31-46 | The loop over the properties of an object does so for all of them |
| KeyNormalizer.FillMissing | ondc-validator/validationpkg/validationutils/json_normalizer.go:71-81 | Copies an object and adds the missing keys as null, changing no existing value |
| KeyNormalizer.UnionOf | ondc-validator/validationpkg/validationutils/json_normalizer.go:55-62 | The keys of all objects in an array |
| KeyNormalizer.ApplyToValues | ondc-validator/validationpkg/validationutils/json_normalizer.go:84-92 | Overwrites the values of an object with their normal forms while it is walked |
| KeyNormalizer.FillFromTemplate | ondc-validator/validationpkg/validationutils/json_normalizer.go:120-142 | Normalises an object and fills it from its property's template |
| KeyNormalizer.Apply | ondc-validator/validationpkg/validationutils/json_normalizer.go:51-117 | The recursive second pass computes Applied |
| KeyNormalizer.NormalizeKeys | ondc-validator/validationpkg/validationutils/json_normalizer.go:13-20 | The two passes compute Normalised |
| KeyNormalizer.NormalisedIsNormal | ondc-validator/validationpkg/validationutils/json_normalizer.go:9-12 | Values, array lengths and keys stay at every depth and new keys are null; objects under one property, and objects in one array, come out with the same keys; no key comes under a property that was not seen under it |
| KeyNormalizer.NormalExactly | ondc-validator/validationpkg/validationutils/json_normalizer.go:9-12 | A payload is left unchanged exactly when its objects share keys already, so normalising twice is normalising once |
| KeyNormalizer.NormalisedIsLeast | ondc-validator/validationpkg/validationutils/json_normalizer.go:9-12 | Every extension of a payload in which objects share keys also extends the normalised one: no key is added that need not be |
| KeySharing.SharedExactly | ondc-validator/validationpkg/validationutils/json_normalizer.go:9-12 | A payload is normal exactly when, wherever they stand, objects that are values of one property have the same keys, and so do objects that are items of one array |
| KeySharing.LeastSharing | ondc-validator/validationpkg/validationutils/json_normalizer.go:9-12 | Normalising gives the least extension of a payload in which objects share their keys so, and leaves exactly those payloads alone in which they do already |
| PayloadValidator.Merged | ondc-validator/validationpkg/main-validator.go:177-182 | The merged data has the loaded keys and the provided keys whose value is not null |
| PayloadValidator.MergeExternalData | ondc-validator/validationpkg/main-validator.go:168-193 | Through the JSON objects and back, provided data wins unless it is null |
| PayloadValidator.MergeFields | ondc-validator/validationpkg/main-validator.go:177-182 | Visiting the provided entries in any order gives the loaded ones overridden by the provided non-null ones |
| PayloadValidator.LoadedDataUnused | ondc-validator/validationpkg/main-validator.go:61-72 | For every payload but null the rules see its normal form as external data, whatever was loaded |
| PayloadGraph.Build | ondc-validator/validationpkg/main-validator.go:59-79 | The object graph of a value has a fresh object for each object in it, and shows rules what queries select from the value |
| PayloadGraph.AtSteps | ondc-validator/validationpkg/main-validator.go:75-79 | A location is followed step by step through properties and items |
| PayloadGraph.QueriedExactly | ondc-validator/validationpkg/main-validator.go:75-79 | What rules see of a query: the fields of the results that are objects, in order |
| PayloadValidator.PerformL1Validations | ondc-validator/validationpkg/main-validator.go:41-144 | The errors before any rule runs, in their order, and otherwise the report for the action's rule over the normalised payload's object graph and the external data |
| PayloadValidator.CollectErrors | ondc-validator/ondcvalidator.go:71-78 | One error per report entry, in order, with its code in decimal and its description |
| PayloadValidator.ValidatePayload | ondc-validator/ondcvalidator.go:41-98 | End to end, from the parsed body: which error each early return gives; otherwise accept when no leaf reached on the normalised payload fails, else one error per failing leaf in declaration order, and the documentation link last |
| PayloadValidator.VerdictExactly | ondc-validator/ondcvalidator.go:49-97 | The same verdict as a function of the rule tree and the payload |
| PayloadValidator.AcceptedExactly | ondc-validator/ondcvalidator.go:49-97 | Accepted exactly when no rule visited meets something that is not an object, and for every reached leaf each object in its scope that it does not skip satisfies its check |
| PayloadValidator.PreflightExactly | ondc-validator/validationpkg/main-validator.go:50-72 | Which fault comes before any rule runs: no store, no key, data that does not load, or an unknown action |
| PayloadValidator.DocLinkParts | ondc-validator/ondcvalidator.go:80-93 | The closing entry has no code, and its text is the fixed one with the host, the domain and the version or core version |
| Decimal.ParsePrinted | signvalidator/signvalidator.go:109-118 | Parsing a printed integer returns it on the whole 64-bit signed range and refuses it outside |
| Decimal.ParsesExactly | signvalidator/signvalidator.go:109-118 | A text parses exactly when, after one optional sign, it is digits for a value in range |
| Decimal.LeadingZeros | signvalidator/signvalidator.go:109-118 | Leading zeros leave the value as it is |
| Decimal.PrintInjective | signer/signer.go:40 | Different integers print differently |
| AuditDispatcher.ParseBounds | network-observability/networkobservability.go:288-306 | Queue size and worker count are at least 1: a positive configured value is kept, and 1000 and 2 stand in otherwise; jobs are dropped on a full queue unless that is switched off |
| AuditDispatcher.Safety | network-observability/networkobservability.go:558-606 | Every interleaving of callers and workers keeps: order of acceptance, one holder per job, one fate per settled call, the capacity and drop policy, workers started once and all of them, and first-in first-out with one worker |
| AuditDispatcher.CallsCounted | network-observability/networkobservability.go:576-578 | Every enqueue call of a run is in its state |
| AuditDispatcher.SendsRecorded | network-observability/networkobservability.go:596-606 | Every send that ends is recorded with its own outcome, in order |
| AuditDispatcher.HistoryGrows | network-observability/networkobservability.go:576-606 | What was accepted, taken, finished or dropped is never undone or reordered |
| AuditDispatcher.Conservation | network-observability/networkobservability.go:558-606 | In every run each job offered is, exactly once, on its caller's way to the channel, finished, in hand, queued, parked or dropped; jobs leave in acceptance order and none is handed out twice |
| AuditDispatcher.SingleWorkerFifo | network-observability/networkobservability.go:568-594 | With one worker the jobs sent so far are a prefix of the acceptance order |
| AuditDispatcher.Discipline | network-observability/networkobservability.go:558-588 | In every run: queue within capacity; drop mode never waits, the other mode never drops; waiting only on a full queue; no worker before the first call, never too many, all of them once any call gets to send |
| AuditDispatcher.DropsOnlyWhenFull | network-observability/networkobservability.go:579-587 | Over every run, a job has been dropped exactly when, in drop mode, its call tried to send at a moment when exactly capacity jobs were queued |
| AuditDispatcher.WorkerStepDecreases | network-observability/networkobservability.go:590-606 | Every worker step uses up one unit of pending work, whether or not the send succeeds |
| AuditDispatcher.WorkerCanMove | network-observability/networkobservability.go:568-594 | With sizes of at least 1, pending work means some worker can move |
| AuditDispatcher.StepDecreases | network-observability/networkobservability.go:568-606 | Every step other than a new call brings the system closer to rest |
| AuditDispatcher.SomeoneCanMove | network-observability/networkobservability.go:568-594 | Short of rest, some caller or worker can move: there is no deadlock |
| AuditDispatcher.RunDecreases | network-observability/networkobservability.go:568-606 | A run without new calls is bounded by the work remaining at its start |
| AuditDispatcher.RestAccounts | network-observability/networkobservability.go:576-606 | At rest every job offered was sent once or dropped once |
| AuditDispatcher.Drains | network-observability/networkobservability.go:568-606 | From every reachable state, any run without new calls that cannot go on has sent or dropped every job offered, exactly once, within the bound, and every call has returned |
| AuditDispatcher.CanDrain | network-observability/networkobservability.go:568-606 | From every reachable state there is a run without new calls to rest |
| AuditDispatcher.JobsGetSent | network-observability/networkobservability.go:558-606 | For every number of calls there is a run that comes to rest with each job sent or dropped, and with every one sent when nothing is dropped or there is one call |
| ResponseCapture.CaptureWriter.constructor | network-observability/networkobservability.go:347-349 | A new writer has captured nothing |
| ResponseCapture.CaptureWriter.WriteHeader | network-observability/networkobservability.go:351-356 | The call is passed on unchanged, and the fields stay what the whole history of calls determines |
| ResponseCapture.CaptureWriter.Write | network-observability/networkobservability.go:358-376 | The bytes are passed on unchanged and the underlying reply is returned; the buffer is the first maxBytes bytes of everything offered, nothing when maxBytes is not positive, and the flag says a write overran |
| ResponseCapture.CaptureWriter.BodyBytes | network-observability/networkobservability.go:378-380 | Returns the bounded prefix of all offered bytes, and whether a write overran |
| ResponseCapture.CaptureWriter.StatusCode | network-observability/networkobservability.go:382-387 | Reports the first status fixed by WriteHeader or Write, 200 when none was |
| ResponseCapture.FirstStatus | network-observability/networkobservability.go:351-361 | The status is what the first call other than a header of code zero fixes: a header its own code, a body 200 |
| ResponseCapture.NoStatus | network-observability/networkobservability.go:382-387 | Without such a call none is fixed |
| ResponseCapture.PrefixExactly | network-observability/networkobservability.go:362-374 | The captured prefix is as long as the limit allows, and empty for a limit that is not positive |
| ResponseCapture.OverranFills | network-observability/networkobservability.go:362-374 | A set flag means the buffer holds maxBytes bytes |
| ResponseCapture.TruncatedExactly | network-observability/networkobservability.go:362-374 | The flag goes up exactly when more than maxBytes bytes were offered or an empty write met a full buffer |
| ResponseCapture.TruncatedWithoutEmptyWrites | network-observability/networkobservability.go:362-374 | Without empty writes the flag is exactly: more than maxBytes bytes were offered |
| Uuid.Encode | network-observability/networkobservability.go:649 | Hex digits are written over their own stretch of the buffer and nothing else |
| Uuid.Mask | network-observability/networkobservability.go:646-647 | Two bytes of the random array are masked in place |
| Uuid.Print | network-observability/networkobservability.go:649-659 | Whatever the new buffer holds, the in-place writes cover all 36 places with the five runs and four dashes |
| Uuid.UuidV4 | network-observability/networkobservability.go:641-660 | The text is that of the masked bytes; a failing random source gives an error and no text |
| Uuid.Layout | network-observability/networkobservability.go:649-658 | Dashes stand at 8, 13, 18 and 23 and hex digits everywhere else |
| Uuid.RoundTrip | network-observability/networkobservability.go:649-659 | Decoding the text recovers all 16 bytes |
| Uuid.VersionAndVariant | network-observability/networkobservability.go:646-647 | The version digit is 4 and the variant digit 8, 9, a or b, for all random bytes |
| Uuid.MaskedElsewhere | network-observability/networkobservability.go:646-647 | Masking leaves the other 14 bytes and the lower bits of the two in place |
| Uuid.DigitsInOrder | network-observability/networkobservability.go:649-658 | Digits stand in the order of the bytes, the high digit first |
| Uuid.EqualOutputs | network-observability/networkobservability.go:641-660 | Two outputs are equal exactly when the inputs agree on the 122 free bits |
| Text.TrimPadded | signvalidator/signvalidator.go:101-104 | Trimming removes any padding around a text with clean edges and nothing of the text |
| Text.TrimKeeps | encryption-middleware/middleware.go:112 | Trimming keeps every character that is not cut, wherever it stands |
| Utf8.RoundTrip | encryption-middleware/middleware.go:112 | Text written as UTF-8 reads back as itself, for every text |
| Utf8.StrayByte | encryption-middleware/middleware.go:112 | A continuation byte on its own reads as the replacement character |
| Utf8.ReadsBack | encryption-middleware/middleware.go:112 | Bytes that read without a replacement character are those of the text they read as |
| Text.SplitConcat | signvalidator/signvalidator.go:97 | Splitting at a separator between two texts splits each of them |
| Text.SplitJoin | signvalidator/signvalidator.go:97 | Splitting a joined list gives the list back |
| GoPath.BaseOfJoinPath | router/router.go:436-441 | A plain endpoint is the last element of the joined path, for every base |
| GoPath.JoinPathStaysRooted | router/router.go:436-441 | Rooted and empty bases give rooted paths |
| GoPath.TrailingSlash | router/router.go:436-441 | A trailing slash on the base makes no difference |
| GoPath.JoinKeepsBase | router/router.go:436-441 | A clean base other than the root is kept as it stands, with the endpoint after it |
| GoPath.JoinAtRoot | router/router.go:436-441 | At the root, and on an empty base, the endpoint stands alone below the root |
| GoPath.DotsCancel | router/router.go:440 | A name and the ".." after it cancel, and a "." does nothing |
| GoPath.CleanIdempotent | router/router.go:440 | Cleaning a cleaned path changes nothing, and cleaning keeps whether a path is rooted |
| GoPath.BaseIsPlain | router/router.go:288 | An endpoint taken from a request path is plain unless it is a slash or a dot name |
| RoutingRules.IndexRefinesScan | router/router.go:141-222 | A domain or version is in the index exactly when some rule names it, endpoints or not, and an entry is there exactly when a rule lists the endpoint, with the route of the last such rule |
| RoutingRules.ScanFinds | router/router.go:167-219 | The scan finds a rule listing the endpoint when there is one |
| RoutingRules.ScanIsLast | router/router.go:142-219 | The last rule that lists the endpoint decides |
| RoutingRules.AcceptedExactly | router/router.go:228-269 | Validation accepts exactly the rules that name a version, carry what their type needs and have a route for every endpoint |
| RoutingRules.AcceptedBuilds | router/router.go:168-210 | A rule that passed validation builds a route, not nil, for each endpoint |
| RoutingRules.ValidatedBuilds | router/router.go:136-222 | Once validation accepts the rules, building the index cannot fail |
| RoutingRules.ValidatedHasNoNil | router/router.go:136-222 | And the index holds no nil route |
| RouteSpec.DestinationKeepsEndpoint | router/router.go:272-433 | Whatever rules, override, target type and request: the last path element of the destination is the endpoint asked for, exactly unless the deciding rule excludes the action, is not overridden, and its configured URL ends otherwise |
| RouteSpec.KeptUrlEndsOtherwise | router/router.go:178-190 | A rule that excludes the action and a request for endpoint x whose answer ends in y |
| RouteSpec.LookupLevels | router/router.go:302-325 | Lookup fails at domain, version or endpoint level exactly when no rule matches that far, and otherwise finds the last listing rule's route |
| RouteSpec.UrlAnswer | router/router.go:178-190 | The deciding url rule answers with its own URL, the endpoint joined on unless it excludes the action |
| RouteSpec.PublisherAnswer | router/router.go:172-177 | The deciding publisher rule answers with its publisher |
| RouteSpec.SellerAnswer | router/router.go:383-384 | The deciding bpp rule sends to the seller's URI in the body, or to its own URL when that is blank |
| RouteSpec.BuyerAnswer | router/router.go:385-386 | The deciding bap rule sends to the buyer's URI in the body, or to its own URL when that is blank |
| RouteSpec.ExtractedAnswer | router/router.go:387-406 | The deciding jsonPath rule sends to the URL found in the request under its path |
| RouteSpec.OverrideAnswers | router/router.go:327-379 | Each override answers with its own URL: care on its endpoints, gateway on search, and the tunnel when neither applies |
| RouteSpec.RefusedAnswer | router/router.go:302-325 | Without a deciding rule the answer is the error of the first level at which no rule matches |
| RouteSpec.ConfiguredExactly | router/router.go:84-112 | Each override URL comes from its own variable, and the first that does not parse stops the start |
| RouteSpec.RulesLoadExactly | router/router.go:122-139 | Rules load exactly when the path is given and its file reads, parses and holds accepted rules |
| RouteSpec.OverridePriority | router/router.go:330-379 | With the cookie for care on its endpoints, or for the gateway on search, neither the tunnel cookie nor the tunnel URL changes any answer |
| RouteSpec.NonProxyIgnoresSession | router/router.go:168-379 | When the rule that decides is not a proxy, cookies and override URLs do not change the answer |
| Router.JoinInto | router/router.go:436-441 | Joining returns the joined path and may leave a slash in the URL it was given, nothing else |
| Router.BuildEntry | router/router.go:168-210 | Builds the rule's route for an endpoint around a URL object of its own, or fails on a URL that does not parse |
| Router.ValidateRules | router/router.go:228-269 | Accepts exactly when every rule is well formed |
| Router.Router.LoadRules | router/router.go:122-222 | An empty path, an unreadable file, bad YAML and a malformed rule give their errors and leave the maps empty; otherwise the object's nested maps show the index built from the rules in order |
| Router.Router.BuildIndex | router/router.go:141-222 | Building cannot fail on accepted rules, and the maps show the index built from them |
| Router.Router.OverrideFrom | router/router.go:84-90 | A blank variable gives no URL, text that does not parse an error, and any other a URL object of its own |
| Router.Router.New | router/router.go:75-120 | Start-up reports the first of: no configuration, an override URL that does not parse, a rule file that does not load; otherwise the router has the configured override URLs and the index of its rules, which holds no nil route |
| Router.Router.OpenRule | router/router.go:157-166 | The maps for a rule's domain and version exist afterwards, and no entry changed |
| Router.Router.LoadRule | router/router.go:142-220 | Adds a rule's endpoints one by one, each with its own fresh URL object |
| Router.Router.StoreEntry | router/router.go:219 | Writes one entry through the nested maps and leaves every other one as it was |
| Router.Router.OverrideRoute | router/router.go:331-342 | Joins on a copy of the shared override URL, so the shared one keeps its path, or reports that it is not configured |
| Router.Router.TryOverrides | router/router.go:327-379 | Which session override applies, if any, in the order the cookies are checked |
| Router.Router.HandleProtocolMapping | router/router.go:412-433 | Uses the trimmed URI of the body, else the rule's URL, else fails |
| Router.Router.Extract | router/router.go:387-406 | Uses the extracted text when it is a non-blank URL |
| Router.Router.RouteRequest | router/router.go:272-409 | Answers as Routed says and changes nothing that existed before: index, route URLs and override URLs |
| Router.Router.RouteAll | router/router.go:272-409 | Over any run of requests each answer depends on its request alone, and index and override URLs end as they began |
| AuthHeader.ParseAuthHeader | signvalidator/signvalidator.go:94-127 | The loop collects parameters with later values winning, then reads created, expires and signature with the errors in that order |
| AuthHeader.ParseKeyId | encryption-middleware/middleware.go:132-154 | The search stops at the first keyId parameter and splits it, with an error for an empty header, a malformed value or none |
| AuthHeader.PartRoundTrip | signvalidator/signvalidator.go:101-105 | A rendered parameter reads back as its key and value, quoted or not, with blanks in front, and "=" in the value kept |
| AuthHeader.FieldsRoundTrip | signvalidator/signvalidator.go:94-107 | Reading a rendered header gives back the parameters |
| AuthHeader.OrderIrrelevant | signvalidator/signvalidator.go:94-107 | Reordering distinctly named parameters changes nothing |
| AuthHeader.SignedRoundTrip | signvalidator/signvalidator.go:94-127 | The validator reads exactly the rendered times and signature for all 64-bit times, and refuses a time outside that range or a missing or empty signature |
| AuthHeader.PrefixOptional | signvalidator/signvalidator.go:95-97 | The scheme name in front is optional, and nothing else of the header is left out |
| AuthHeader.PlainPartIgnored | signvalidator/signvalidator.go:101-102 | A part without an equals sign is passed over |
| AuthHeader.LastWins | signvalidator/signvalidator.go:100-107 | A repeated key has its last value |
| AuthHeader.OnlyGivenKeys | signvalidator/signvalidator.go:100-107 | A key that no parameter has is not read |
| AuthHeader.ReadExactly | signvalidator/signvalidator.go:109-126 | Which of the three fields refuses a header, and what it reads as otherwise |
| AuthHeader.NoKeyIdFound | encryption-middleware/middleware.go:138-153 | Without a keyId there is no sender |
| AuthHeader.KeyIdMalformed | encryption-middleware/middleware.go:146-149 | A keyId needs a bar |
| AuthHeader.KeyIdValue | encryption-middleware/middleware.go:145-150 | Splitting a keyId gives back its subscriber and key, whatever the algorithm part holds |
| AuthHeader.KeyIdRoundTrip | encryption-middleware/middleware.go:132-154 | The middleware reads back the subscriber and key of the first keyId parameter |
| Base64.EncodedText | signer/signer.go:72 | Encoded text is in the base64 alphabet and padding, and empty exactly for no bytes |
| Base64.RoundTrip | signvalidator/signvalidator.go:39 | Decoding an encoding gives the bytes back |
| Base64.StandardAlphabet | signvalidator/signvalidator.go:39 | The symbols are those of the standard alphabet, in order |
| Base64.GroupNumber | signvalidator/signvalidator.go:39 | Three bytes and their four sextets are the same 24-bit number |
| Base64.GroupSymbols | signvalidator/signvalidator.go:39 | Groups of one and two bytes end in padding |
| Base64.BreaksIgnored | signvalidator/signvalidator.go:39 | A line break anywhere makes no difference to decoding |
| Base64.EncodeInjective | signer/signer.go:38 | Different byte sequences encode differently |
| Base64.DecodedFits | signer/signer.go:46 | A text decodes to at most three bytes for four characters |
| Base64.EncodedLength | signer/signer.go:72 | Encoding takes four characters for every three bytes begun |
| Base64.DecodesInAlphabet | encryption-middleware/middleware.go:116-119 | A text that decodes has only characters of the alphabet, padding and line breaks |
| Signature.SigningTextInjective | signer/signer.go:40 | Signing strings are equal exactly for equal times and equal digests |
| Signature.SigningStringBinds | signvalidator/signvalidator.go:130-137 | The signing strings of two bodies are equal exactly for equal times and equal hashes |
| Signature.SigningTextLines | signer/signer.go:40 | The signing string has three lines: the two times in decimal, and the digest |
| Signature.ValidExactly | signvalidator/signvalidator.go:33-79 | For every header, key, body and time: accepted exactly when the header reads, its signature and the key decode, the key has 32 bytes, the time is in the window, and the signature verifies for the body or the literal |
| Signature.Unsaid | signvalidator/signvalidator.go:34-42 | A header that does not read, and a signature that does not decode, are refused as such |
| Signature.SaidVerdict | signvalidator/signvalidator.go:44-78 | Otherwise: refused outside the window, then for a key that does not decode to 32 bytes, then for a signature that fits neither, and accepted else |
| Signature.LiteralText | signvalidator/signvalidator.go:84 | The literal is "[object Object]" |
| Signature.SignPanicsExactly | signer/signer.go:44-58 | Signing panics exactly when the key text decodes and three bytes for four characters are fewer than 32; it signs exactly when the text decodes and they are not |
| Signature.EncodedKeySigns | signer/signer.go:46-57 | A key encoded without line breaks panics below 31 bytes, 31 bytes sign as if a zero followed, and of 32 or more the first 32 count |
| Signature.LongKeySigns | signer/signer.go:46-57 | A key of at least 32 bytes never panics, however its text is broken into lines, and its first 32 bytes count |
| Signature.EmptyKeyPanics | signer/signer.go:56 | The empty key panics |
| Signature.SignedReads | signvalidator/signvalidator.go:34-39 | Signing succeeds, and the validator reads the signature and times back out of any header carrying them |
| Signature.SignedHeaderExactly | signvalidator/signvalidator.go:33-79 | A header carrying Sign's output is accepted for its body at every time from created to expires and refused at every other time, whatever else the header holds and in whatever order |
| Signature.SignatureBindsBody | signvalidator/signvalidator.go:33-79 | Under an ideal signature scheme a header signed for one body is, inside its window, accepted for another exactly when their hashes agree or the signed body hashes like the fallback's literal, and is a mismatch otherwise |
| Signature.LiteralHeaderFitsAnyBody | signvalidator/signvalidator.go:63-76 | A header signed over the fallback literal is accepted for every body |
| Envelope.Sealed | pkg/crypto_util/encryption_util.go:42-69 | The envelope carries, each in base64: what is sealed up to its last 16 bytes, those 16, and the nonce |
| Envelope.SealedReads | pkg/crypto_util/encryption_util.go:71-81 | The envelope's text decodes to the JSON it was printed as, with its three members |
| Envelope.PartsDecrypt | pkg/crypto_util/encryption_util.go:71-122 | A printed envelope of any three parts decrypts as its parts do: a panic on the wrong nonce length, otherwise what the library opens |
| Envelope.EnvelopeRoundTrip | pkg/crypto_util/encryption_util.go:21-122 | Decrypting undoes encrypting for every plaintext, 12-byte nonce and usable shared key |
| Envelope.EnvelopeRecognised | encryption-middleware/middleware.go:111-128 | Every envelope is recognised, with or without blanks around it |
| Envelope.PrintedRecognised | encryption-middleware/middleware.go:111-128 | Any three parts, printed, are recognised as an envelope, and trimming leaves their text |
| Envelope.ForeignCharPasses | encryption-middleware/middleware.go:111-119 | A body with any character that is neither blank nor base64 is never taken for an envelope |
| Envelope.PlainJsonPasses | encryption-middleware/middleware.go:111-119 | A body whose trimmed text starts with a brace is never taken for an envelope |
| Envelope.RecognisedExactly | encryption-middleware/middleware.go:111-128 | A body is taken for an envelope exactly when, up to blanks, it is the base64 text of a JSON object whose values decode and which has the three names |
| Envelope.EncryptsExactly | pkg/crypto_util/encryption_util.go:21-40 | Encrypting succeeds exactly for a key that decodes and fits |
| Envelope.MembersRefused | pkg/crypto_util/encryption_util.go:78-81 | The payload struct does not decode exactly when a member named like a field holds anything but a string or null |
| Envelope.NullKeeps | pkg/crypto_util/encryption_util.go:78-81 | A null leaves a field as it was |
| Envelope.IncomingExactly | encryption-middleware/middleware.go:50-105 | The handler's answers case by case: plain bodies pass; 400 without a sender, 500 without a key from the registry or the agreement, 400 or a panic when the envelope does not decrypt, else the plaintext |
| Envelope.Handle | encryption-middleware/middleware.go:37-107 | The request goes on with its body replaced by the plaintext and a matching length, or untouched when it is no envelope; a refusal has its status; a panic has none; neither changes the request |
| Envelope.PanicsExactly | pkg/crypto_util/encryption_util.go:71-122 | Decrypting panics exactly when the struct the envelope decodes into has three texts that decode, under a key that fits, and its nonce is not 12 bytes |
| Envelope.CrashExactly | encryption-middleware/middleware.go:37-107 | The handler panics exactly on an envelope whose sender and shared key resolve, whose struct reading has texts that decode under a key that fits, and whose nonce there is not 12 bytes |
| Envelope.NonceLengthDecides | encryption-middleware/middleware.go:50-102 | For any three parts from a sender whose key resolves: a panic when the nonce is not 12 bytes, otherwise status 400 when the library refuses and the plaintext when it opens |
| Envelope.EmptyNonceCrashes | encryption-middleware/middleware.go:89 | An envelope with an empty nonce makes the handler panic |
| Envelope.LaterMemberWins | pkg/crypto_util/encryption_util.go:78-81 | A later member whose name is a field in any letter case replaces what the field would have been, and changes no other field |
| Envelope.ObjectArrives | encryption-middleware/middleware.go:50-102 | Any JSON object with the three names and a struct reading, in base64, arrives as what that reading decrypts to |
| Envelope.OverriddenNonceCrashes | encryption-middleware/middleware.go:89 | An envelope whose 12-byte nonce is followed by an empty NONCE makes the handler panic |
| Envelope.StrayBytePasses | encryption-middleware/middleware.go:112-119 | A stray byte after an envelope is not trimmed: the body passes on as it is |
| Envelope.EnvelopeArrives | encryption-middleware/middleware.go:50-102 | With a common shared key an envelope made by EncryptData is passed on as exactly its plaintext, and never makes the handler panic |
| Envelope.SignedEnvelopeArrives | encryption-middleware/middleware.go:50-105 | Sign, encrypt, receive, validate: the signature over the plaintext holds after decryption at every time in its window and no other |
| SchemaIndex.SchemaValidator.constructor | schemavalidator/schemavalidator.go:45-48 | A new validator has an empty cache |
| SchemaIndex.SchemaValidator.ProcessDir | schemavalidator/schemavalidator.go:147-199 | The recursive walk does what one pass over all .json files below does: it stops at the first that is refused, with its error, and the cache keeps what was filed before |
| SchemaIndex.FilesExactly | schemavalidator/schemavalidator.go:153-159 | The walk lists exactly the .json files that stand in the tree, in walking order, and once each when sibling names are distinct |
| SchemaIndex.RefusalExactly | schemavalidator/schemavalidator.go:159-191 | A file is refused exactly when it does not compile, lies less than three levels down or has a blank name |
| SchemaIndex.LaterFileWins | schemavalidator/schemavalidator.go:195 | A file filed later under the same key takes the place of an earlier one |
| SchemaIndex.AddFilesExactly | schemavalidator/schemavalidator.go:159-195 | Files are filed in walking order up to the first that does not compile, lies too high or has a blank component; without one, all are |
| SchemaIndex.KeyRoundTrip | schemavalidator/schemavalidator.go:180-193 | A conforming file can be read back off its key |
| SchemaIndex.DistinctFilesDistinctKeys | schemavalidator/schemavalidator.go:193-195 | Distinct conforming files get distinct keys |
| SchemaIndex.FilledHolds | schemavalidator/schemavalidator.go:193-195 | Filing files with distinct keys loses none: each is held under its own key and nothing else is |
| SchemaIndex.ConformingTreeLoads | schemavalidator/schemavalidator.go:129-207 | A conforming tree loads exactly when all its schemas compile, and then the cache holds exactly its files |
| SchemaIndex.ConformingTreeExactly | schemavalidator/schemavalidator.go:129-207 | The same over the files that stand in the tree: it loads exactly when they all compile, and then exactly they are filed |
| SchemaIndex.Normalise | schemavalidator/schemavalidator.go:83-84 | A request's domain is lower-cased with colons made underscores, character by character |
| SchemaIndex.LookupFindsPromised | schemavalidator/schemavalidator.go:66-94 | For an unambiguous request the lookup gives the file normalised domain/v + version/endpoint.json when the tree has it, and never another |
| SchemaIndex.TreeAnswers | schemavalidator/schemavalidator.go:66-94 | A conforming tree answers an unambiguous request with the file of its lower-cased domain, its version or core version, and its endpoint, if that file stands in the tree |
| SchemaIndex.LookupRefuses | schemavalidator/schemavalidator.go:66-71 | A request without a domain, or without any version, is refused |
| SchemaIndex.KeyHasFile | schemavalidator/schemavalidator.go:87 | Every key whose three parts, cut at the first "_v" and the next underscore, can be names belongs to a conforming file |
| SchemaIndex.ReadsAsPromised | schemavalidator/schemavalidator.go:79-87 | That file is the promised one exactly for unambiguous requests |
| SchemaIndex.MisleadsExactly | schemavalidator/schemavalidator.go:66-94 | For every request: some conforming tree answers it with the wrong file exactly when it has a domain and a version, its domain holds "_v" or its version an underscore, and its key reads as three names |
| SchemaIndex.MisleadingRequest | schemavalidator/schemavalidator.go:83-94 | Domain a:v1, version 2 and endpoint x is such a request |

## Left out

- The individual generated rules: their scopes, skip conditions and checks are fields of the rule tree.
- `GetJsonPath` and the rule predicates are parameters; a query gives the locations of the nodes that a path selects.
- `DeepCloneJSON`: a clone is a fresh object with equal fields; values nested in an object are immutable in the model, because the evaluator writes one top-level key only.
- `RuleReport.DropDebug` works on a list of entries, so sharing of entry objects between lists is not captured.
- Loading and saving stateful data, and the cache wrapper: what was loaded is a parameter.
- `convertToPayload` (`ondc-validator/ondcvalidator.go:127-145`): the parsed body, its transaction id and context fields are parameters.
- The dispatcher's HTTP and gRPC senders: a send is a step that ends with success or failure. A hand-off straight to a waiting worker is modelled as passing through the buffer, which is the same because the queue has room then; an unbuffered queue does not arise from the configuration.
- The other settings of the observability file, and `Flush`, `Hijack` and `Push` of the response writer.
- `decodeBody`, request capture and remapping.
- Reading a file, YAML parsing, the environment, `url.Parse` and JSONPath extraction are parameters; a URL is its path and everything else, so escaped path forms are not captured.
- Router.Router.RouteRequest: requires an index without nil routes, which New guarantees; the answer shares the index's URL object as the original's does, and what a caller does to it later is not modelled.
- What a publisher does with a route.
- SchemaIndex.LookupFindsPromised: leaves out compiling schemas and validating data against them; a cached schema is the path it was compiled from.
- SchemaIndex.Normalise: takes lower-casing as a function of one character that is done when done once and does the usual thing on ASCII, instead of the Unicode table.
- A .json file below the third level takes its key from its first three components, as in the original; AddFilesExactly covers it, the conforming trees exclude it.
- Envelope.SealedReads: takes from the JSON library that a printed object reads back as its three members in order; how its text is parsed into members is a parameter.
- Key agreement, the registry lookup, the outgoing middleware and the key manager are parameters or absent.
- Signature.SignedHeaderExactly: takes from Ed25519 that signatures verify under their own key (`Signature.Correct`).
- Signature.SignatureBindsBody: takes the ideal that a signature verifies for no other text (`Signature.Binding`), where Ed25519 makes that only infeasible to break.
- Current time is a parameter of validation.
