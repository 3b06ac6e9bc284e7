# Verified model of the Google Cloud provider

A model, in Dafny 4.11, of the decision logic of an infrastructure provider for Google
Cloud, with proofs of what it promises. HTTP is replaced by the small server the repository's
own fake defines, or by a server that may answer anything at all.

The repository's central claim is that a second plan is clean: what was created or updated,
read back, expressed in configuration's terms and diffed again, proposes nothing. It is the
work of several functions that walk a value and a schema side by side, and no one of them
states it. `CleanPlan.SecondPlanIsClean` does, as an equivalence, and
`Updates.OneUpdateIsEnough` does for whatever the resource looked like before. Around it:

- **The diff, reconcile and patch algebra** (`values`, `names`, `reconcile`, `matching`,
  `independence`, `drift`, `reordered`, `unordered`, `edits`, `patch`, `patchloops`, `plan`,
  `settles`, `cleanplan`, `updates`): what a Value survives on the wire; drift detection exact
  in both directions; lists Google may reorder, and exactly what in them does not depend on
  the reference; the mask and body of a patch, what applying them does and leaves alone, and
  when a whole-resource PUT is the same.
- **The server and optimistic locking** (`server`, `locking`): masks, the update envelope,
  fingerprints, the one-field rule; one-field patching among other writers, and alone.
- **The mutation protocol** (`protocol`): the orphan rule over every run of Update and Create
  against a server that may answer anything.
- **Url templates** (`urls`, `templates`, `roundtrip`, `selflinks`, `createcheck`): the printer
  and the parser of resource names undo each other; self links reduce to the names they were
  built from; what the static check of create urls is worth.
- **The generator** (`resolve`, `namelock`, `collisions`, `disambiguate`, `aliases`,
  `shuffled`, `aliasloops`): bounded inlining of cyclic schemas, the append-only name lock,
  collision resolution and its independence of the corpus order.
- **Arithmetic and iteration** (`limiter`, `paging`): the token bucket's rate, and paging.

`text` holds the parts of Go's string and sort libraries these rest on, `catalog` the
generated description of a type.

How to read it. A function or predicate says what a piece of the source computes; a method
with the source's loop or state change is proved to compute it; lemmas prove what the source
promises about it. Loops over Go maps are loops that take any key still left, so what is
proved of them holds for every iteration order. The source's errors are results, not
preconditions.

Preconditions that recur:

- `LevelOk`, `AttrOk`: what the generator guarantees of a schema: wire names unique in a
  level, free of `.` and `,`, none of a renamed attribute's the schema name of a sibling;
  fields only on maps and elements only on lists; nothing below an opaque attribute; no
  request option on or below a computed attribute.
- `Unshadowed`, `AliasFree`: no body or value spells a key in the other namespace of a renamed
  attribute. There the source leaves the outcome to map order.
- `Tellable`, `Firm`: where configuration and an answer meet in a list Google may reorder, no
  element of the one is answered by another, and the elements of the other read the same
  whichever reference element they are handed. `Independence.BesideIff` and
  `Independence.IndependentIff` say exactly when they do, and schemas without such lists
  always qualify (`Drift.OrderedIsTellable`, `Drift.OrderedIsFirm`).
- `Sendable`, `Configured`: configuration holds known values of the declared kinds and sets
  nothing GCP computes.

Where the repository's comments and its code differ, the model follows the code:

- `internal/gcprov/reconcile.go:414-419` says the reading of an element does not depend on
  which reference element it is handed, but for a list nested inside it. It also does for a
  string with two spellings, and for a computed field: `Independence.IndependentIff` is the
  exact condition for one element, `Reordered.RespelledInPlace` what it comes to for a list of
  strings, and `Reordered.SpellingDependsOnPosition` and
  `Reordered.ComputedFieldDependsOnReference` are instances.
- `internal/gcprov/crud.go:31-36` says no path returns an error after a create. One does, when
  the readback itself fails: `Protocol.CreateResource` states exactly when.
- `internal/gcprov/patch.go:604-607` says a PUT changes what a patch would. Where an opaque map
  drops a key it keeps the key: `Patch.PutIsMaskedPatch` is the exact condition.
- An input-only object the API never returns is clean after one update, whatever it holds
  (`Updates.NeverReturned`). One that a server holds back when it is diffed, and shows as the
  patch left it, needs a second update unless the patch alone fills it:
  `Updates.HiddenThenShown` is the exact condition and `Updates.HiddenObject` an instance.
- An opaque value that holds a whole float never converges (`CleanPlan.OpaqueEcho`).
- A fingerprint seeded in the form the fake server itself issues can come round again.
  `Server.LockComesRound` says after which runs, `Server.LockHoldsIff` that this is the only
  way a lock fails to hold, and the locking theorems ask that it is not so seeded.
- A rate below one request per second stops all requests (`RateLimit.TooSlowNeverGrants`).
- Which member of an alias cluster is kept can depend on the corpus order when members carry
  different magic-modules base urls: `Collisions.OrderDecidesIff` is the exact condition for
  two, and `Shuffled.CorpusOrderDoesNotMatter` shows nothing else depends on the order.
- `internal/catalog/catalog.go:663-667` says the static check strips a placeholder's marks
  exactly as ExpandURL does. It also takes a `%` off a single-brace name, so `{%x}` passes for
  `x` (`CreateCheck.MarkedPasses`; `CreateCheck.SameNames` is the exact condition), and it
  stops reading at a placeholder that is not closed, so `{a` passes unread
  (`CreateCheck.UnclosedPasses`). `CreateCheck.CreateUrlIsBuilt` says exactly when a url that
  passes is built.
- `internal/gcpfake/server.go:916-919` describes an update envelope with one mask. With two mask
  fields of which one is empty, the source's answer depends on map order: `Server.Unwrap`.

## Model

| member | source | states |
|---|---|---|
| Values.RawRoundTrip | internal/gcprov/ids.go:442-502 | toRaw undoes fromRaw on every JSON datum |
| Values.ValueRoundTrip | internal/gcprov/ids.go:442-502 | fromRaw of toRaw is the value itself with every whole float, at any depth, retyped as an integer |
| Values.RetypedIsIdentity | internal/gcprov/ids.go:474-480 | that retyping changes nothing if and only if the value holds no whole float |
| Text.SplitJoin | internal/gcpfake/server.go:577-587 | splitting at a separator undoes joining whenever no part holds the separator |
| Text.JoinSplit | internal/gcprov/ids.go:366-412 | joining undoes splitting, always, and no part of a split holds the separator |
| Text.SortedUnique | internal/gcprov/patch.go:242-253 | there is one sorted duplicate-free list of a set of names, so the sorted loops do not depend on map order |
| Names.SchemaWireSchema | internal/gcprov/names.go:99-183 | schema to wire to schema is the identity, at every depth, on declared values free of computed attributes, whole floats retyped |
| Names.WireSchemaWire | internal/gcprov/names.go:99-183 | wire to schema to wire drops exactly the attributes GCP computes and touches nothing under an opaque or undeclared key |
| Names.ReadDeclared | internal/gcprov/names.go:149-160 | a declared attribute reads as what the answer holds under its wire name, and is absent exactly when that is |
| Names.WrittenOnce | internal/gcprov/names.go:99-117 | every settable entry is written under its own wire name, whatever else is written |
| Names.FindSchemaName | internal/gcprov/names.go:69-98 | the search finds the one attribute with a wire name, in any map order |
| Names.WriteBody | internal/gcprov/names.go:99-117 | the loop builds the specified request body from any map order |
| Names.WriteValue | internal/gcprov/names.go:118-148 | the recursive writer builds the specified datum |
| Names.ReadBody | internal/gcprov/names.go:149-160 | the loop reads the specified attributes from any map order |
| Names.ReadValue | internal/gcprov/names.go:161-183 | the recursive reader builds the specified value |
| Drift.DriftIsExact | internal/gcprov/reconcile.go:66-111 | what is recorded for an answer equals a typed reference if and only if the answer answers it; a list Google may reorder takes part where its elements can be told apart without the reference |
| Drift.ObjectDriftIsExact | internal/gcprov/reconcile.go:339-405 | the same for objects: configured keys answered or excused, and extra keys ignored |
| Drift.ListDriftIsExact | internal/gcprov/reconcile.go:406-470 | the same for ordered lists, point by point |
| Drift.LeafDriftIsExact | internal/gcprov/reconcile.go:66-111 | the same for leaves, through exact coercion, project spelling and equivalence |
| Drift.UnorderedDriftIsExact | internal/gcprov/reconcile.go:406-470 | an answered list Google may reorder is recorded as the reference if and only if its elements, each read on its own, are the reference's in some order |
| Drift.CleanedMatched | internal/gcprov/reconcile.go:406-470 | dropping reserved labels after matching is dropping them before |
| Drift.EchoPlain | internal/gcprov/reconcile.go:406-470 | what was sent is read back from an element of a reordered list as it was, at every depth |
| Matching.MatchedConserves | internal/gcprov/reconcile.go:406-470 | matching reorders items and neither loses nor duplicates one |
| Matching.MatchedIsCanonical | internal/gcprov/reconcile.go:406-470 | items that are the reference's, each answered only by itself, plus extras come out in the reference's order with the extras after it in theirs |
| Matching.PermutationIsUndone | internal/gcprov/reconcile.go:406-470 | any reordering of the reference's items is put back exactly |
| Matching.PutBackIff | internal/gcprov/reconcile.go:406-470 | where each reference element is answered only by itself, the result is the reference if and only if the items are a reordering of it |
| Matching.ImmovableIff | internal/gcprov/reconcile.go:406-470 | no reference changes the order of a list if and only if each item says all that any later one says |
| Independence.IndependentIff | internal/gcprov/reconcile.go:406-420 | an element reads the same against every reference if and only if it holds no computed field, no string with a second spelling and no unordered list some reference would reorder |
| Independence.BesideIff | internal/gcprov/reconcile.go:406-420 | the same against every element a typed reference can hold: there a computed field at the top of the element does not matter |
| Independence.OtherSpellingIff | internal/gcprov/reconcile.go:220-237 | a string has a second spelling if and only if it names, by the id or the number, a project that has both and can be written with either, or the catalog's rule relates it to another |
| Reordered.ReorderingIsNotDrift | internal/gcprov/reconcile.go:406-470 | what was sent, answered in any order, is recorded as the reference, where its elements are independent of the reference and answered by no other |
| Reordered.RespelledInPlace | internal/gcprov/reconcile.go:414-420 | of a list of strings answered in any order with one of them in another spelling, the reference is recorded if and only if that one stands where the reference has it |
| Reordered.SpellingDependsOnPosition | internal/gcprov/reconcile.go:414-420 | a concrete schema, reference and answer that show spelling does depend on position, contrary to the comment there |
| Reordered.ComputedFieldDependsOnReference | internal/gcprov/reconcile.go:385-403 | so does a computed field: beside any element of the reference it is dropped, and beyond the last it is kept |
| Unordered.MatchToReference | internal/gcprov/reconcile.go:430-470 | the greedy loop over a used array computes the specified matching |
| Unordered.FirstUnused | internal/gcprov/reconcile.go:440-455 | the inner scan finds the least unused item that answers |
| Unordered.ReconcileValue | internal/gcprov/reconcile.go:66-97 | the dispatch computes the specified reconciliation |
| Unordered.ReconcileObject | internal/gcprov/reconcile.go:339-405 | the map loop computes the specified object in any map order |
| Unordered.ReconcileList | internal/gcprov/reconcile.go:406-470 | the list method computes the specified list |
| Unordered.ReconcileBody | internal/gcprov/reconcile.go:255-269 | the attribute loop computes the specified state in any map order |
| Unordered.WithoutReservedLabels | internal/gcprov/reconcile.go:547-592 | label stripping computes the specified value at every depth |
| Edits.MaskIsAntichain | internal/gcprov/patch.go:44-193 | no mask entry is a prefix of another or repeated |
| Edits.MaskFrame | internal/gcpfake/server.go:620-632 | a masked write leaves every path that is not at, above or below an entry as it was |
| Edits.MaskWrites | internal/gcpfake/server.go:821-836 | after a masked write every entry holds the body's value |
| Edits.AgreeingBodiesMatch | internal/gcprov/patch.go:44-113 | every mask entry is present in the body, and bodies that agree with a change hold the same there |
| Edits.MaskAppliesEdits | internal/gcpfake/server.go:620-632 | writing the dotted mask entry by entry is applying the change field by field, whatever else the body holds |
| Edits.ApplyEditsAt | internal/gcpfake/server.go:821-836 | what a change leaves under each name: its own value, and nothing new under names it does not mention |
| Edits.MergeReplaces | internal/gcprov/patch.go:604-622 | merging into an object replaces it if and only if it holds no key the change lacks |
| Edits.MergeIsMask | internal/gcprov/patch.go:604-622 | merging the body into the object is the masked write if and only if every value masked whole covers the object it meets |
| Edits.MaskCovers | internal/gcprov/patch.go:604-622 | that condition, asked of the mask's entries alone |
| Patch.DiffIsWellFormed | internal/gcprov/patch.go:44-113 | the diff changes no field twice and holds no empty nested change |
| Patch.MaskIsSettable | internal/gcprov/patch.go:60-75 | no mask entry passes through a computed attribute at any depth |
| Patch.DiffAgreesWithWire | internal/gcprov/patch.go:158-193 | the body holds at each changed field just what the whole configuration, written for the wire, holds there |
| Patch.OptionsKeepChange | internal/gcprov/patch.go:120-157 | request options added to a body leave the change it carries as it was |
| Patch.MaskedPatch | internal/gcprov/patch.go:44-193 | the mask is a prefix-free list of settable places the body fills as configuration does; applied to any object it writes those and leaves the rest |
| Patch.PutIsMaskedPatch | internal/gcprov/patch.go:336-345 | with no request option, PUTting the merged resource is the masked patch if and only if no entry replaces an object by one that lacks some key of it |
| PatchLoops.MaskSurvives | internal/gcpfake/server.go:577-595 | a mask joined by commas and dots is split by the server into the paths it was |
| PatchLoops.SettableIsDotFree | internal/gcprov/patch.go:44-193 | paths of a diff hold no separator, so the mask does survive |
| PatchLoops.BuildMask | internal/gcprov/patch.go:44-113 | the loop returns the diff's body with its options and its dotted mask |
| PatchLoops.BuildNested | internal/gcprov/patch.go:158-229 | the nested loop returns the sub-body and the mask under its path |
| PatchLoops.AddRequestOptions | internal/gcprov/patch.go:120-157 | the loop writes the specified options into the body |
| PatchLoops.MergeChanged | internal/gcprov/patch.go:608-622 | the map loop computes the merge in any map order |
| PatchLoops.AttrByCanonical | internal/gcprov/setters.go:15-22 | the scan finds the attribute with a wire name in any map order |
| PatchLoops.FindChangedSetters | internal/gcprov/setters.go:27-44 | the loops return exactly the setters with a field configuration sets and the resource lacks |
| PatchLoops.TopLevelFields | internal/gcprov/patch.go:400-411 | the loop returns the distinct first segments of a mask in order |
| PatchLoops.HeadsAreFields | internal/gcprov/patch.go:400-411 | those are the names of the changed top-level fields, each once |
| Plan.WireAnswers | internal/gcprov/names.go:161-183 | a body answers configuration in wire names if and only if its translation answers it in schema names |
| Plan.EchoAnswers | internal/gcprov/reconcile.go:66-111 | configuration written for the wire and read back answers itself |
| Plan.ReadsAsAnswers | internal/gcprov/reconcile.go:66-111 | an answer recorded as configured against any earlier reference answers the configuration |
| Plan.StateAt | internal/gcprov/reconcile.go:255-269 | what state holds for each attribute: the answer recorded against the reference, or what may stand in for a missing one |
| Settling.AppliedAt | internal/gcprov/patch.go:44-113 | a patch changes each attribute by its own difference and no other |
| Settling.EchoWire | internal/gcprov/reconcile.go:66-111 | configuration written for the wire answers itself, reordered lists and all |
| Settling.Settles | internal/gcprov/patch.go:44-193 | an attribute patched from whatever was read answers the configuration, but for input-only attributes below it that the server held back |
| Settling.FillsIff | internal/gcprov/patch.go:158-193 | the patch of an attribute the server holds back is by itself the whole configured value if and only if every configured part of it is changed, or may be left out |
| Settling.ReportAnswers | internal/gcprov/reconcile.go:339-405 | an answer that reports what the patch left, with extra keys, omitted zeros, other spellings and other list orders, answers the configuration |
| CleanPlan.NoneDue | internal/gcprov/setters.go:27-44 | no setter is sent if and only if none is due |
| CleanPlan.DiffIsEmpty | internal/gcprov/patch.go:44-113 | the mask is empty if and only if no attribute has a difference of its own |
| CleanPlan.DifferenceShows | internal/gcprov/patch.go:44-113 | the nested diff of what was read with no key configuration lacks is empty only if nothing differs |
| CleanPlan.AttrIsClean | internal/gcprov/reconcile.go:255-269 | however often one answer is read again, an attribute reads as configured if and only if the answer answers it |
| CleanPlan.SecondPlanIsClean | e2e/workflow_test.go:129-145 | after an answer is read back, once or any number of times, the next diff is empty and no setter is due if and only if the answer answers the configuration, attribute by attribute |
| Updates.OneUpdateIsEnough | internal/gcprov/patch.go:44-193 | read against any earlier state, diffed, patched and read again, the next diff is empty wherever the answer reports what the patch left |
| Updates.NeverReturned | internal/gcprov/reconcile.go:315-331 | an input-only attribute the answer leaves out reads as configured, whatever it holds |
| Updates.HiddenThenShown | internal/gcprov/reconcile.go:315-331 | an attribute held back when it was diffed and then shown as patched reads as configured if and only if the patch alone fills it |
| Updates.HiddenObject | internal/gcprov/reconcile.go:315-331 | a concrete object with one changed field: never returned it is clean after one update, held back and then shown it is not |
| CleanPlan.OpaqueEcho | internal/gcprov/ids.go:474-480 | an opaque value echoed unchanged reads as configured if and only if it holds no whole float |
| Server.FakeServer.HandlePatch | internal/gcpfake/server.go:561-654 | a patch is answered and applied as specified: missing resource, absent mask entry, stale fingerprint, too many fields, or the masked write and a new fingerprint; no other resource changes |
| Server.FakeServer.Patch | internal/gcpfake/server.go:588-653 | the same, from the decoded mask and body on |
| Server.AllPresent | internal/gcpfake/server.go:588-598 | the scan accepts exactly the masks whose every entry the body carries |
| Server.LookupDotted | internal/gcpfake/server.go:803-817 | the walk finds what the path names |
| Server.WriteMasked | internal/gcpfake/server.go:625-632 | the loop performs the specified masked write |
| Server.LockFollows | internal/gcpfake/server.go:605-645 | over any run of patches the fingerprint is the one read if nothing was accepted, and else the last issued |
| Server.LockComesRound | internal/gcpfake/server.go:605-645 | after any run of patches the fingerprint read is the current one if and only if none was accepted, or it is itself the last the server issued |
| Server.LockHoldsIff | internal/gcpfake/server.go:605-645 | a fingerprint tells, over every run, whether a patch was accepted since if and only if the server will not issue it later |
| Server.LockHolds | internal/gcpfake/server.go:605-611 | one that quotes such a fingerprint after another patch was accepted is refused and changes nothing |
| Server.SeededFingerprintComesRound | internal/gcpfake/server.go:639-645 | a resource seeded with a fingerprint the server has yet to issue, back in one accepted patch |
| Server.OneFieldRule | internal/gcpfake/server.go:613-622 | on a resource under the one-field rule whatever is accepted changes at most one top-level field, the fingerprint aside |
| Server.Unwrap | internal/gcpfake/server.go:920-944 | an update envelope is recognised, and nothing else is, in any map order, unless it holds two mask fields of which one is empty; what is recovered is its one object and a mask it holds |
| Server.WrapAndUnwrap | internal/gcprov/patch.go:376-396 | unwrapping recovers exactly the body and mask that were wrapped |
| Locking.PatchesAreFresh | internal/gcprov/patch.go:425-474 | whatever other writers send and when, each one-field patch quotes the lock it read and is accepted only if nothing was accepted since |
| Locking.RefusalEndsTheRun | internal/gcprov/patch.go:440-470 | a refused patch is the last one sent, and the server then holds what the others left |
| Locking.StaleFirstLock | internal/gcprov/patch.go:452-463 | a stale first lock sends one patch, which changes nothing |
| Locking.EntriesAreOwn | internal/gcprov/patch.go:437-444 | the per-field masks partition the mask: under a changed field that change's entries, under any other name none |
| Locking.QuietRunIsOnePatch | internal/gcprov/patch.go:425-474 | with no other writer every patch is accepted, quotes the fingerprint its predecessor produced, and the object ends as one masked patch would leave it, fingerprint apart |
| Locking.UpdateIsOnePatch | internal/gcprov/patch.go:425-474 | the same for the diff of any configuration on a type whose fingerprint no patch may name |
| Locking.PatchOneFieldAtATime | internal/gcprov/patch.go:425-474 | the loop leaves the server as specified, touches no other resource, and reports how many patches went through and which failed |
| Locking.EntriesUnder | internal/gcprov/patch.go:437-444 | the filter returns the mask's entries for one field |
| Protocol.Update | internal/gcprov/patch.go:264-372 | for every run: a state or an error and never neither; after any accepted change exactly what the readback found; without one an error, or nothing sent because nothing differs; calls in order |
| Protocol.UpdateThroughSetters | internal/gcprov/patch.go:497-538 | setters in order up to the first failure; once anything is changed the readback decides between state and error |
| Protocol.PatchOneFieldAtATime | internal/gcprov/patch.go:425-474 | fields in order, then setters; an error before anything changed, and otherwise what the readback found |
| Protocol.SendUpdate | internal/gcprov/patch.go:300-372 | a change that cannot be addressed or is refused is an error; an accepted one is reported by the readback |
| Protocol.CallSetter | internal/gcprov/setters.go:78-92 | sent is true exactly when Google accepted the call, and only then may a failure be reported as a change |
| Protocol.SetAfterCreate | internal/gcprov/setters.go:103-119 | never an error: the state in hand or a later reading of it |
| Protocol.CreateResource | internal/gcprov/crud.go:37-113 | for every run: a state or an error and never neither; after an accepted create an error if and only if reading back found no state and the await failed, there was no id, or the reading failed |
| Protocol.ReadAfterCreate | internal/gcprov/crud.go:310-333 | an id that cannot be computed is a failed reading; otherwise exactly one reading |
| Protocol.CreatedIDFallsBack | internal/gcprov/crud.go:192-214 | an answer never costs a created resource its id, and an id other than the fallback is the answer's own and inside the collection |
| Urls.EscapeRoundTrip | internal/gcprov/urls.go:79-84 | unescaping an escaped string gives it back, for every string of bytes |
| Urls.EscapedIsOneSegment | internal/gcprov/urls.go:79-84 | an escaped value holds no segment separator |
| Urls.CanonicalIsEscaped | internal/gcprov/ids.go:401-408 | escaping what a segment says gives the segment back if and only if its escapes are canonical |
| Templates.ExpandURL | internal/gcprov/urls.go:31-88 | the scanning loop computes the specified expansion or the first error |
| Templates.ExpandTemplate | internal/gcprov/urls.go:31-88 | scanning the text of a template gives its segments' texts joined, or the first failure among them |
| Templates.ParseAgainstTemplate | internal/gcprov/ids.go:366-412 | the index loops compute the specified match |
| Templates.CapturesPlaceholder | internal/gcprov/ids.go:421-434 | a written placeholder is recognised as itself and a literal as none |
| RoundTrip.ParseUndoesExpand | internal/gcprov/ids.go:366-412 | parsing an expanded id gives back the text of every placeholder's value, whatever bytes it is made of |
| RoundTrip.IdsAreDistinct | internal/gcprov/urls.go:31-88 | two sets of values that expand to one id agree on every placeholder |
| RoundTrip.ExpandUndoesParse | internal/gcprov/ids.go:366-412 | expanding a parsed id gives the id back if and only if every captured segment is escaped canonically |
| SelfLinks.FirstAnchoredIndex | internal/gcprov/ids.go:256-269 | leaping from occurrence to occurrence finds the same place as looking at every one |
| SelfLinks.ReduceSelfLink | internal/gcprov/ids.go:224-233 | the reduction computes the specified name or error |
| SelfLinks.ReducesOwnUrl | internal/gcprov/crud.go:699-701 | a type's own url under any scheme and host reduces to its relative name, even one that holds the prefix again, if the type has an api prefix |
| SelfLinks.ReducedIsLeast | internal/gcprov/ids.go:224-269 | what is cut away is the least head that ends in an anchored prefix |
| Resolve.ResolveSchema | internal/disco/resolve.go:32-44 | resolution returns the specified tree and truncation count, or fails, in any map order |
| Resolve.ResolveFrom | internal/disco/resolve.go:46-114 | the same from any depth; it terminates by hops left, then size |
| Resolve.TreeHasNoRefs | internal/disco/resolve.go:46-114 | what resolves holds no $ref at any depth |
| Resolve.FailsIffDangling | internal/disco/resolve.go:56-60 | resolution fails if and only if a path of at most eight hops ends at a dangling $ref |
| Resolve.CutsIffDeep | internal/disco/resolve.go:50-54 | nothing is truncated if and only if no path takes more than eight hops |
| Resolve.LargerBoundIsSame | internal/disco/resolve.go:8-24 | when nothing is truncated, any larger bound gives the same schema, count and failure |
| Resolve.SiteWins | internal/disco/resolve.go:67-79 | the description is the first one along the chain of $refs, and read-only is said by some schema along it that was not cut off |
| NameLock.AssignKeepsLock | internal/gen/names.go:96-146 | a call keeps every entry, keeps the lock injective, adds one per newcomer, names every candidate, and gives one name to one key only |
| NameLock.ShortNameIff | internal/gen/names.go:148-192 | a newcomer gets the short name if and only if it is ordinary, not generic, uncontested, and nobody else holds the name |
| NameLock.OutIsLock | internal/gen/names.go:96-146 | with distinct keys a candidate's name is the one the lock records |
| NameLock.NamesAreStable | internal/gen/names.go:44-50 | a name given by one call is given by every later successful call, whatever calls came between |
| NameLock.OrderDoesNotMatter | internal/gen/names.go:115-118 | with distinct keys names, lock and failure do not depend on the candidates' order |
| NameLock.Lock.Assign | internal/gen/names.go:96-146 | the loops compute the specified names and lock, and a failed call leaves the lock untouched |
| NameLock.NameQueue | internal/gen/names.go:132-142 | the naming loop stops at the first candidate that cannot be named |
| NameLock.CountWants | internal/gen/names.go:120-130 | the counting loop counts the newcomers that compete for each bare name |
| RateLimit.RateIsBounded | internal/gcprov/backoff.go:122-140 | takes between two times are granted at most qps times per second between them and one second more |
| RateLimit.RunIsBounded | internal/gcprov/backoff.go:122-140 | over any run the bucket stays between none and qps, and grants and tokens left come out of tokens held and accrued |
| RateLimit.WaitIsExact | internal/gcprov/backoff.go:135-140 | after a refusal, with no other grant, a take is granted if and only if the reported wait has passed |
| RateLimit.TooSlowNeverGrants | internal/gcprov/backoff.go:127-133 | below one per second no take is ever granted |
| RateLimit.Limiter.Take | internal/gcprov/backoff.go:122-140 | take answers and changes the bucket as specified |
| RateLimit.Limiter.WaitForToken | internal/gcprov/backoff.go:100-117 | with no other caller the wait is granted by its second round, never below one per second, and at once when unlimited |
| Paging.PagingIsComplete | internal/gcpfake/server.go:781-799 | following the tokens lists exactly the items in order and never meets a token twice |
| Paging.RequestsAreBounded | internal/gcprov/discover.go:363-414 | against any server drawing tokens from a finite set the loop makes at most one request more than there are tokens |
| Paging.ListAll | internal/gcprov/discover.go:363-414 | the loop computes the specified listing or stops at a repeated token |
| Paging.ReadItems | internal/gcprov/discover.go:385-405 | the item loop keeps what can be read, in order |
| Collisions.PreferenceIsOrder | internal/gen/collisions.go:187-214 | preference is total and transitive for any one base url, and ties only paths spelled alike |
| Collisions.CanonicalPathsMatch | internal/gen/collisions.go:142-161 | canonical paths match if and only if the paths differ only in root and in the spelling of the axis after it |
| Collisions.KeptIsPreferred | internal/gen/collisions.go:92-102 | the member kept of a cluster that shares a base url is preferred to all its members: rooted if any is, and on the locations axis if any rooted like it is |
| Collisions.WinnerIgnoresOrder | internal/gen/collisions.go:92-102 | and its path depends neither on the order of the cluster nor on what else the corpus holds |
| Collisions.OrderDecidesIff | internal/gen/collisions.go:187-214 | of two spellings of one resource the one kept depends on which is met first if and only if one is on the zones and one on the regions axis below one root, and just one of their base urls is on the zones axis |
| Collisions.WinnerDependsOnOrder | internal/gen/collisions.go:92-102 | two concrete members with different base urls, each kept in one of the two orders |
| Disambiguate.SettledIsApart | internal/gen/collisions.go:243-289 | after the rounds two survivors share a name only if both paths are exhausted |
| Disambiguate.SettledIsWalked | internal/gen/collisions.go:219-242 | a final name is the first one extended by the nearest segments of its own path |
| Disambiguate.SettledIgnoresOrder | internal/gen/collisions.go:256-289 | a survivor's final name does not depend on the order of the survivors |
| Disambiguate.Next | internal/gen/collisions.go:230-241 | the walker yields the segments leftward, skipping roots and axes |
| Disambiguate.DisambiguateByPath | internal/gen/collisions.go:256-289 | the rounds end, give each survivor its settled name in any map order, and change nothing else |
| Aliases.AliasesAreDropped | internal/gen/collisions.go:57-140 | of two entries of a group with one canonical path one at least is dropped, unless magic-modules names the whole group apart |
| Aliases.LoserIsAnAlias | internal/gen/collisions.go:103-115 | each dropped entry names the kept entry of its own service, name and canonical path, which is the winner of their cluster |
| Aliases.KeptOverAliases | internal/gen/collisions.go:92-102 | what is kept of a resource is preferred to every other spelling of it, where those share a base url |
| Aliases.KeptAreApart | internal/gen/collisions.go:119-123 | two kept entries of a group share a name only if both have walked their whole path |
| Aliases.OnlyNamesChange | internal/gen/collisions.go:57-140 | no entry changes but in its name, and no dropped one at all |
| Shuffled.CorpusOrderDoesNotMatter | internal/gen/collisions.go:57-140 | in whatever order the corpus is given the same entries are dropped and every entry ends with the same name, where spellings of one resource share a base url and differ |
| AliasLoops.ResolveCollisions | internal/gen/collisions.go:57-140 | every group is resolved as specified: the one kept entry of each resource, each loser dropped once for it, and the names left |
| AliasLoops.KeptAndDropped | internal/gen/collisions.go:125-139 | as many are kept and dropped as there were |
| AliasLoops.ResolveClusters | internal/gen/collisions.go:78-117 | of one group exactly the winner of each cluster survives, and every other member has lost to it |
| AliasLoops.ResolveGroup | internal/gen/collisions.go:66-124 | one group is resolved as specified without touching any other entry |
| AliasLoops.FindWinner | internal/gen/collisions.go:93-102 | the winner loop finds the specified member |
| AliasLoops.AreNamedApart | internal/gen/collisions.go:302-324 | the scan decides whether magic-modules keeps the members apart |
| CreateCheck.ExpandsIff | internal/gcprov/urls.go:31-88 | a url is built if and only if every placeholder is closed and every name it asks for holds a known scalar |
| CreateCheck.ExpandsAlike | internal/gcprov/urls.go:31-88 | a url depends on the names in its template and on nothing else |
| CreateCheck.UrlPlaceholders | internal/catalog/catalog.go:668-690 | the scanning loop returns the specified names in order |
| CreateCheck.CheckTemplate | internal/catalog/catalog.go:624-645 | the recursion, which terminates by bindings not yet expanded, adds exactly the blocked names of a template |
| CreateCheck.IsSettable | internal/catalog/catalog.go:651-661 | the lookup by key and then by wire name decides settable in any map order |
| CreateCheck.UnresolvedCreatePlaceholders | internal/catalog/catalog.go:607-649 | the check returns the blocked names of the create template, sorted |
| CreateCheck.WithCreateBindings | internal/gcprov/crud.go:640-670 | the loops are two passes over the bindings in some orders, and fill what two levels of bindings can with the values those have in every order |
| CreateCheck.PassesSettle | internal/gcprov/crud.go:649-670 | in whatever orders they are made, two passes fill what two levels of bindings can, with values that do not depend on the orders |
| CreateCheck.SameNames | internal/catalog/catalog.go:663-690 | the check reads the names ExpandURL asks for if and only if no name in single braces begins with a percent sign |
| CreateCheck.CreateUrlIsBuilt | internal/catalog/catalog.go:589-606 | where the check names nothing and what it relies on is supplied, the create url is built if and only if every placeholder is closed and no name is asked for that no pass can fill; and it is then the same url in every order |
| CreateCheck.MarkedPasses | internal/catalog/catalog.go:663-690 | any marked name in single braces passes the check for the attribute without the mark, and expansion then fails |
| CreateCheck.UnclosedPasses | internal/catalog/catalog.go:680-683 | any placeholder that is not closed passes the check unread, and expansion then fails |
| CreateCheck.DeadStays | internal/gcprov/crud.go:649-670 | no pass in any order fills a name that is marked, or bound by a template that cannot be read |

## Left out

- HTTP, JSON text, authentication, environment, messages on stderr and plugin wiring: one
  request is one step of a server.
- Operation polling and error classification: an await is an arbitrary success or failure.
- Wall-clock sleeping, timeouts and the patience of Read with a 404: a reading finds a state,
  none, or fails.
- Mutexes: steps are sequential, and interference matters only for the locking theorems.
- A value's Kind and Raw that disagree, and its Source: a Value here always holds the datum
  its kind names, so the two comparisons the source makes in order are one.
- Floating point rounding and the loss of integers beyond 53 bits in JSON: numbers are exact.
- The string rules behind each named equivalence: an arbitrary relation given to the
  reconciler, so what is proved holds whatever they are.
- Nested maps that setDotted, mergeChanged, addRequestOptions and bestEffortState update in
  place: values here, so aliasing between a body and what it was built from is not modelled.
- The regular expression that finds placeholders when a patch is built: the names a type's
  item urls mention are given with the type.
- Two schema attributes with one wire name: the generator rules it out, and the source's
  choice would depend on map order.
- The request body of a setter and of a create, short names taken from an id, wire aliases and
  the last placeholder filled from a name: no property here rests on them.
- The shapes of ProviderID that take an answered name as the id: Create's protocol holds for
  whatever ids an answer and the attributes give.
- Regional endpoints in url building: reduction is proved for the type's own base url.
- Reads by list, Cloud Asset search, ownership heuristics and documentation.
- The rest of the generator: prose heuristics and loading of external documents.
- Paging.Atoi: models decimal digits with an optional sign in Go's 64-bit range, which is all
  a page token can be here.
- Locking.PatchOneFieldAtATime: models a type whose mask is on the query string and a server
  that stores what it is sent; the adversarial run of the same loop is Protocol's.
- NameLock.NamesAreStable: asks for distinct keys in the call that gave the name; candidates
  that share a key may be named apart by one call, and only the last is recorded.
- NameLock.OrderDoesNotMatter: Go's sort is not stable, so candidates that share a key may be
  named in either order; keys are distinct here.
- Disambiguate.Next: the walkers' cursors are a list of numbers rather than objects.
- Resolve.ResolveFrom: which dangling $ref an error names is left open, because it depends on
  map order; a schema's identifier, format and default travel with it unchanged and are not
  fields here; sharing between the document and the copy does not arise for values.
- Drift.DriftIsExact: for lists Google may reorder, asks that the answer's elements read the
  same whichever element of the reference they are handed, and that no element of the
  reference is answered by another. Where they do not, position decides, as Reordered shows.
- CleanPlan.SecondPlanIsClean: asks the same of such lists, and, to be read more than once, that
  their elements read the same against anything; and answers that do not shadow an attribute.
- Settling.Settles: says nothing of input-only attributes below the one patched that the server
  held back; Settling.FillsIff says when the patch alone is their whole value.
- Updates.OneUpdateIsEnough: for attributes a patch carries; setters have their own calls.
- Independence.IndependentIff: a named equivalence is an arbitrary relation here, so that part
  of the condition is stated by it.
- Protocol.CreatedIDFallsBack: models the answer's own id and whether it lies outside the
  collection as given, so it says when the fallback is used and not what those compute.
- Server.Unwrap: leaves the outcome open for two mask fields of which just one is empty, which
  Go's map order decides; so does Server.FakeServer.HandlePatch.
- Collisions.OrderDecidesIff: is about clusters of two; larger ones are covered where their
  members share a base url, by Collisions.WinnerIgnoresOrder.
- Shuffled.CorpusOrderDoesNotMatter: asks that spellings of one resource share a base url and
  are spelled apart.
- CreateCheck.CreateUrlIsBuilt: the scope settings are among the attributes it is given, no
  name that begins with `%` is among them, and no binding's binding has a binding of its own.
