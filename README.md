# Runtime configuration overrides, modelled in Dafny

This project models the dynamic runtime-configuration subsystem of Weaviate. A
server changes some settings without a restart by re-reading a configuration
document. The subsystem has three parts:

- **the dynamic value cell** (`runtime.DynamicValue[T]`): a mutable holder of
  one typed value and of the default it was constructed with. `Get`,
  `SetValue` and `Reset` are its operations. Through a nil reference, `Get`
  reads the type's zero value and `SetValue` does nothing;
- **the strict overlay parser** (`ParseRuntimeConfig`): it turns a document
  into a sparse overlay that holds an entry only for the keys present. Any key
  the schema does not know fails the whole parse, with a problem naming that
  key, and no overlay is returned;
- **the registry and the reconciler** (`WeaviateRuntimeConfig`,
  `UpdateRuntimeConfig`). The registry holds seven possibly-nil references to
  cells owned by the caller. The reconciler walks every slot in declaration
  order. It sets a slot to the overlay's value when the key is present. It
  resets the slot to its cell's construction-time default when the key is
  absent. For each slot whose value read through `Get` changes, it emits a
  change record (field, old value, new value).

Files:

- `wrappers.dfy`: `Option` and `Result`.
- `runtime.dfy` (module `Runtime`): the cell as a class, plus the nil-safe
  entry points over `Option<DynamicValue>`.
- `snakecase.dfy` (module `SnakeCase`): the key-naming rule
  `^[a-z]+(_[a-z]+)*$`, as a matcher. The matcher is proved equal to the
  language the expression denotes.
- `schema.dfy` (module `Schema`): the slot table. It gives each slot's field
  name, position, value kind and document key. It replaces the reflection
  walk over the struct's fields.
- `parser.dfy` (module `Parser`): the overlay and `ParseRuntimeConfig`.
- `reconcile.dfy` (module `Reconciliation`): what one reconciliation pass does,
  stated on values. `Reconcile` gives the new registry and the change trail.
  The lemmas here state the reconciler's guarantees.
- `config.dfy` (module `Config`): the registry as a class and
  `UpdateRuntimeConfig` as a method that writes through the references. The
  method is proved to do exactly what `Reconcile` says.
- `scenarios.dfy` (module `Scenarios`): the subtests of
  `usecases/config/runtimeconfig_test.go` that exercise the parser, the cell
  and the reconciler. The update, `SetValue`, log-line and priority subtests
  are played out on freshly allocated cells, and the nil-receiver subtest on
  nil references, which allocates no cell; the values read back are the
  methods' results. The parse subtest (lines 30-44) is
  stated on values, as lemmas about `ParseRuntimeConfig`, without cells. The
  two tag subtests (lines 46-74) are not here: they are the key-check lemmas
  of `schema.dfy` and `snakecase.dfy`.

The implementation files of the subsystem are not part of this model. The
behaviour is taken from the tests in `usecases/config/runtimeconfig_test.go`.
Where the tests are silent, this model chooses:

- the parser also rejects a value of the wrong type and a repeated key, and it
  reports the problem of every bad entry rather than stopping at the first;
- a change record is emitted when the value read through the slot differs
  before and after the pass, so a nil slot never emits one.

The Go implementation may differ on each of these; see "## Left out".

## Model

| member | source | states |
|---|---|---|
| Runtime.ZeroOf | usecases/config/runtimeconfig_test.go:119-122 | the zero value of each kind (0, false, "", zero duration) has that kind |
| Runtime.DynamicValue.New | usecases/config/runtimeconfig_test.go:197-201 | `NewDynamicValue(d)` holds d both as current value and as default |
| Runtime.DynamicValue.Zero | usecases/config/runtimeconfig_test.go:93-99 | a cell declared without initialiser holds the zero value of its kind, as current value and as default |
| Runtime.DynamicValue.Get | usecases/config/runtimeconfig_test.go:211-215 | the value read always has the cell's kind |
| Runtime.DynamicValue.SetValue | usecases/config/runtimeconfig_test.go:204-208 | after `SetValue(v)`, `Get` returns v and the cell stays well-typed |
| Runtime.DynamicValue.Reset | usecases/config/runtimeconfig_test.go:258-264 | after `Reset`, `Get` returns the construction-time default |
| Runtime.NilSafeGet | usecases/config/runtimeconfig_test.go:188-193 | through nil, `Get` returns the zero value of the slot's kind; the result always has that kind |
| Runtime.NilSafeSetValue | usecases/config/runtimeconfig_test.go:171-193 | through a cell, `Get` afterwards returns v; through nil it still returns the zero value |
| Runtime.NilSafeReset | usecases/config/runtimeconfig_test.go:132-160 | through a cell, `Get` afterwards returns the default; through nil nothing happens and the zero value is read |
| Schema.KindOf | usecases/config/runtimeconfig_test.go:93-99 | the type parameter of each slot's cell: int, bool, bool, string, string, bool, duration |
| Schema.Key | usecases/config/runtimeconfig_test.go:102-110 | the yaml/json key of each slot; three of them occur in the tests and four are derived from the field names |
| Schema.Index | usecases/config/runtimeconfig_test.go:102-110 | each slot has a position in declaration order, and the table holds the slot there |
| Schema.IndexOfPosition | usecases/config/runtimeconfig_test.go:102-110 | the slot at position n has position n |
| Schema.AllFieldsOrdered | usecases/config/runtimeconfig_test.go:102-110 | each slot occurs once in the declaration order, and positions increase along it |
| Schema.FieldOfKey | usecases/config/runtimeconfig_test.go:35-42 | a key maps to the slot whose key it is; a key no slot has maps to nothing |
| Schema.KeyRoundTrip | usecases/config/runtimeconfig_test.go:35-38 | looking up a slot's own key gives that slot back |
| Schema.SchemaKeysAreLowerSnakeCase | usecases/config/runtimeconfig_test.go:46-74 | every slot's key passes the key check and is in the language of `^[a-z]+(_[a-z]+)*$` |
| Schema.MaximumAllowedCollectionsCountKeyChecked | usecases/config/runtimeconfig_test.go:78-85 | the key `maximum_allowed_collections_count` passes the key check |
| Schema.AutoschemaEnabledKeyChecked | usecases/config/runtimeconfig_test.go:78-85 | the key `autoschema_enabled` passes the key check |
| Schema.AsyncReplicationDisabledKeyChecked | usecases/config/runtimeconfig_test.go:78-85 | the key `async_replication_disabled` passes the key check |
| Schema.TenantActivityReadLogLevelKeyChecked | usecases/config/runtimeconfig_test.go:78-85 | the key `tenant_activity_read_log_level` passes the key check |
| Schema.TenantActivityWriteLogLevelKeyChecked | usecases/config/runtimeconfig_test.go:78-85 | the key `tenant_activity_write_log_level` passes the key check |
| Schema.RevectorizeCheckDisabledKeyChecked | usecases/config/runtimeconfig_test.go:78-85 | the key `revectorize_check_disabled` passes the key check |
| Schema.ReplicaMovementMinimumAsyncWaitKeyChecked | usecases/config/runtimeconfig_test.go:78-85 | the key `replica_movement_minimum_async_wait` passes the key check |
| SnakeCase.IsLowerSnakeCase | usecases/config/runtimeconfig_test.go:78-85 | the key check, as a left-to-right condition on the characters of the key |
| SnakeCase.MatcherCorrect | usecases/config/runtimeconfig_test.go:78-85 | the key check accepts a string exactly when it is one or more lower-case words joined by single underscores (both directions) |
| SnakeCase.ShapeIsScan | usecases/config/runtimeconfig_test.go:81-82 | the character-level shape of a key is exactly what the left-to-right automaton of the expression accepts |
| SnakeCase.JoinSplit | usecases/config/runtimeconfig_test.go:81-82 | cutting a string at its underscores and joining the pieces with underscores gives the string back |
| SnakeCase.ScanSkipsWord | usecases/config/runtimeconfig_test.go:81-82 | the automaton reads a word of lower-case letters and continues in the after-letter state |
| SnakeCase.ScanAcceptsJoin | usecases/config/runtimeconfig_test.go:81-82 | the automaton accepts any non-empty list of words joined by underscores |
| SnakeCase.ScanSplit | usecases/config/runtimeconfig_test.go:81-82 | when the automaton accepts a string, every piece after the first underscore is a non-empty lower-case word, and the first piece is lower-case and non-empty at the start of a key |
| Parser.Lookup | usecases/config/runtimeconfig_test.go:36-38 | an overlay's entry for a slot has that slot's type |
| Parser.With | usecases/config/runtimeconfig_test.go:113-116 | setting one slot's entry changes that slot's entry and no other |
| Parser.LookupDetermines | usecases/config/runtimeconfig_test.go:113-116 | two overlays with the same entry for every slot are equal |
| Parser.WellFormed | usecases/config/runtimeconfig_test.go:35-43 | a document the parser accepts: every key names a slot, every value has that slot's type, and no key occurs twice |
| Parser.EntryProblem | usecases/config/runtimeconfig_test.go:40-42 | an entry has no problem exactly when its key is known, its value has the slot's type and the key was not seen before; a problem names the entry's key; an unknown key gives an unknown-key problem |
| Parser.Problems | usecases/config/runtimeconfig_test.go:40-42 | a document has no problems exactly when the schema accepts it; the problem of every bad entry is reported, and every unknown key in particular; every problem names a key of the document |
| Parser.Build | usecases/config/runtimeconfig_test.go:113-116 | the overlay holds each entry's value under its slot, and nothing for a slot the document leaves out |
| Parser.ParseRuntimeConfig | usecases/config/runtimeconfig_test.go:35-43 | the parse succeeds exactly when the document is well-formed; a failure gives no overlay and a non-empty list of problems, each naming a key of the document; any unknown key makes the parse fail with a problem naming that key |
| Parser.ParsedValueReadsBack | usecases/config/runtimeconfig_test.go:35-38 | after a successful parse, each key in the document reads back the value written there |
| Parser.OmittedKeyIsAbsent | usecases/config/runtimeconfig_test.go:146-147 | after a successful parse, a key the document leaves out has no entry in the overlay |
| Reconciliation.Reconciled | usecases/config/runtimeconfig_test.go:267-270 | a pass keeps the set of wired slots and every default, and keeps values well-typed |
| Reconciliation.Settle | usecases/config/runtimeconfig_test.go:258-264 | the value a pass gives a wired cell: the overlay's when its key is present, the cell's construction-time default when absent |
| Reconciliation.RecordFor | usecases/config/runtimeconfig_test.go:242-244 | a slot contributes one record (field, value before, value after) when the value read through it differs, and none otherwise |
| Reconciliation.ChangeLog | usecases/config/runtimeconfig_test.go:242-264 | the change trail of the first n slots: their records, in declaration order |
| Reconciliation.ChangeLogBounded | usecases/config/runtimeconfig_test.go:242-244 | the trail of the first n slots has at most n records |
| Reconciliation.ChangeLogUnrolled | usecases/config/runtimeconfig_test.go:242-244 | the change trail of a pass is each slot's record in declaration order |
| Reconciliation.Reconcile | usecases/config/runtimeconfig_test.go:124-129 | one pass: the registry as `Reconciled` gives it, and the trail of all seven slots, which holds at most seven records (that each slot has at most one, in declaration order, is `PassTrailExact`) |
| Reconciliation.PresentKeySetsValue | usecases/config/runtimeconfig_test.go:124-129 | a wired slot whose key is present reads the overlay's value after the pass |
| Reconciliation.AbsentKeyRevertsToDefault | usecases/config/runtimeconfig_test.go:258-264 | a wired slot whose key is absent reads its construction-time default after the pass, whatever it held before |
| Reconciliation.UnwiredSlotStaysZero | usecases/config/runtimeconfig_test.go:132-160 | a nil slot stays nil and reads the zero value after a pass |
| Reconciliation.SlotsIndependent | usecases/config/runtimeconfig_test.go:139-159 | what a pass does to a wired slot does not depend on which other slots are wired |
| Reconciliation.LastOverlayWins | usecases/config/runtimeconfig_test.go:267-270 | two passes leave the registry as the second overlay alone would: defaults are fixed reference points, not the last known value |
| Reconciliation.ChangeLogExact | usecases/config/runtimeconfig_test.go:242-264 | every record of the first n slots names one of them, carries its value before and after, and the two differ; conversely each of them whose value changed has its record |
| Reconciliation.ChangeLogOrdered | usecases/config/runtimeconfig_test.go:242-264 | the records of the first n slots have strictly increasing positions, so no slot has two records |
| Reconciliation.ChangeLogEmptyWhenUnchanged | usecases/config/runtimeconfig_test.go:302-310 | when none of the first n slots changes its value, their trail is empty |
| Reconciliation.PassTrailExact | usecases/config/runtimeconfig_test.go:242-264 | the trail of one pass: each record carries the slot's value before and after the pass and they differ; the records follow declaration order; a slot has its record exactly when its value changed |
| Reconciliation.ReconcileIdempotent | usecases/config/runtimeconfig_test.go:267-270 | applying the same overlay again changes nothing and emits no record |
| Config.ViewOfSettled | usecases/config/runtimeconfig_test.go:102-110 | settling every position of the slot table gives the registry one pass describes |
| Config.EffectiveAt | usecases/config/runtimeconfig_test.go:102-110 | the value read through position n, before and after a pass, in terms of the cell at that position |
| Config.WeaviateRuntimeConfig.constructor | usecases/config/runtimeconfig_test.go:102-110 | the struct literal: each slot holds the reference given for it, a slot left out is nil, and each given cell must have its slot's type; the registry is wired whenever the given cells are distinct |
| Config.WeaviateRuntimeConfig.States | usecases/config/runtimeconfig_test.go:102-110 | the state of each position is nil for a nil slot and the cell's (current, default) pair otherwise |
| Config.ReadThroughView | usecases/config/runtimeconfig_test.go:124-129 | the registry's value view holds a slot exactly when it is wired, and `Get` through a slot reads what the view says |
| Config.ReconcileSlot | usecases/config/runtimeconfig_test.go:132-160 | one step of the walk sets or resets the slot's cell, reports the value read before and after, and touches no other slot's cell |
| Config.UpdateRuntimeConfig | usecases/config/runtimeconfig_test.go:124-129 | the new registry and the change trail are exactly those of one reconciliation pass; each wired cell holds the overlay's value or its default |
| Scenarios.ParseAcceptsKnownKey | usecases/config/runtimeconfig_test.go:35-38 | `autoschema_enabled: true` parses to the overlay holding true for autoschema and nothing else |
| Scenarios.ParseRejectsMisspelledKey | usecases/config/runtimeconfig_test.go:40-43 | `autoschema_enbaled: false` fails the parse with a problem naming `autoschema_enbaled`, and no overlay |
| Scenarios.AutoschemaLimitWaitParses | usecases/config/runtimeconfig_test.go:113-117 | the three-key document parses to the overlay with exactly its three values |
| Scenarios.NewRegistry | usecases/config/runtimeconfig_test.go:93-110 | a registry wired to fresh, distinct cells: a declared cell holds its type's zero value, a cell made with `NewDynamicValue(d)` holds d, and an unwired slot is nil |
| Scenarios.UpdateReflectsParsedValues | usecases/config/runtimeconfig_test.go:91-130 | zero cells read true, 13 and ten seconds after the update |
| Scenarios.AutoschemaLimitParses | usecases/config/runtimeconfig_test.go:146-149 | the two-key document parses to the overlay with exactly its two values |
| Scenarios.AutoschemaOffLimit10Parses | usecases/config/runtimeconfig_test.go:248-251 | the second log-line document parses to false and 10 |
| Scenarios.AutoschemaOffParses | usecases/config/runtimeconfig_test.go:259-261 | the document with only `autoschema_enabled: false` parses to that one entry |
| Scenarios.UnwiredSlotsTolerated | usecases/config/runtimeconfig_test.go:132-160 | with five nil slots, the update still sets the two wired cells to true and 13 |
| Scenarios.NilReceiverReadsZero | usecases/config/runtimeconfig_test.go:162-194 | after `SetValue` through nil, `Get` through nil reads 0, false, zero duration and "" |
| Scenarios.SetValueOnInitialised | usecases/config/runtimeconfig_test.go:196-216 | cells made with 10, false, 1s and "initial" read 20, true, 2s and "updated" after `SetValue` |
| Scenarios.LogLinesStartView | usecases/config/runtimeconfig_test.go:222-230 | the log-line registry, as values, has the limit at 7 with default 7 and autoschema at false |
| Scenarios.LogLinesTwoSlots | usecases/config/runtimeconfig_test.go:227-230 | in a registry where only the limit and autoschema are wired, the trail of a pass is the limit's record, if any, followed by autoschema's |
| Scenarios.LogLinesFirstPass | usecases/config/runtimeconfig_test.go:242-244 | the first pass emits (MaximumAllowedCollectionsCount, 7, 13) then (AutoschemaEnabled, false, true) |
| Scenarios.LogLinesSecondPass | usecases/config/runtimeconfig_test.go:253-255 | the second pass emits (MaximumAllowedCollectionsCount, 13, 10) then (AutoschemaEnabled, true, false) |
| Scenarios.LogLinesThirdPass | usecases/config/runtimeconfig_test.go:258-264 | removing the limit's key emits only (MaximumAllowedCollectionsCount, 10, 7) |
| Scenarios.ChangeLogLines | usecases/config/runtimeconfig_test.go:217-265 | the three updates on the live registry return exactly those three change trails |
| Scenarios.PrioritiesFirstUpdate | usecases/config/runtimeconfig_test.go:272-311 | the four cells read false, 0, false and zero before the first update of the priority scenario, and true, 13, false and ten seconds after it; the limit's default is still 0 |
| Scenarios.UpdatingPriorities | usecases/config/runtimeconfig_test.go:267-329 | after the first update: true, 13, false, ten seconds; before the second: unchanged; after it: false, 0 (the default, not 13), false |

## Left out

- The mutex inside the cell and every concurrency guarantee: the cell is modelled sequentially.
- `DynamicValue[float64]` (lines 165, 176, 190, 198, 205, 212): floating point is not modelled; cells hold int, bool, string or duration.
- Byte-level YAML and JSON decoding, including turning the literal `10s` into a duration: the parser takes already typed key/value entries, and a duration is a count of nanoseconds.
- The json and yaml marshalling used by the key check (lines 47-73): the key check is applied to the schema's keys directly, and the json tag of each slot is taken to equal its yaml tag.
- Four of the seven keys (`async_replication_disabled`, `tenant_activity_read_log_level`, `tenant_activity_write_log_level`, `revectorize_check_disabled`) never appear in the tests; they are derived from the Go field names.
- The logrus message text and fields (lines 243-264): the reconciler returns the change records (field, old value, new value) instead of writing log lines.
- The error return of `UpdateRuntimeConfig`: no data makes it fail, and a logger failure is I/O, so the method returns only the change records.
- The reflection walk over the struct's fields: replaced by the fixed slot table in module `Schema`.
- Go's 64-bit integer range: integers and durations are unbounded.
- The file watcher that decides when to re-parse, and `modules/generative-nvidia/module.go` (environment variable and HTTP client wiring): outside the core.
- Config.UpdateRuntimeConfig: requires that no cell is wired into two slots, which Go allows; with such aliasing the last slot in declaration order would win.
- Parser.ParseRuntimeConfig: the error is a list of problems, each carrying the bad key, rather than a message string that contains the key.
- Reconciliation.RecordFor: a nil slot never emits a record. The implementation's rule of logging whenever the overlay's value differs from `Get` through the slot would, read literally, log (zero value, v) for a nil slot whose key is present with a non-zero value v; no test wires a slot to nil while its key is in the document, so that case is left unspecified by the tests and the model emits nothing.
- Parser.WellFormed: rejecting a repeated key is this model's choice; the tests never repeat a key, and a Go decoder may instead keep the last value or report a different error.
- Parser.Problems: reporting the problem of every bad entry is this model's choice; the tests only show that an unknown key is named in the error, and the Go parser may stop at the first problem.
- Parser.EntryProblem: rejecting a value of the wrong type as a problem of its own is this model's choice; in Go the decoder fails on it with its own message, which the tests never show.
