/**
 * The fixed slot table of `WeaviateRuntimeConfig`: each slot's Go field name
 * (a constructor of `Field`), its declared order, its value kind and its
 * document key. This table replaces the reflection walk over the struct's
 * fields and its yaml/json tags.
 */
module Schema {
  import opened Wrappers
  import opened Runtime
  import SnakeCase

  datatype Field =
    | MaximumAllowedCollectionsCount
    | AutoschemaEnabled
    | AsyncReplicationDisabled
    | TenantActivityReadLogLevel
    | TenantActivityWriteLogLevel
    | RevectorizeCheckDisabled
    | ReplicaMovementMinimumAsyncWait

  /** The slots in declaration order, the order in which the reconciler visits them. */
  const AllFields: seq<Field> := [
    MaximumAllowedCollectionsCount,
    AutoschemaEnabled,
    AsyncReplicationDisabled,
    TenantActivityReadLogLevel,
    TenantActivityWriteLogLevel,
    RevectorizeCheckDisabled,
    ReplicaMovementMinimumAsyncWait
  ]

  /** Position of a slot in the declaration order. */
  function Index(f: Field): (i: nat)
    ensures i < |AllFields| && AllFields[i] == f
  {
    match f
    case MaximumAllowedCollectionsCount => 0
    case AutoschemaEnabled => 1
    case AsyncReplicationDisabled => 2
    case TenantActivityReadLogLevel => 3
    case TenantActivityWriteLogLevel => 4
    case RevectorizeCheckDisabled => 5
    case ReplicaMovementMinimumAsyncWait => 6
  }

  /** The slot at each position of the declaration order. */
  lemma IndexOfPosition(n: nat)
    requires n < |AllFields|
    ensures Index(AllFields[n]) == n
  {
  }

  /** Each slot occurs once in the declaration order, and positions follow that order. */
  lemma AllFieldsOrdered()
    ensures forall j, k :: 0 <= j < k < |AllFields| ==> Index(AllFields[j]) < Index(AllFields[k])
    ensures forall j, k :: 0 <= j < k < |AllFields| ==> AllFields[j] != AllFields[k]
  {
    forall j, k | 0 <= j < k < |AllFields|
      ensures Index(AllFields[j]) < Index(AllFields[k])
    {
      IndexOfPosition(j);
      IndexOfPosition(k);
    }
  }

  /** The Go type of each slot's `*runtime.DynamicValue[T]`. */
  function KindOf(f: Field): Kind {
    match f
    case MaximumAllowedCollectionsCount => IntKind
    case AutoschemaEnabled => BoolKind
    case AsyncReplicationDisabled => BoolKind
    case TenantActivityReadLogLevel => StringKind
    case TenantActivityWriteLogLevel => StringKind
    case RevectorizeCheckDisabled => BoolKind
    case ReplicaMovementMinimumAsyncWait => DurationKind
  }

  /** The yaml/json key of each slot. */
  function Key(f: Field): string {
    match f
    case MaximumAllowedCollectionsCount => "maximum_allowed_collections_count"
    case AutoschemaEnabled => "autoschema_enabled"
    case AsyncReplicationDisabled => "async_replication_disabled"
    case TenantActivityReadLogLevel => "tenant_activity_read_log_level"
    case TenantActivityWriteLogLevel => "tenant_activity_write_log_level"
    case RevectorizeCheckDisabled => "revectorize_check_disabled"
    case ReplicaMovementMinimumAsyncWait => "replica_movement_minimum_async_wait"
  }

  /** The slot a document key names, if any: the inverse of Key. */
  function FieldOfKey(key: string): (r: Option<Field>)
    ensures r.Some? ==> Key(r.value) == key
    ensures r.None? ==> forall f :: Key(f) != key
  {
    if key == Key(MaximumAllowedCollectionsCount) then Some(MaximumAllowedCollectionsCount)
    else if key == Key(AutoschemaEnabled) then Some(AutoschemaEnabled)
    else if key == Key(AsyncReplicationDisabled) then Some(AsyncReplicationDisabled)
    else if key == Key(TenantActivityReadLogLevel) then Some(TenantActivityReadLogLevel)
    else if key == Key(TenantActivityWriteLogLevel) then Some(TenantActivityWriteLogLevel)
    else if key == Key(RevectorizeCheckDisabled) then Some(RevectorizeCheckDisabled)
    else if key == Key(ReplicaMovementMinimumAsyncWait) then Some(ReplicaMovementMinimumAsyncWait)
    else None
  }

  /** Looking up a slot's own key gives the slot back; so distinct slots have distinct keys. */
  lemma KeyRoundTrip(f: Field)
    ensures FieldOfKey(Key(f)) == Some(f)
  {
    match f
    case MaximumAllowedCollectionsCount =>
    case AutoschemaEnabled =>
    case AsyncReplicationDisabled =>
    case TenantActivityReadLogLevel =>
    case TenantActivityWriteLogLevel =>
    case RevectorizeCheckDisabled =>
    case ReplicaMovementMinimumAsyncWait =>
  }

  /**
   * Every key of the schema is lower_snake_case: the key check accepts it, so
   * it is one or more lower-case words joined by single underscores.
   */
  lemma SchemaKeysAreLowerSnakeCase(f: Field)
    ensures SnakeCase.IsLowerSnakeCase(Key(f))
    ensures SnakeCase.MatchesPattern(Key(f))
  {
    SnakeCase.MatcherCorrect(Key(f));
    match f
    case MaximumAllowedCollectionsCount => MaximumAllowedCollectionsCountKeyChecked();
    case AutoschemaEnabled => AutoschemaEnabledKeyChecked();
    case AsyncReplicationDisabled => AsyncReplicationDisabledKeyChecked();
    case TenantActivityReadLogLevel => TenantActivityReadLogLevelKeyChecked();
    case TenantActivityWriteLogLevel => TenantActivityWriteLogLevelKeyChecked();
    case RevectorizeCheckDisabled => RevectorizeCheckDisabledKeyChecked();
    case ReplicaMovementMinimumAsyncWait => ReplicaMovementMinimumAsyncWaitKeyChecked();
  }

  // The key check on each key, one key per lemma so that each proof stays small.

  lemma MaximumAllowedCollectionsCountKeyChecked()
    ensures SnakeCase.IsLowerSnakeCase(Key(MaximumAllowedCollectionsCount))
  {
  }

  lemma AutoschemaEnabledKeyChecked()
    ensures SnakeCase.IsLowerSnakeCase(Key(AutoschemaEnabled))
  {
  }

  lemma AsyncReplicationDisabledKeyChecked()
    ensures SnakeCase.IsLowerSnakeCase(Key(AsyncReplicationDisabled))
  {
  }

  lemma TenantActivityReadLogLevelKeyChecked()
    ensures SnakeCase.IsLowerSnakeCase(Key(TenantActivityReadLogLevel))
  {
  }

  lemma TenantActivityWriteLogLevelKeyChecked()
    ensures SnakeCase.IsLowerSnakeCase(Key(TenantActivityWriteLogLevel))
  {
  }

  lemma RevectorizeCheckDisabledKeyChecked()
    ensures SnakeCase.IsLowerSnakeCase(Key(RevectorizeCheckDisabled))
  {
  }

  lemma ReplicaMovementMinimumAsyncWaitKeyChecked()
    ensures SnakeCase.IsLowerSnakeCase(Key(ReplicaMovementMinimumAsyncWait))
  {
  }
}
