/**
 * The strict overlay parser (`ParseRuntimeConfig`). The document arrives as
 * the decoder's key/value entries, in document order, each value already
 * converted to its typed form (a duration literal such as `10s` is already a
 * count of nanoseconds). The result is a sparse overlay in which an absent key
 * is meaningful, or, when any entry breaks the schema, the list of problems and
 * no overlay at all.
 */
module Parser {
  import opened Wrappers
  import opened Runtime
  import opened Schema

  /** One `key: value` entry of the document. */
  type Entry = (string, Value)

  /** The overlay: one optional value per slot; None where the document leaves the key out. */
  datatype Overlay = Overlay(
    maximumAllowedCollectionsCount: Option<int>,
    autoschemaEnabled: Option<bool>,
    asyncReplicationDisabled: Option<bool>,
    tenantActivityReadLogLevel: Option<string>,
    tenantActivityWriteLogLevel: Option<string>,
    revectorizeCheckDisabled: Option<bool>,
    replicaMovementMinimumAsyncWait: Option<int>)

  const EmptyOverlay: Overlay := Overlay(None, None, None, None, None, None, None)

  /** Why a document is rejected; each problem names the offending key. */
  datatype Problem =
    | UnknownKey(key: string)
    | TypeMismatch(key: string, expected: Kind)
    | DuplicateKey(key: string)

  function IntOf(o: Option<int>): Option<Value> {
    if o.Some? then Some(Int(o.value)) else None
  }

  function BoolOf(o: Option<bool>): Option<Value> {
    if o.Some? then Some(Bool(o.value)) else None
  }

  function StrOf(o: Option<string>): Option<Value> {
    if o.Some? then Some(Str(o.value)) else None
  }

  function DurationOf(o: Option<int>): Option<Value> {
    if o.Some? then Some(Duration(o.value)) else None
  }

  /** The overlay's entry for a slot, as a typed value of that slot's kind. */
  function Lookup(o: Overlay, f: Field): (r: Option<Value>)
    ensures r.Some? ==> r.value.KindOf() == KindOf(f)
  {
    match f
    case MaximumAllowedCollectionsCount => IntOf(o.maximumAllowedCollectionsCount)
    case AutoschemaEnabled => BoolOf(o.autoschemaEnabled)
    case AsyncReplicationDisabled => BoolOf(o.asyncReplicationDisabled)
    case TenantActivityReadLogLevel => StrOf(o.tenantActivityReadLogLevel)
    case TenantActivityWriteLogLevel => StrOf(o.tenantActivityWriteLogLevel)
    case RevectorizeCheckDisabled => BoolOf(o.revectorizeCheckDisabled)
    case ReplicaMovementMinimumAsyncWait => DurationOf(o.replicaMovementMinimumAsyncWait)
  }

  /** The overlay with one slot's entry set to v; every other slot reads as before. */
  function With(o: Overlay, f: Field, v: Value): (r: Overlay)
    requires v.KindOf() == KindOf(f)
    ensures Lookup(r, f) == Some(v)
    ensures forall g :: g != f ==> Lookup(r, g) == Lookup(o, g)
  {
    match f
    case MaximumAllowedCollectionsCount => o.(maximumAllowedCollectionsCount := Some(v.i))
    case AutoschemaEnabled => o.(autoschemaEnabled := Some(v.b))
    case AsyncReplicationDisabled => o.(asyncReplicationDisabled := Some(v.b))
    case TenantActivityReadLogLevel => o.(tenantActivityReadLogLevel := Some(v.s))
    case TenantActivityWriteLogLevel => o.(tenantActivityWriteLogLevel := Some(v.s))
    case RevectorizeCheckDisabled => o.(revectorizeCheckDisabled := Some(v.b))
    case ReplicaMovementMinimumAsyncWait => o.(replicaMovementMinimumAsyncWait := Some(v.nanos))
  }

  /** An overlay is determined by what it holds for each slot. */
  lemma LookupDetermines(o1: Overlay, o2: Overlay)
    requires forall f :: Lookup(o1, f) == Lookup(o2, f)
    ensures o1 == o2
  {
    assert Lookup(o1, MaximumAllowedCollectionsCount) == Lookup(o2, MaximumAllowedCollectionsCount);
    assert Lookup(o1, AutoschemaEnabled) == Lookup(o2, AutoschemaEnabled);
    assert Lookup(o1, AsyncReplicationDisabled) == Lookup(o2, AsyncReplicationDisabled);
    assert Lookup(o1, TenantActivityReadLogLevel) == Lookup(o2, TenantActivityReadLogLevel);
    assert Lookup(o1, TenantActivityWriteLogLevel) == Lookup(o2, TenantActivityWriteLogLevel);
    assert Lookup(o1, RevectorizeCheckDisabled) == Lookup(o2, RevectorizeCheckDisabled);
    assert Lookup(o1, ReplicaMovementMinimumAsyncWait) == Lookup(o2, ReplicaMovementMinimumAsyncWait);
  }

  /** An entry whose key names a slot and whose value has that slot's type. */
  predicate Accepts(e: Entry) {
    FieldOfKey(e.0).Some? && e.1.KindOf() == KindOf(FieldOfKey(e.0).value)
  }

  /** A document the schema accepts: every entry is accepted, and no key occurs twice. */
  ghost predicate WellFormed(doc: seq<Entry>) {
    && (forall i :: 0 <= i < |doc| ==> Accepts(doc[i]))
    && (forall i, j :: 0 <= i < j < |doc| ==> doc[i].0 != doc[j].0)
  }

  /** Some entry of the document has this key. */
  predicate HasKey(doc: seq<Entry>, key: string) {
    exists j | 0 <= j < |doc| :: doc[j].0 == key
  }

  /** What is wrong with entry e, given the entries before it. */
  function EntryProblem(before: seq<Entry>, e: Entry): (p: Option<Problem>)
    ensures p.None? <==> Accepts(e) && !HasKey(before, e.0)
    ensures p.Some? ==> p.value.key == e.0
    ensures FieldOfKey(e.0).None? ==> p == Some(UnknownKey(e.0))
  {
    match FieldOfKey(e.0)
    case None => Some(UnknownKey(e.0))
    case Some(f) =>
      if e.1.KindOf() != KindOf(f) then Some(TypeMismatch(e.0, KindOf(f)))
      else if HasKey(before, e.0) then Some(DuplicateKey(e.0))
      else None
  }

  /**
   * Every problem of the document. The check does not stop at the first bad
   * entry: the problem of each bad entry is reported, each naming its key.
   */
  function Problems(doc: seq<Entry>): (ps: seq<Problem>)
    ensures ps == [] <==> WellFormed(doc)
    ensures forall i :: 0 <= i < |doc| && EntryProblem(doc[..i], doc[i]).Some? ==> EntryProblem(doc[..i], doc[i]).value in ps
    ensures forall i :: 0 <= i < |doc| && FieldOfKey(doc[i].0).None? ==> UnknownKey(doc[i].0) in ps
    ensures forall p :: p in ps ==> HasKey(doc, p.key)
  {
    if doc == [] then []
    else
      var before := doc[..|doc| - 1];
      var last := doc[|doc| - 1];
      assert doc == before + [last];
      assert forall i :: 0 <= i < |before| ==> doc[..i] == before[..i] && doc[i] == before[i];
      var rest := Problems(before);
      match EntryProblem(before, last)
      case None => rest
      case Some(p) => rest + [p]
  }

  /** Folds the entries of a well-formed document into an overlay. */
  function Build(doc: seq<Entry>): (o: Overlay)
    requires WellFormed(doc)
    ensures forall i :: 0 <= i < |doc| ==> Lookup(o, FieldOfKey(doc[i].0).value) == Some(doc[i].1)
    ensures forall f :: (forall i :: 0 <= i < |doc| ==> FieldOfKey(doc[i].0) != Some(f)) ==> Lookup(o, f) == None
  {
    if doc == [] then EmptyOverlay
    else
      var before := doc[..|doc| - 1];
      var last := doc[|doc| - 1];
      assert doc == before + [last];
      With(Build(before), FieldOfKey(last.0).value, last.1)
  }

  /**
   * `ParseRuntimeConfig`: a document with only known keys, each once and with a
   * value of the slot's type, gives the overlay holding exactly those values;
   * any other document gives its problems and no overlay.
   */
  function ParseRuntimeConfig(doc: seq<Entry>): (r: Result<Overlay, seq<Problem>>)
    ensures r.Success? <==> WellFormed(doc)
    ensures r.Failure? ==> r.error != [] && forall p :: p in r.error ==> HasKey(doc, p.key)
    ensures forall i :: 0 <= i < |doc| && (forall f :: Key(f) != doc[i].0) ==> r.Failure? && UnknownKey(doc[i].0) in r.error
  {
    var problems := Problems(doc);
    if problems == [] then Success(Build(doc)) else Failure(problems)
  }

  /** After a successful parse, the overlay holds, for each key in the document, the value written there. */
  lemma ParsedValueReadsBack(doc: seq<Entry>, i: nat, f: Field)
    requires ParseRuntimeConfig(doc).Success?
    requires i < |doc| && doc[i].0 == Key(f)
    ensures Lookup(ParseRuntimeConfig(doc).value, f) == Some(doc[i].1)
  {
    KeyRoundTrip(f);
  }

  /** After a successful parse, a slot whose key the document leaves out has no entry in the overlay. */
  lemma OmittedKeyIsAbsent(doc: seq<Entry>, f: Field)
    requires ParseRuntimeConfig(doc).Success?
    requires !HasKey(doc, Key(f))
    ensures Lookup(ParseRuntimeConfig(doc).value, f) == None
  {
    forall i | 0 <= i < |doc|
      ensures FieldOfKey(doc[i].0) != Some(f)
    {
    }
  }
}
