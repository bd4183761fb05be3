/**
 * The behaviours the runtime configuration promises, each played out on a
 * concrete registry: cells are allocated afresh, documents are parsed, the
 * reconciler runs, and the values read back through the cells are the
 * methods' results.
 */
module Scenarios {
  import opened Wrappers
  import opened Runtime
  import opened Schema
  import opened Parser
  import opened Reconciliation
  import opened Config

  /** Ten seconds as a `time.Duration`. */
  const TenSeconds: int := 10_000_000_000

  // The documents, as the decoder's entries.

  const AutoschemaOn: seq<Entry> := [("autoschema_enabled", Bool(true))]

  const AutoschemaTypo: seq<Entry> := [("autoschema_enbaled", Bool(false))]

  const AutoschemaLimitWait: seq<Entry> := [
    ("autoschema_enabled", Bool(true)),
    ("maximum_allowed_collections_count", Int(13)),
    ("replica_movement_minimum_async_wait", Duration(TenSeconds))]

  const AutoschemaLimit: seq<Entry> := [
    ("autoschema_enabled", Bool(true)),
    ("maximum_allowed_collections_count", Int(13))]

  const AutoschemaOffLimit10: seq<Entry> := [
    ("autoschema_enabled", Bool(false)),
    ("maximum_allowed_collections_count", Int(10))]

  const AutoschemaOff: seq<Entry> := [("autoschema_enabled", Bool(false))]

  /** A document with a known key parses, and the overlay holds the document's value. */
  lemma ParseAcceptsKnownKey()
    ensures ParseRuntimeConfig(AutoschemaOn) == Success(EmptyOverlay.(autoschemaEnabled := Some(true)))
  {
    assert AutoschemaOn[0].0 == Key(AutoschemaEnabled);
    KeyRoundTrip(AutoschemaEnabled);
  }

  /** A misspelled key fails the parse, the problem names the misspelled key, and there is no overlay. */
  lemma ParseRejectsMisspelledKey()
    ensures ParseRuntimeConfig(AutoschemaTypo).Failure?
    ensures UnknownKey("autoschema_enbaled") in ParseRuntimeConfig(AutoschemaTypo).error
  {
    assert FieldOfKey(AutoschemaTypo[0].0) == None;
  }

  /** The document of the first update parses to the overlay with exactly its three values. */
  lemma AutoschemaLimitWaitParses()
    ensures ParseRuntimeConfig(AutoschemaLimitWait) == Success(EmptyOverlay.(
      autoschemaEnabled := Some(true),
      maximumAllowedCollectionsCount := Some(13),
      replicaMovementMinimumAsyncWait := Some(TenSeconds)))
  {
    var doc := AutoschemaLimitWait;
    assert doc[0].0 == Key(AutoschemaEnabled);
    assert doc[1].0 == Key(MaximumAllowedCollectionsCount);
    assert doc[2].0 == Key(ReplicaMovementMinimumAsyncWait);
    KeyRoundTrip(AutoschemaEnabled);
    KeyRoundTrip(MaximumAllowedCollectionsCount);
    KeyRoundTrip(ReplicaMovementMinimumAsyncWait);
    assert WellFormed(doc);
    var expected := EmptyOverlay.(
      autoschemaEnabled := Some(true),
      maximumAllowedCollectionsCount := Some(13),
      replicaMovementMinimumAsyncWait := Some(TenSeconds));
    var o := Build(doc);
    forall f
      ensures Lookup(o, f) == Lookup(expected, f)
    {
      if f !in {AutoschemaEnabled, MaximumAllowedCollectionsCount, ReplicaMovementMinimumAsyncWait} {
        assert forall i :: 0 <= i < |doc| ==> FieldOfKey(doc[i].0) != Some(f);
      }
    }
    LookupDetermines(o, expected);
  }

  /**
   * How a test wires one slot: left out of the struct literal, a cell declared
   * without initialiser (`var c runtime.DynamicValue[T]`), or a cell made by
   * `runtime.NewDynamicValue(d)`.
   */
  datatype Wiring = Unwired | Declared | Made(d: Value)

  /** The default a wired slot's cell holds: the zero value for a declared cell, d for a made one. */
  function DefaultOf(w: Wiring, k: Kind): Value {
    if w.Made? then w.d else ZeroOf(k)
  }

  /** Seven slots wired to declared cells, as in the subtests that wire every slot. */
  const AllDeclared: seq<Wiring> := [Declared, Declared, Declared, Declared, Declared, Declared, Declared]

  /**
   * A registry wired as `wiring` says, each wired slot to a fresh cell of its
   * own; the cells start at their defaults.
   */
  method NewRegistry(wiring: seq<Wiring>) returns (reg: WeaviateRuntimeConfig)
    requires |wiring| == |AllFields|
    requires forall j :: 0 <= j < |wiring| && wiring[j].Made? ==> wiring[j].d.KindOf() == KindOf(AllFields[j])
    ensures fresh(reg) && fresh(reg.Cells()) && reg.Valid()
    ensures forall j :: 0 <= j < |AllFields| ==> reg.slots[j].Some? == !wiring[j].Unwired?
    ensures forall j :: 0 <= j < |AllFields| && reg.slots[j].Some? ==>
      && reg.slots[j].value.current == DefaultOf(wiring[j], KindOf(AllFields[j]))
      && reg.slots[j].value.default == DefaultOf(wiring[j], KindOf(AllFields[j]))
  {
    var cells: seq<Option<DynamicValue>> := [];
    for n := 0 to |AllFields|
      invariant |cells| == n
      invariant forall j :: 0 <= j < n ==> cells[j].Some? == !wiring[j].Unwired?
      invariant forall j :: 0 <= j < n && cells[j].Some? ==>
        && fresh(cells[j].value) && cells[j].value.Valid() && cells[j].value.kind == KindOf(AllFields[j])
        && cells[j].value.current == DefaultOf(wiring[j], KindOf(AllFields[j]))
        && cells[j].value.default == DefaultOf(wiring[j], KindOf(AllFields[j]))
      invariant forall i, j :: 0 <= i < n && 0 <= j < n && i != j && cells[i].Some? && cells[j].Some? ==>
        cells[i].value != cells[j].value
    {
      if wiring[n].Unwired? {
        cells := cells + [None];
      } else if wiring[n].Declared? {
        var c := new DynamicValue.Zero(KindOf(AllFields[n]));
        cells := cells + [Some(c)];
      } else {
        var c := new DynamicValue.New(wiring[n].d);
        cells := cells + [Some(c)];
      }
    }
    reg := new WeaviateRuntimeConfig(cells[0], cells[1], cells[2], cells[3], cells[4], cells[5], cells[6]);
    assert reg.slots == cells;
  }

  /**
   * Every slot wired to a zero cell; the overlay sets autoschema, the
   * collection limit and the replica-movement wait. The three cells read the
   * zero values before the update and the document's values after it.
   */
  method UpdateReflectsParsedValues() returns (autoSchema: Value, colCount: Value, minFinWait: Value)
    ensures autoSchema == Bool(true) && colCount == Int(13) && minFinWait == Duration(TenSeconds)
  {
    var reg := NewRegistry(AllDeclared);
    var cColCount := reg.Slot(MaximumAllowedCollectionsCount).value;
    var cAutoSchema := reg.Slot(AutoschemaEnabled).value;
    var cMinFinWait := reg.Slot(ReplicaMovementMinimumAsyncWait).value;

    AutoschemaLimitWaitParses();
    var parsed := ParseRuntimeConfig(AutoschemaLimitWait).value;

    assert cAutoSchema.Get() == Bool(false) && cColCount.Get() == Int(0) && cMinFinWait.Get() == Duration(0);
    var changes := UpdateRuntimeConfig(reg, parsed);

    autoSchema := cAutoSchema.Get();
    colCount := cColCount.Get();
    minFinWait := cMinFinWait.Get();
  }

  /** The document of the log-line scenario's first pass. */
  lemma AutoschemaLimitParses()
    ensures ParseRuntimeConfig(AutoschemaLimit) == Success(EmptyOverlay.(
      autoschemaEnabled := Some(true),
      maximumAllowedCollectionsCount := Some(13)))
  {
    var doc := AutoschemaLimit;
    assert doc[0].0 == Key(AutoschemaEnabled);
    assert doc[1].0 == Key(MaximumAllowedCollectionsCount);
    KeyRoundTrip(AutoschemaEnabled);
    KeyRoundTrip(MaximumAllowedCollectionsCount);
    assert WellFormed(doc);
    var expected := EmptyOverlay.(autoschemaEnabled := Some(true), maximumAllowedCollectionsCount := Some(13));
    var o := Build(doc);
    forall f
      ensures Lookup(o, f) == Lookup(expected, f)
    {
      if f !in {AutoschemaEnabled, MaximumAllowedCollectionsCount} {
        assert forall i :: 0 <= i < |doc| ==> FieldOfKey(doc[i].0) != Some(f);
      }
    }
    LookupDetermines(o, expected);
  }

  /** The document of the log-line scenario's second pass. */
  lemma AutoschemaOffLimit10Parses()
    ensures ParseRuntimeConfig(AutoschemaOffLimit10) == Success(EmptyOverlay.(
      autoschemaEnabled := Some(false),
      maximumAllowedCollectionsCount := Some(10)))
  {
    var doc := AutoschemaOffLimit10;
    assert doc[0].0 == Key(AutoschemaEnabled);
    assert doc[1].0 == Key(MaximumAllowedCollectionsCount);
    KeyRoundTrip(AutoschemaEnabled);
    KeyRoundTrip(MaximumAllowedCollectionsCount);
    assert WellFormed(doc);
    var expected := EmptyOverlay.(autoschemaEnabled := Some(false), maximumAllowedCollectionsCount := Some(10));
    var o := Build(doc);
    forall f
      ensures Lookup(o, f) == Lookup(expected, f)
    {
      if f !in {AutoschemaEnabled, MaximumAllowedCollectionsCount} {
        assert forall i :: 0 <= i < |doc| ==> FieldOfKey(doc[i].0) != Some(f);
      }
    }
    LookupDetermines(o, expected);
  }

  /** The document that keeps only the autoschema key. */
  lemma AutoschemaOffParses()
    ensures ParseRuntimeConfig(AutoschemaOff) == Success(EmptyOverlay.(autoschemaEnabled := Some(false)))
  {
    assert AutoschemaOff[0].0 == Key(AutoschemaEnabled);
    KeyRoundTrip(AutoschemaEnabled);
  }

  // The log-line scenario on values: the registry before each pass and the overlays parsed for each pass.

  const LogLines0: RegistryView := map[
    MaximumAllowedCollectionsCount := CellState(Int(7), Int(7)),
    AutoschemaEnabled := CellState(Bool(false), Bool(false))]

  const LogLines1: RegistryView := map[
    MaximumAllowedCollectionsCount := CellState(Int(13), Int(7)),
    AutoschemaEnabled := CellState(Bool(true), Bool(false))]

  const LogLines2: RegistryView := map[
    MaximumAllowedCollectionsCount := CellState(Int(10), Int(7)),
    AutoschemaEnabled := CellState(Bool(false), Bool(false))]

  const LogLines3: RegistryView := map[
    MaximumAllowedCollectionsCount := CellState(Int(7), Int(7)),
    AutoschemaEnabled := CellState(Bool(false), Bool(false))]

  const OnAnd13: Overlay := EmptyOverlay.(autoschemaEnabled := Some(true), maximumAllowedCollectionsCount := Some(13))

  const OffAnd10: Overlay := EmptyOverlay.(autoschemaEnabled := Some(false), maximumAllowedCollectionsCount := Some(10))

  const OffOnly: Overlay := EmptyOverlay.(autoschemaEnabled := Some(false))

  /** In a registry where only the limit and autoschema are wired, the other five slots emit nothing. */
  lemma {:induction false} LogLinesTwoSlots(before: RegistryView, after: RegistryView)
    requires before.Keys == after.Keys == {MaximumAllowedCollectionsCount, AutoschemaEnabled}
    ensures ChangeLog(before, after, |AllFields|)
      == RecordFor(before, after, MaximumAllowedCollectionsCount) + RecordFor(before, after, AutoschemaEnabled)
  {
    ChangeLogUnrolled(before, after);
    assert RecordFor(before, after, AsyncReplicationDisabled) == [];
    assert RecordFor(before, after, TenantActivityReadLogLevel) == [];
    assert RecordFor(before, after, TenantActivityWriteLogLevel) == [];
    assert RecordFor(before, after, RevectorizeCheckDisabled) == [];
    assert RecordFor(before, after, ReplicaMovementMinimumAsyncWait) == [];
  }

  /** First pass: both wired slots change, the limit from 7 to 13 and autoschema from false to true. */
  lemma LogLinesFirstPass()
    ensures Reconcile(LogLines0, OnAnd13) == (LogLines1, [
      ChangeRecord(MaximumAllowedCollectionsCount, Int(7), Int(13)),
      ChangeRecord(AutoschemaEnabled, Bool(false), Bool(true))])
  {
    assert Reconciled(LogLines0, OnAnd13) == LogLines1;
    LogLinesTwoSlots(LogLines0, LogLines1);
    var r1 := ChangeRecord(MaximumAllowedCollectionsCount, Int(7), Int(13));
    var r2 := ChangeRecord(AutoschemaEnabled, Bool(false), Bool(true));
    assert RecordFor(LogLines0, LogLines1, MaximumAllowedCollectionsCount) == [r1];
    assert RecordFor(LogLines0, LogLines1, AutoschemaEnabled) == [r2];
    assert [r1] + [r2] == [r1, r2];
  }

  /** Second pass: the limit changes from 13 to 10 and autoschema from true to false. */
  lemma LogLinesSecondPass()
    ensures Reconcile(LogLines1, OffAnd10) == (LogLines2, [
      ChangeRecord(MaximumAllowedCollectionsCount, Int(13), Int(10)),
      ChangeRecord(AutoschemaEnabled, Bool(true), Bool(false))])
  {
    assert Reconciled(LogLines1, OffAnd10) == LogLines2;
    LogLinesTwoSlots(LogLines1, LogLines2);
    var r1 := ChangeRecord(MaximumAllowedCollectionsCount, Int(13), Int(10));
    var r2 := ChangeRecord(AutoschemaEnabled, Bool(true), Bool(false));
    assert RecordFor(LogLines1, LogLines2, MaximumAllowedCollectionsCount) == [r1];
    assert RecordFor(LogLines1, LogLines2, AutoschemaEnabled) == [r2];
    assert [r1] + [r2] == [r1, r2];
  }

  /**
   * Third pass, the limit's key removed: the limit goes back to its default 7,
   * not to a value an earlier pass set; autoschema stays false and emits nothing.
   */
  lemma LogLinesThirdPass()
    ensures Reconcile(LogLines2, OffOnly) == (LogLines3, [
      ChangeRecord(MaximumAllowedCollectionsCount, Int(10), Int(7))])
  {
    assert Reconciled(LogLines2, OffOnly) == LogLines3;
    LogLinesTwoSlots(LogLines2, LogLines3);
    var r1 := ChangeRecord(MaximumAllowedCollectionsCount, Int(10), Int(7));
    assert RecordFor(LogLines2, LogLines3, MaximumAllowedCollectionsCount) == [r1];
    assert RecordFor(LogLines2, LogLines3, AutoschemaEnabled) == [];
    assert [r1] + [] == [r1];
  }

  /** The position states of the log-line registry are the values of `LogLines0`. */
  lemma LogLinesStartView()
    ensures ViewOf([Some(CellState(Int(7), Int(7))), Some(CellState(Bool(false), Bool(false))), None, None, None, None, None])
      == LogLines0
  {
  }

  /**
   * Only the collection limit (default 7) and autoschema (zero cell) are
   * wired. Each pass emits one record for each wired slot whose value changes,
   * in declaration order: the limit, then autoschema.
   */
  method ChangeLogLines() returns (first: seq<ChangeRecord>, second: seq<ChangeRecord>, third: seq<ChangeRecord>)
    ensures first == [
      ChangeRecord(MaximumAllowedCollectionsCount, Int(7), Int(13)),
      ChangeRecord(AutoschemaEnabled, Bool(false), Bool(true))]
    ensures second == [
      ChangeRecord(MaximumAllowedCollectionsCount, Int(13), Int(10)),
      ChangeRecord(AutoschemaEnabled, Bool(true), Bool(false))]
    ensures third == [ChangeRecord(MaximumAllowedCollectionsCount, Int(10), Int(7))]
  {
    var reg := NewRegistry([Made(Int(7)), Declared, Unwired, Unwired, Unwired, Unwired, Unwired]);
    assert reg.States() == [Some(CellState(Int(7), Int(7))), Some(CellState(Bool(false), Bool(false))), None, None, None, None, None];
    LogLinesStartView();

    AutoschemaLimitParses();
    first := UpdateRuntimeConfig(reg, ParseRuntimeConfig(AutoschemaLimit).value);
    LogLinesFirstPass();

    AutoschemaOffLimit10Parses();
    second := UpdateRuntimeConfig(reg, ParseRuntimeConfig(AutoschemaOffLimit10).value);
    LogLinesSecondPass();

    AutoschemaOffParses();
    third := UpdateRuntimeConfig(reg, ParseRuntimeConfig(AutoschemaOff).value);
    LogLinesThirdPass();
  }

  /**
   * Only the collection limit and autoschema are wired, both to zero cells; the
   * other five slots are nil. The update does not trip over the nil slots and
   * the wired cells read the document's values.
   */
  method UnwiredSlotsTolerated() returns (autoSchema: Value, colCount: Value)
    ensures autoSchema == Bool(true) && colCount == Int(13)
  {
    var reg := NewRegistry([Declared, Declared, Unwired, Unwired, Unwired, Unwired, Unwired]);
    var cColCount := reg.Slot(MaximumAllowedCollectionsCount).value;
    var cAutoSchema := reg.Slot(AutoschemaEnabled).value;

    AutoschemaLimitParses();
    var parsed := ParseRuntimeConfig(AutoschemaLimit).value;

    assert cAutoSchema.Get() == Bool(false) && cColCount.Get() == Int(0);
    var changes := UpdateRuntimeConfig(reg, parsed);

    autoSchema := cAutoSchema.Get();
    colCount := cColCount.Get();
  }

  /** `SetValue` through a nil reference of each kind is harmless, and `Get` then still reads the zero value. */
  method NilReceiverReadsZero() returns (nilInt: Value, nilBool: Value, nilDur: Value, nilString: Value)
    ensures nilInt == Int(0) && nilBool == Bool(false) && nilDur == Duration(0) && nilString == Str("")
  {
    NilSafeSetValue(None, IntKind, Int(42));
    NilSafeSetValue(None, BoolKind, Bool(true));
    NilSafeSetValue(None, DurationKind, Duration(5 * 1_000_000_000));
    NilSafeSetValue(None, StringKind, Str("test"));
    nilInt := NilSafeGet(None, IntKind);
    nilBool := NilSafeGet(None, BoolKind);
    nilDur := NilSafeGet(None, DurationKind);
    nilString := NilSafeGet(None, StringKind);
  }

  /** Cells made by `NewDynamicValue` take the value `SetValue` gives them. */
  method SetValueOnInitialised() returns (dInt: Value, dBool: Value, dDur: Value, dString: Value)
    ensures dInt == Int(20) && dBool == Bool(true) && dDur == Duration(2 * 1_000_000_000) && dString == Str("updated")
  {
    var cInt := new DynamicValue.New(Int(10));
    var cBool := new DynamicValue.New(Bool(false));
    var cDur := new DynamicValue.New(Duration(1_000_000_000));
    var cString := new DynamicValue.New(Str("initial"));
    cInt.SetValue(Int(20));
    cBool.SetValue(Bool(true));
    cDur.SetValue(Duration(2 * 1_000_000_000));
    cString.SetValue(Str("updated"));
    dInt := cInt.Get();
    dBool := cBool.Get();
    dDur := cDur.Get();
    dString := cString.Get();
  }

  /**
   * Every slot wired to a zero cell. The first update sets autoschema, the
   * limit and the wait, and leaves async replication, whose key never appears,
   * at its default. Once the limit's key is removed, the second update puts the
   * limit back to its default 0, not to the 13 it held.
   */
  method UpdatingPriorities() returns (first: seq<Value>, between: seq<Value>, second: seq<Value>)
    ensures first == [Bool(true), Int(13), Bool(false), Duration(TenSeconds)]
    ensures between == [Bool(true), Int(13), Bool(false)]
    ensures second == [Bool(false), Int(0), Bool(false)]
  {
    var reg;
    reg, first := PrioritiesFirstUpdate();
    var cColCount := reg.Slot(MaximumAllowedCollectionsCount).value;
    var cAutoSchema := reg.Slot(AutoschemaEnabled).value;
    var cAsyncRep := reg.Slot(AsyncReplicationDisabled).value;

    AutoschemaOffParses();
    var parsed := ParseRuntimeConfig(AutoschemaOff).value;
    between := [cAutoSchema.Get(), cColCount.Get(), cAsyncRep.Get()];
    var changes := UpdateRuntimeConfig(reg, parsed);
    second := [cAutoSchema.Get(), cColCount.Get(), cAsyncRep.Get()];
  }

  /** The first half of the scenario above: a registry of zero cells after the update that sets autoschema, the limit and the wait. */
  method PrioritiesFirstUpdate() returns (reg: WeaviateRuntimeConfig, first: seq<Value>)
    ensures fresh(reg)
    ensures fresh(reg.Cells())
    ensures reg.Valid()
    ensures reg.Slot(AutoschemaEnabled).Some? && reg.Slot(AutoschemaEnabled).value.current == Bool(true)
    ensures reg.Slot(AutoschemaEnabled).value.default == Bool(false)
    ensures reg.Slot(MaximumAllowedCollectionsCount).Some? && reg.Slot(MaximumAllowedCollectionsCount).value.current == Int(13)
    ensures reg.Slot(MaximumAllowedCollectionsCount).value.default == Int(0)
    ensures reg.Slot(AsyncReplicationDisabled).Some? && reg.Slot(AsyncReplicationDisabled).value.current == Bool(false)
    ensures reg.Slot(AsyncReplicationDisabled).value.default == Bool(false)
    ensures first == [Bool(true), Int(13), Bool(false), Duration(TenSeconds)]
  {
    reg := NewRegistry(AllDeclared);
    var cColCount := reg.Slot(MaximumAllowedCollectionsCount).value;
    var cAutoSchema := reg.Slot(AutoschemaEnabled).value;
    var cAsyncRep := reg.Slot(AsyncReplicationDisabled).value;
    var cMinFinWait := reg.Slot(ReplicaMovementMinimumAsyncWait).value;

    AutoschemaLimitWaitParses();
    var parsed := ParseRuntimeConfig(AutoschemaLimitWait).value;

    assert cAutoSchema.Get() == Bool(false) && cColCount.Get() == Int(0);
    assert cAsyncRep.Get() == Bool(false) && cMinFinWait.Get() == Duration(0);
    var changes := UpdateRuntimeConfig(reg, parsed);
    first := [cAutoSchema.Get(), cColCount.Get(), cAsyncRep.Get(), cMinFinWait.Get()];
  }
}
