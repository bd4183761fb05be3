/**
 * The live registry (`WeaviateRuntimeConfig`) and the reconciler
 * (`UpdateRuntimeConfig`). The registry holds one possibly-nil reference per
 * slot to a cell owned by the caller; the reconciler writes through those
 * references, so a caller that kept the cell sees the new value by `Get`.
 *
 * The struct's seven pointer fields are kept as a table indexed by declaration
 * position (`slots[Index(f)]` is the field of slot f), which is how the
 * reconciler walks them.
 */
module Config {
  import opened Wrappers
  import opened Runtime
  import opened Schema
  import opened Parser
  import opened Reconciliation

  /** The registry as values, from the state of each position (None where the slot is unwired). */
  function ViewOf(states: seq<Option<CellState>>): RegistryView
    requires |states| == |AllFields|
  {
    map f | f in AllFields && states[Index(f)].Some? :: states[Index(f)].value
  }

  /** s1 is what one pass with overlay o makes of the position states s0. */
  predicate SettledFrom(s0: seq<Option<CellState>>, s1: seq<Option<CellState>>, o: Overlay) {
    && |s0| == |s1| == |AllFields|
    && forall j :: 0 <= j < |AllFields| ==>
      && s1[j].Some? == s0[j].Some?
      && (s0[j].Some? ==> s1[j].value == CellState(Settle(s0[j].value, Lookup(o, AllFields[j])), s0[j].value.default))
  }

  /** Settling every position one by one gives the registry `Reconciled` describes. */
  lemma ViewOfSettled(s0: seq<Option<CellState>>, s1: seq<Option<CellState>>, o: Overlay)
    requires SettledFrom(s0, s1, o)
    ensures ViewOf(s1) == Reconciled(ViewOf(s0), o)
  {
    var a := ViewOf(s1);
    var b := Reconciled(ViewOf(s0), o);
    forall f
      ensures (f in a <==> f in b) && (f in a ==> a[f] == b[f])
    {
      var j := Index(f);
    }
    assert a.Keys == b.Keys;
  }

  /** The value read through position n before and after a pass, stated on the position states. */
  lemma EffectiveAt(s0: seq<Option<CellState>>, o: Overlay, before: RegistryView, after: RegistryView, n: nat)
    requires |s0| == |AllFields| && n < |AllFields|
    requires before == ViewOf(s0) && after == Reconciled(before, o)
    ensures Effective(before, AllFields[n]) == if s0[n].Some? then s0[n].value.current else ZeroOf(KindOf(AllFields[n]))
    ensures Effective(after, AllFields[n])
      == if s0[n].Some? then Settle(s0[n].value, Lookup(o, AllFields[n])) else ZeroOf(KindOf(AllFields[n]))
  {
    IndexOfPosition(n);
  }

  class WeaviateRuntimeConfig {
    /** The slot references in declaration order. */
    const slots: seq<Option<DynamicValue>>

    /**
     * The struct literal `&WeaviateRuntimeConfig{...}`; a slot left out of the
     * literal is None. Go's types fix each slot's cell kind; they do not stop a
     * caller from passing one cell for two slots, so the registry is wired
     * when the caller's cells are distinct.
     */
    constructor (
      maximumAllowedCollectionsCount: Option<DynamicValue>,
      autoschemaEnabled: Option<DynamicValue>,
      asyncReplicationDisabled: Option<DynamicValue>,
      tenantActivityReadLogLevel: Option<DynamicValue>,
      tenantActivityWriteLogLevel: Option<DynamicValue>,
      revectorizeCheckDisabled: Option<DynamicValue>,
      replicaMovementMinimumAsyncWait: Option<DynamicValue>)
      requires maximumAllowedCollectionsCount.Some? ==> maximumAllowedCollectionsCount.value.kind == IntKind
      requires autoschemaEnabled.Some? ==> autoschemaEnabled.value.kind == BoolKind
      requires asyncReplicationDisabled.Some? ==> asyncReplicationDisabled.value.kind == BoolKind
      requires tenantActivityReadLogLevel.Some? ==> tenantActivityReadLogLevel.value.kind == StringKind
      requires tenantActivityWriteLogLevel.Some? ==> tenantActivityWriteLogLevel.value.kind == StringKind
      requires revectorizeCheckDisabled.Some? ==> revectorizeCheckDisabled.value.kind == BoolKind
      requires replicaMovementMinimumAsyncWait.Some? ==> replicaMovementMinimumAsyncWait.value.kind == DurationKind
      ensures (forall i, j :: 0 <= i < |slots| && 0 <= j < |slots| && i != j && slots[i].Some? && slots[j].Some? ==>
                 slots[i].value != slots[j].value) ==> Wired()
      ensures |slots| == |AllFields|
      ensures Slot(MaximumAllowedCollectionsCount) == maximumAllowedCollectionsCount
      ensures Slot(AutoschemaEnabled) == autoschemaEnabled
      ensures Slot(AsyncReplicationDisabled) == asyncReplicationDisabled
      ensures Slot(TenantActivityReadLogLevel) == tenantActivityReadLogLevel
      ensures Slot(TenantActivityWriteLogLevel) == tenantActivityWriteLogLevel
      ensures Slot(RevectorizeCheckDisabled) == revectorizeCheckDisabled
      ensures Slot(ReplicaMovementMinimumAsyncWait) == replicaMovementMinimumAsyncWait
    {
      slots := [
        maximumAllowedCollectionsCount,
        autoschemaEnabled,
        asyncReplicationDisabled,
        tenantActivityReadLogLevel,
        tenantActivityWriteLogLevel,
        revectorizeCheckDisabled,
        replicaMovementMinimumAsyncWait
      ];
      new;
      forall j | 0 <= j < |slots| && slots[j].Some?
        ensures slots[j].value.kind == KindOf(AllFields[j])
      {
        // One branch per position, only so that the prover sees each position's kind requirement on its own.
        if j == 0 {
        } else if j == 1 {
        } else if j == 2 {
        } else if j == 3 {
        } else if j == 4 {
        } else if j == 5 {
        } else {
        }
      }
    }

    /** The reference slot f holds, in place of reflection over the struct's fields. */
    function Slot(f: Field): Option<DynamicValue>
      requires |slots| == |AllFields|
    {
      slots[Index(f)]
    }

    /** The cells the registry is wired to. */
    ghost function Cells(): set<DynamicValue> {
      set j | 0 <= j < |slots| && slots[j].Some? :: slots[j].value
    }

    /** The wiring, which never changes: each wired cell has its slot's type, and no cell sits in two slots. */
    predicate Wired() {
      && |slots| == |AllFields|
      && (forall j :: 0 <= j < |slots| && slots[j].Some? ==> slots[j].value.kind == KindOf(AllFields[j]))
      && (forall i, j :: 0 <= i < |slots| && 0 <= j < |slots| && i != j && slots[i].Some? && slots[j].Some? ==>
            slots[i].value != slots[j].value)
    }

    ghost predicate Valid()
      reads Cells()
    {
      && Wired()
      && (forall j :: 0 <= j < |slots| && slots[j].Some? ==> slots[j].value.Valid())
    }

    /** The state of each position as a value. */
    ghost function States(): (s: seq<Option<CellState>>)
      reads Cells()
      ensures |s| == |slots|
      ensures forall j :: 0 <= j < |slots| ==> s[j].Some? == slots[j].Some?
      ensures forall j :: 0 <= j < |slots| && slots[j].Some? ==>
        s[j].value == CellState(slots[j].value.current, slots[j].value.default)
    {
      seq(|slots|, j requires 0 <= j < |slots| reads Cells() =>
        if slots[j].Some? then Some(CellState(slots[j].value.current, slots[j].value.default)) else None)
    }

    /** The registry as values. */
    ghost function View(): RegistryView
      requires |slots| == |AllFields|
      reads Cells()
    {
      ViewOf(States())
    }
  }

  /**
   * What `Get` through slot f returns is what the registry's value view says
   * of f: the wired cell's current value, or the zero value through nil.
   */
  lemma ReadThroughView(reg: WeaviateRuntimeConfig, f: Field)
    requires reg.Valid()
    ensures (f in reg.View()) == reg.Slot(f).Some?
    ensures reg.Slot(f).Some? ==> reg.View()[f] == CellState(reg.Slot(f).value.current, reg.Slot(f).value.default)
    ensures Effective(reg.View(), f) == NilSafeGet(reg.Slot(f), KindOf(f))
  {
  }

  /**
   * One step of the walk, on the slot at position n: sets it to the overlay's
   * value when present, resets it to its default otherwise, and reports the
   * value read through the slot before and after. `cell` is the slot's state on
   * entry, as a value. No other slot's cell is touched.
   */
  method ReconcileSlot(reg: WeaviateRuntimeConfig, n: nat, present: Option<Value>, ghost cell: Option<CellState>)
    returns (oldValue: Value, newValue: Value)
    requires reg.Valid() && n < |AllFields|
    requires present.Some? ==> present.value.KindOf() == KindOf(AllFields[n])
    requires reg.slots[n].Some? == cell.Some?
    requires reg.slots[n].Some? ==>
      reg.slots[n].value.current == cell.value.current && reg.slots[n].value.default == cell.value.default
    modifies Footprint(reg.slots[n])
    ensures reg.Valid()
    ensures oldValue == if cell.Some? then cell.value.current else ZeroOf(KindOf(AllFields[n]))
    ensures newValue == if cell.Some? then Settle(cell.value, present) else ZeroOf(KindOf(AllFields[n]))
    ensures reg.slots[n].Some? ==> reg.slots[n].value.current == newValue
    ensures forall j :: 0 <= j < |AllFields| && j != n && reg.slots[j].Some? ==>
      reg.slots[j].value.current == old(reg.slots[j].value.current)
  {
    var slot := reg.slots[n];
    var k := KindOf(AllFields[n]);
    oldValue := NilSafeGet(slot, k);
    match present {
      case Some(v) => NilSafeSetValue(slot, k, v);
      case None => NilSafeReset(slot, k);
    }
    newValue := NilSafeGet(slot, k);
  }

  /**
   * `UpdateRuntimeConfig`: walks every slot in declaration order; a slot whose
   * key the overlay holds is set to the overlay's value, any other slot is reset
   * to its cell's default; whenever the value read through the slot changes, a
   * change record (slot, old value, new value) is emitted. Unwired slots are
   * walked too and change nothing.
   */
  method UpdateRuntimeConfig(reg: WeaviateRuntimeConfig, parsed: Overlay) returns (changes: seq<ChangeRecord>)
    requires reg.Valid()
    modifies reg.Cells()
    ensures reg.Valid()
    ensures (reg.View(), changes) == Reconcile(old(reg.View()), parsed)
    ensures forall j :: 0 <= j < |AllFields| && reg.slots[j].Some? ==>
      reg.slots[j].value.current
        == Settle(CellState(old(reg.slots[j].value.current), reg.slots[j].value.default), Lookup(parsed, AllFields[j]))
  {
    ghost var s0 := reg.States();
    ghost var before := ViewOf(s0);
    ghost var after := Reconciled(before, parsed);
    changes := [];
    for n := 0 to |AllFields|
      invariant reg.Valid()
      invariant forall j :: 0 <= j < n && reg.slots[j].Some? ==>
        reg.slots[j].value.current == Settle(s0[j].value, Lookup(parsed, AllFields[j]))
      invariant forall j :: n <= j < |AllFields| && reg.slots[j].Some? ==>
        reg.slots[j].value.current == s0[j].value.current
      invariant changes == ChangeLog(before, after, n)
    {
      var f := AllFields[n];
      var oldValue, newValue := ReconcileSlot(reg, n, Lookup(parsed, f), s0[n]);
      EffectiveAt(s0, parsed, before, after, n);
      ChangeLogPrefix(before, after, n + 1);
      if oldValue != newValue {
        changes := changes + [ChangeRecord(f, oldValue, newValue)];
      }
    }
    ViewOfSettled(s0, reg.States(), parsed);
  }
}
