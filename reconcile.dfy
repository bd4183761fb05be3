/**
 * What `UpdateRuntimeConfig` does, stated on values: the registry seen as a
 * map from each wired slot to its cell's (current, default) pair, the result of
 * one reconciliation pass, and the change records the pass emits. The method
 * in module Config is proved to act exactly as `Reconcile` says; the lemmas
 * here are the guarantees the reconciler gives.
 */
module Reconciliation {
  import opened Wrappers
  import opened Runtime
  import opened Schema
  import opened Parser

  /** A wired cell as values. */
  datatype CellState = CellState(current: Value, default: Value)

  /** The registry as values: an entry for every wired slot, none for an unwired one. */
  type RegistryView = map<Field, CellState>

  /** One line of the change trail: which slot changed, from what, to what. */
  datatype ChangeRecord = ChangeRecord(field: Field, oldValue: Value, newValue: Value)

  /** Every wired cell holds values of its slot's type. */
  predicate ViewValid(view: RegistryView) {
    forall f :: f in view ==> view[f].current.KindOf() == KindOf(f) && view[f].default.KindOf() == KindOf(f)
  }

  /** What `Get` through slot f returns: the wired cell's value, or the zero value through nil. */
  function Effective(view: RegistryView, f: Field): Value {
    if f in view then view[f].current else ZeroOf(KindOf(f))
  }

  /** The value a pass gives a wired cell: the overlay's when the key is present, the cell's default otherwise. */
  function Settle(cell: CellState, present: Option<Value>): Value {
    if present.Some? then present.value else cell.default
  }

  /** The registry after one pass with overlay o. Wiring and defaults are never changed. */
  function Reconciled(view: RegistryView, o: Overlay): (r: RegistryView)
    ensures r.Keys == view.Keys
    ensures forall f :: f in r ==> r[f].default == view[f].default
    ensures ViewValid(view) ==> ViewValid(r)
  {
    map f | f in view :: CellState(Settle(view[f], Lookup(o, f)), view[f].default)
  }

  /** The record for slot f: one when the value read through f differs, none otherwise. */
  function RecordFor(before: RegistryView, after: RegistryView, f: Field): seq<ChangeRecord> {
    if Effective(before, f) != Effective(after, f)
    then [ChangeRecord(f, Effective(before, f), Effective(after, f))]
    else []
  }

  /**
   * The change records of the first n slots in declaration order: one for each
   * of them whose value read through the slot differs.
   */
  function ChangeLog(before: RegistryView, after: RegistryView, n: nat): seq<ChangeRecord>
    requires n <= |AllFields|
  {
    if n == 0 then []
    else ChangeLog(before, after, n - 1) + RecordFor(before, after, AllFields[n - 1])
  }

  /** A trail has at most one record per visited slot. */
  lemma {:induction false} ChangeLogBounded(before: RegistryView, after: RegistryView, n: nat)
    requires n <= |AllFields|
    ensures |ChangeLog(before, after, n)| <= n
  {
    if n > 0 {
      ChangeLogBounded(before, after, n - 1);
    }
  }

  /** The change trail of a whole pass, slot by slot in declaration order. */
  lemma ChangeLogUnrolled(before: RegistryView, after: RegistryView)
    ensures ChangeLog(before, after, |AllFields|)
      == RecordFor(before, after, MaximumAllowedCollectionsCount)
       + RecordFor(before, after, AutoschemaEnabled)
       + RecordFor(before, after, AsyncReplicationDisabled)
       + RecordFor(before, after, TenantActivityReadLogLevel)
       + RecordFor(before, after, TenantActivityWriteLogLevel)
       + RecordFor(before, after, RevectorizeCheckDisabled)
       + RecordFor(before, after, ReplicaMovementMinimumAsyncWait)
  {
    var r1 := RecordFor(before, after, MaximumAllowedCollectionsCount);
    var r2 := RecordFor(before, after, AutoschemaEnabled);
    var r3 := RecordFor(before, after, AsyncReplicationDisabled);
    var r4 := RecordFor(before, after, TenantActivityReadLogLevel);
    var r5 := RecordFor(before, after, TenantActivityWriteLogLevel);
    var r6 := RecordFor(before, after, RevectorizeCheckDisabled);
    var r7 := RecordFor(before, after, ReplicaMovementMinimumAsyncWait);
    ChangeLogPrefix(before, after, 1);
    ChangeLogPrefix(before, after, 2);
    ChangeLogPrefix(before, after, 3);
    ChangeLogPrefix(before, after, 4);
    ChangeLogPrefix(before, after, 5);
    ChangeLogPrefix(before, after, 6);
    ChangeLogPrefix(before, after, 7);
    assert ChangeLog(before, after, 0) + r1 == r1;
  }

  /** One more slot appends its record. */
  lemma ChangeLogPrefix(before: RegistryView, after: RegistryView, n: nat)
    requires 0 < n <= |AllFields|
    ensures ChangeLog(before, after, n) == ChangeLog(before, after, n - 1) + RecordFor(before, after, AllFields[n - 1])
  {
  }

  /**
   * One reconciliation pass: the new registry and the change trail, slots
   * visited in declaration order, at most one record per slot.
   */
  function Reconcile(view: RegistryView, o: Overlay): (r: (RegistryView, seq<ChangeRecord>))
    ensures |r.1| <= |AllFields|
  {
    var after := Reconciled(view, o);
    ChangeLogBounded(view, after, |AllFields|);
    (after, ChangeLog(view, after, |AllFields|))
  }

  /** A wired slot whose key is present takes the overlay's value. */
  lemma PresentKeySetsValue(view: RegistryView, o: Overlay, f: Field)
    requires f in view && Lookup(o, f).Some?
    ensures Effective(Reconcile(view, o).0, f) == Lookup(o, f).value
  {
  }

  /**
   * A wired slot whose key is absent goes back to its construction-time
   * default, whatever value it held before.
   */
  lemma AbsentKeyRevertsToDefault(view: RegistryView, o: Overlay, f: Field)
    requires f in view && Lookup(o, f).None?
    ensures Effective(Reconcile(view, o).0, f) == view[f].default
  {
  }

  /** An unwired slot still reads as its zero value after a pass, and stays unwired. */
  lemma UnwiredSlotStaysZero(view: RegistryView, o: Overlay, f: Field)
    requires f !in view
    ensures f !in Reconcile(view, o).0
    ensures Effective(Reconcile(view, o).0, f) == ZeroOf(KindOf(f))
  {
  }

  /**
   * What a pass does to a wired slot depends on that slot's cell and the
   * overlay alone: which other slots are wired makes no difference.
   */
  lemma SlotsIndependent(view1: RegistryView, view2: RegistryView, o: Overlay, f: Field)
    requires f in view1 && f in view2 && view1[f] == view2[f]
    ensures Reconcile(view1, o).0[f] == Reconcile(view2, o).0[f]
  {
  }

  /**
   * Defaults are fixed reference points: after two passes the registry is what
   * the second overlay alone makes of it, so nothing set by the first pass
   * survives a key's removal.
   */
  lemma LastOverlayWins(view: RegistryView, o1: Overlay, o2: Overlay)
    ensures Reconciled(Reconciled(view, o1), o2) == Reconciled(view, o2)
  {
    var a := Reconciled(Reconciled(view, o1), o2);
    var b := Reconciled(view, o2);
    assert a.Keys == b.Keys;
    forall f | f in a
      ensures a[f] == b[f]
    {
    }
  }

  /**
   * A record is emitted for one of the first n slots exactly when its value
   * read through the slot changed, and it carries both values.
   */
  lemma {:induction false} ChangeLogExact(before: RegistryView, after: RegistryView, n: nat, f: Field)
    requires n <= |AllFields|
    ensures forall r :: r in ChangeLog(before, after, n) ==>
      Index(r.field) < n && r.oldValue == Effective(before, r.field) && r.newValue == Effective(after, r.field)
      && r.oldValue != r.newValue
    ensures Index(f) < n && Effective(before, f) != Effective(after, f) ==>
      ChangeRecord(f, Effective(before, f), Effective(after, f)) in ChangeLog(before, after, n)
  {
    if n > 0 {
      ChangeLogExact(before, after, n - 1, f);
      IndexOfPosition(n - 1);
    }
  }

  /** The trail has at most one record per slot, in declaration order. */
  lemma {:induction false} ChangeLogOrdered(before: RegistryView, after: RegistryView, n: nat)
    requires n <= |AllFields|
    ensures forall j, k :: 0 <= j < k < |ChangeLog(before, after, n)| ==>
      Index(ChangeLog(before, after, n)[j].field) < Index(ChangeLog(before, after, n)[k].field)
  {
    if n > 0 {
      ChangeLogOrdered(before, after, n - 1);
      ChangeLogExact(before, after, n - 1, AllFields[n - 1]);
      IndexOfPosition(n - 1);
      var log := ChangeLog(before, after, n);
      var head := ChangeLog(before, after, n - 1);
      forall j, k | 0 <= j < k < |log|
        ensures Index(log[j].field) < Index(log[k].field)
      {
        if k >= |head| {
          assert log[k].field == AllFields[n - 1];
          assert log[j] in head;
        }
      }
    }
  }

  /** A pass that changes no value read through the first n slots emits no record for them. */
  lemma {:induction false} ChangeLogEmptyWhenUnchanged(before: RegistryView, after: RegistryView, n: nat)
    requires n <= |AllFields|
    requires forall f :: Index(f) < n ==> Effective(before, f) == Effective(after, f)
    ensures ChangeLog(before, after, n) == []
  {
    if n > 0 {
      ChangeLogEmptyWhenUnchanged(before, after, n - 1);
      IndexOfPosition(n - 1);
    }
  }

  /**
   * Applying the same overlay twice in a row: the second pass leaves the
   * registry as it was and emits no change record.
   */
  lemma ReconcileIdempotent(view: RegistryView, o: Overlay)
    ensures Reconcile(Reconcile(view, o).0, o).0 == Reconcile(view, o).0
    ensures Reconcile(Reconcile(view, o).0, o).1 == []
  {
    LastOverlayWins(view, o, o);
    var after := Reconciled(view, o);
    ChangeLogEmptyWhenUnchanged(after, after, |AllFields|);
  }

  /**
   * The trail of a whole pass: every record carries a slot's differing values
   * before and after the pass; there is at most one record per slot, in
   * declaration order; and a slot has its record exactly when the value read
   * through it changed.
   */
  lemma PassTrailExact(view: RegistryView, o: Overlay)
    ensures forall rec :: rec in Reconcile(view, o).1 ==>
      && rec.oldValue == Effective(view, rec.field)
      && rec.newValue == Effective(Reconcile(view, o).0, rec.field)
      && rec.oldValue != rec.newValue
    ensures forall j, k :: 0 <= j < k < |Reconcile(view, o).1| ==>
      Index(Reconcile(view, o).1[j].field) < Index(Reconcile(view, o).1[k].field)
    ensures forall f ::
      (ChangeRecord(f, Effective(view, f), Effective(Reconcile(view, o).0, f)) in Reconcile(view, o).1)
      <==> (Effective(view, f) != Effective(Reconcile(view, o).0, f))
  {
    var after := Reconciled(view, o);
    ChangeLogOrdered(view, after, |AllFields|);
    ChangeLogExact(view, after, |AllFields|, MaximumAllowedCollectionsCount);
    forall f
      ensures ChangeRecord(f, Effective(view, f), Effective(after, f)) in ChangeLog(view, after, |AllFields|)
        <==> Effective(view, f) != Effective(after, f)
    {
      ChangeLogExact(view, after, |AllFields|, f);
    }
  }
}
