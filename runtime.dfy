/**
 * The dynamic value cell (`runtime.DynamicValue[T]`): a mutable holder of one
 * typed value together with the default it was constructed with.
 *
 * Go's type parameter T ranges here over the closed set of kinds the registry
 * uses (int, bool, string, time.Duration), written as a tagged variant. A
 * reference that may be nil is an `Option<DynamicValue>`; the nil-safe entry
 * points at the end of the module give the behaviour of a method called on a
 * nil receiver.
 */
module Runtime {
  import opened Wrappers

  /** The value types a cell can hold. */
  datatype Kind = IntKind | BoolKind | StringKind | DurationKind

  /** A typed value; a duration is a count of nanoseconds, as time.Duration is. */
  datatype Value = Int(i: int) | Bool(b: bool) | Str(s: string) | Duration(nanos: int)
  {
    function KindOf(): Kind {
      match this
      case Int(_) => IntKind
      case Bool(_) => BoolKind
      case Str(_) => StringKind
      case Duration(_) => DurationKind
    }
  }

  /** Go's zero value of each kind: 0, false, "" and a zero duration. */
  function ZeroOf(k: Kind): (z: Value)
    ensures z.KindOf() == k
  {
    match k
    case IntKind => Int(0)
    case BoolKind => Bool(false)
    case StringKind => Str("")
    case DurationKind => Duration(0)
  }

  class DynamicValue {
    const kind: Kind
    /** the active value, replaced by SetValue and Reset */
    var current: Value
    /** captured once by the constructor, never changed afterwards */
    const default: Value

    /** Both values are of the cell's kind. */
    ghost predicate Valid()
      reads this
    {
      current.KindOf() == kind && default.KindOf() == kind
    }

    /** `runtime.NewDynamicValue(d)`: current value and default are both d. */
    constructor New(d: Value)
      ensures Valid()
      ensures kind == d.KindOf() && current == d && default == d
    {
      kind := d.KindOf();
      current := d;
      default := d;
    }

    /** A cell declared without initialiser (`var c runtime.DynamicValue[T]`): both values are T's zero. */
    constructor Zero(k: Kind)
      ensures Valid()
      ensures kind == k && current == ZeroOf(k) && default == ZeroOf(k)
    {
      kind := k;
      current := ZeroOf(k);
      default := ZeroOf(k);
    }

    /** The active value; it always has the cell's kind. */
    function Get(): (v: Value)
      requires Valid()
      reads this
      ensures v.KindOf() == kind
    {
      current
    }

    /** Replaces the active value; the default is untouched. */
    method SetValue(v: Value)
      requires Valid() && v.KindOf() == kind
      modifies this
      ensures Valid()
      ensures Get() == v
    {
      current := v;
    }

    /** Puts the construction-time default back as the active value. */
    method Reset()
      requires Valid()
      modifies this
      ensures Valid()
      ensures Get() == default
    {
      current := default;
    }
  }

  /** The object a possibly-nil reference points to, as a frame. */
  function Footprint(ref: Option<DynamicValue>): set<DynamicValue> {
    if ref.Some? then {ref.value} else {}
  }

  /** A reference usable as a `*DynamicValue` of kind k: nil, or a valid cell of that kind. */
  ghost predicate RefOfKind(ref: Option<DynamicValue>, k: Kind)
    reads Footprint(ref)
  {
    ref.Some? ==> ref.value.Valid() && ref.value.kind == k
  }

  /** `Get` on a possibly-nil `*DynamicValue[T]`: nil reads as T's zero value. */
  function NilSafeGet(ref: Option<DynamicValue>, k: Kind): (v: Value)
    requires RefOfKind(ref, k)
    reads Footprint(ref)
    ensures v.KindOf() == k
    ensures ref.None? ==> v == ZeroOf(k)
  {
    match ref
    case None => ZeroOf(k)
    case Some(c) => c.Get()
  }

  /** `SetValue` on a possibly-nil reference: a no-op through nil, so a later read still gives the zero value. */
  method NilSafeSetValue(ref: Option<DynamicValue>, k: Kind, v: Value)
    requires RefOfKind(ref, k) && v.KindOf() == k
    modifies Footprint(ref)
    ensures RefOfKind(ref, k)
    ensures NilSafeGet(ref, k) == if ref.Some? then v else ZeroOf(k)
  {
    if ref.Some? {
      ref.value.SetValue(v);
    }
  }

  /** `Reset` on a possibly-nil reference: a no-op through nil. */
  method NilSafeReset(ref: Option<DynamicValue>, k: Kind)
    requires RefOfKind(ref, k)
    modifies Footprint(ref)
    ensures RefOfKind(ref, k)
    ensures NilSafeGet(ref, k) == if ref.Some? then ref.value.default else ZeroOf(k)
  {
    if ref.Some? {
      ref.value.Reset();
    }
  }
}
