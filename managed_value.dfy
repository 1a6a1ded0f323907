/**
 * Managed values of PIL generation (include/polarphp/pil/gen/ManagedValue.h):
 * a PIL value together with an lvalue flag and the handle of the cleanup
 * that destroys it, and the consumable wrapper that records how the value
 * is finally consumed.
 */
module ManagedValue {
  import opened Wrappers
  import PV = PilValue

  /** A non-null PIL value: its identity, whether its type is an address, and its ownership kind. */
  datatype Value = Value(id: nat, isAddress: bool, ownership: PV.ValueOwnershipKind)
  {
    predicate IsObject() { !isAddress }
  }

  /** `CleanupHandle`: invalid, or the handle of a cleanup on the cleanup stack. */
  datatype CleanupHandle = InvalidCleanup | Cleanup(handle: nat)
  {
    predicate IsValid() { Cleanup? }
  }

  /**
   * `ManagedValue`: the value (None is the null PILValue), the lvalue flag
   * packed beside it, and the cleanup handle.
   */
  datatype ManagedValue = ManagedValue(value: Option<Value>, flag: bool, cleanup: CleanupHandle)
  {
    /** An lvalue: the flag with a value. */
    predicate IsLValue() { flag && value.Some? }

    /** Emitted into a context: the flag without a value. */
    predicate IsInContext() { flag && value.None? }

    predicate HasCleanup() { cleanup.IsValid() }

    /** `isPlusZeroRValueOrTrivial`: an rvalue without a cleanup. */
    predicate IsPlusZeroRValueOrTrivial()
    {
      if IsLValue() || IsInContext() then false else !HasCleanup()
    }

    /** `operator bool`: InContext counts as true. */
    predicate AsBool() { value.Some? || flag }

    function GetValue(): Option<Value> { value }

    function GetCleanup(): CleanupHandle { cleanup }

    /** `getLValueAddress`: only for lvalues. */
    function GetLValueAddress(): (v: Value)
      requires IsLValue()
      ensures value == Some(v)
    {
      value.value
    }

    /** `getUnmanagedValue`: only for values without a cleanup. */
    function GetUnmanagedValue(): (v: Option<Value>)
      requires !HasCleanup()
      ensures v == value
    {
      value
    }

    /** `getOwnershipKind`: the ownership kind of the non-null value. */
    function GetOwnershipKind(): PV.ValueOwnershipKind
      requires value.Some?
    {
      value.value.ownership
    }

    /**
     * The shapes the header's comments promise: lvalues are addresses with
     * no cleanup, a value emitted into a context has no cleanup, and objects
     * with trivial ownership never have a cleanup.
     */
    predicate WellFormed()
    {
      (IsLValue() ==> value.value.isAddress && !HasCleanup()) &&
      (IsInContext() ==> !HasCleanup()) &&
      (value.Some? && value.value.IsObject() && value.value.ownership == PV.None ==> !HasCleanup())
    }
  }

  /** `ManagedValue()`: no value, no flag, no cleanup. */
  function Empty(): (r: ManagedValue)
    ensures !r.AsBool() && !r.HasCleanup() && r.WellFormed()
  {
    ManagedValue(None, false, InvalidCleanup)
  }

  /** The public constructor for a +1 rvalue. */
  function ForRValueWithCleanup(value: Value, cleanup: CleanupHandle): (r: ManagedValue)
    requires !value.IsObject() || value.ownership != PV.None || !cleanup.IsValid()
    ensures r.WellFormed() && r.GetValue() == Some(value) && r.GetCleanup() == cleanup
    ensures !r.IsLValue() && !r.IsInContext()
  {
    ManagedValue(Some(value), false, cleanup)
  }

  /** `forUnmanaged`: a +0 rvalue. */
  function ForUnmanaged(value: Value): (r: ManagedValue)
    ensures r.GetValue() == Some(value) && r.IsPlusZeroRValueOrTrivial() && r.WellFormed()
  {
    ManagedValue(Some(value), false, InvalidCleanup)
  }

  function ForOwnedObjectRValue(value: Value, cleanup: CleanupHandle): (r: ManagedValue)
    requires value.IsObject() && value.ownership != PV.None
    ensures r.GetValue() == Some(value) && r.GetCleanup() == cleanup && !r.IsLValue() && r.WellFormed()
  {
    ManagedValue(Some(value), false, cleanup)
  }

  function ForOwnedAddressRValue(value: Value, cleanup: CleanupHandle): (r: ManagedValue)
    requires value.isAddress && value.ownership == PV.None
    ensures r.GetValue() == Some(value) && r.GetCleanup() == cleanup && !r.IsLValue() && r.WellFormed()
  {
    ManagedValue(Some(value), false, cleanup)
  }

  /** `forOwnedRValue`: dispatch on the type's category. */
  function ForOwnedRValue(value: Value, cleanup: CleanupHandle): (r: ManagedValue)
    requires value.isAddress ==> value.ownership == PV.None
    requires value.IsObject() ==> value.ownership != PV.None
    ensures r.GetValue() == Some(value) && r.GetCleanup() == cleanup && !r.IsLValue() && r.WellFormed()
  {
    if value.isAddress then ForOwnedAddressRValue(value, cleanup) else ForOwnedObjectRValue(value, cleanup)
  }

  function ForBorrowedObjectRValue(value: Value): (r: ManagedValue)
    requires value.IsObject() && value.ownership != PV.None
    ensures r.GetValue() == Some(value) && r.IsPlusZeroRValueOrTrivial() && r.WellFormed()
  {
    ManagedValue(Some(value), false, InvalidCleanup)
  }

  function ForBorrowedAddressRValue(value: Value): (r: ManagedValue)
    requires value.isAddress && value.ownership == PV.None
    ensures r.GetValue() == Some(value) && r.IsPlusZeroRValueOrTrivial() && r.WellFormed()
  {
    ManagedValue(Some(value), false, InvalidCleanup)
  }

  /** `forBorrowedRValue`: dispatch on the type's category. */
  function ForBorrowedRValue(value: Value): (r: ManagedValue)
    requires value.isAddress ==> value.ownership == PV.None
    requires value.IsObject() ==> value.ownership != PV.None
    ensures r.GetValue() == Some(value) && r.IsPlusZeroRValueOrTrivial() && r.WellFormed()
  {
    if value.isAddress then ForBorrowedAddressRValue(value) else ForBorrowedObjectRValue(value)
  }

  function ForTrivialObjectRValue(value: Value): (r: ManagedValue)
    requires value.IsObject() && value.ownership == PV.None
    ensures r.GetValue() == Some(value) && r.IsPlusZeroRValueOrTrivial() && r.WellFormed()
  {
    ManagedValue(Some(value), false, InvalidCleanup)
  }

  function ForTrivialAddressRValue(value: Value): (r: ManagedValue)
    requires value.isAddress && value.ownership == PV.None
    ensures r.GetValue() == Some(value) && r.IsPlusZeroRValueOrTrivial() && r.WellFormed()
  {
    ManagedValue(Some(value), false, InvalidCleanup)
  }

  /** `forTrivialRValue`: both categories require trivial ownership. */
  function ForTrivialRValue(value: Value): (r: ManagedValue)
    requires value.ownership == PV.None
    ensures r.GetValue() == Some(value) && r.IsPlusZeroRValueOrTrivial() && r.WellFormed()
  {
    if value.IsObject() then ForTrivialObjectRValue(value) else ForTrivialAddressRValue(value)
  }

  /** `forLValue`: lvalues are addresses and never carry a cleanup. */
  function ForLValue(value: Value): (r: ManagedValue)
    requires value.isAddress
    ensures r.IsLValue() && !r.IsInContext() && !r.HasCleanup() && r.GetLValueAddress() == value && r.WellFormed()
  {
    ManagedValue(Some(value), true, InvalidCleanup)
  }

  /** `forInContext`: the flag with no value. */
  function ForInContext(): (r: ManagedValue)
    ensures r.IsInContext() && !r.IsLValue() && !r.HasCleanup() && r.AsBool() && r.WellFormed()
  {
    ManagedValue(None, true, InvalidCleanup)
  }

  /** `unmanagedBorrow`: an lvalue borrows as itself, anything else as a +0 rvalue of the same value. */
  function UnmanagedBorrow(mv: ManagedValue): (r: ManagedValue)
    requires mv.IsLValue() || mv.value.Some?
    ensures mv.IsLValue() ==> r == mv
    ensures !mv.IsLValue() ==> r.IsPlusZeroRValueOrTrivial() && !r.IsInContext()
    ensures r.GetValue() == mv.GetValue()
    ensures mv.WellFormed() ==> r.WellFormed() && !r.HasCleanup()
  {
    if mv.IsLValue() then mv else ForUnmanaged(mv.GetValue().value)
  }

  /** lvalue and InContext exclude each other, and a value that is neither is an rvalue or empty. */
  lemma FormsAreExclusive(mv: ManagedValue)
    ensures !(mv.IsLValue() && mv.IsInContext())
    ensures mv.AsBool() <==> mv.IsLValue() || mv.IsInContext() || mv.value.Some?
    ensures !mv.AsBool() ==> mv.IsPlusZeroRValueOrTrivial() == !mv.HasCleanup()
  {
  }

  /** The plus-zero test is false exactly for lvalues, InContext and values with a cleanup. */
  lemma PlusZeroCases(mv: ManagedValue)
    ensures mv.IsPlusZeroRValueOrTrivial() <==> !mv.flag && !mv.HasCleanup()
  {
  }

  /** Borrowing twice is borrowing once. */
  lemma UnmanagedBorrowIdempotent(mv: ManagedValue)
    requires mv.IsLValue() || mv.value.Some?
    ensures UnmanagedBorrow(UnmanagedBorrow(mv)) == UnmanagedBorrow(mv)
  {
  }

  /** Only `forLValue` and `forInContext` set the flag; every +0 constructor leaves no cleanup. */
  lemma ConstructorsFlagAndCleanup(value: Value)
    ensures !ForUnmanaged(value).flag && !ForUnmanaged(value).HasCleanup()
    ensures value.isAddress ==> ForLValue(value).flag && !ForLValue(value).HasCleanup()
    ensures ForInContext().flag && !Empty().flag
    ensures value.ownership == PV.None ==> !ForTrivialRValue(value).flag && !ForTrivialRValue(value).HasCleanup()
    ensures (value.isAddress <==> value.ownership == PV.None) ==>
              !ForBorrowedRValue(value).flag && !ForBorrowedRValue(value).HasCleanup()
  {
  }

  /**
   * A slot holding a managed value, for `transform`, which builds its result
   * from `*this` and then resets `*this`.
   */
  class ManagedValueSlot {
    var contents: ManagedValue

    constructor (mv: ManagedValue)
      ensures contents == mv
    {
      contents := mv;
    }

    /**
     * `transform`: the new value with the same lvalue-ness and the same
     * cleanup; the slot is left empty. The ownership kinds must agree.
     */
    method Transform(newValue: Value) returns (m: ManagedValue)
      requires contents.value.Some? && contents.GetOwnershipKind() == newValue.ownership
      modifies this
      ensures m == ManagedValue(Some(newValue), old(contents).IsLValue(), old(contents).cleanup)
      ensures m.IsLValue() == old(contents).IsLValue() && m.GetCleanup() == old(contents).GetCleanup()
      ensures contents == Empty()
    {
      m := ManagedValue(Some(newValue), contents.IsLValue(), contents.GetCleanup());
      contents := Empty();
    }
  }

  /**
   * `transform` keeps the documented shapes when the new value has the same
   * type category as the old one.
   */
  lemma TransformWellFormed(mv: ManagedValue, newValue: Value)
    requires mv.WellFormed() && mv.value.Some? && mv.GetOwnershipKind() == newValue.ownership
    requires newValue.isAddress == mv.value.value.isAddress
    ensures ManagedValue(Some(newValue), mv.IsLValue(), mv.cleanup).WellFormed()
  {
  }

  // ---------------------------------------------------------------------
  // ConsumableManagedValue
  // ---------------------------------------------------------------------

  /** `CastConsumptionKind`, declared elsewhere; the kinds the header uses. */
  datatype CastConsumptionKind = TakeAlways | TakeOnSuccess | CopyOnSuccess | BorrowAlways

  /** The constructor's two assertions: no BorrowAlways on an address, no CopyOnSuccess on an object. */
  predicate ConsumptionFits(value: Value, kind: CastConsumptionKind)
  {
    (value.IsObject() || kind != BorrowAlways) && (value.isAddress || kind != CopyOnSuccess)
  }

  datatype ConsumableManagedValue = ConsumableManagedValue(mv: ManagedValue, finalConsumption: CastConsumptionKind)
  {
    /** `isValid`: the managed value converts to true. */
    predicate IsValid() { mv.AsBool() }

    /** `isOwned`: only a TakeAlways value is +1. */
    predicate IsOwned()
      requires IsValid()
    {
      finalConsumption == TakeAlways
    }

    function GetFinalManagedValue(): ManagedValue { mv }

    function GetFinalConsumption(): CastConsumptionKind { finalConsumption }

    /** `asUnmanagedValue`: the same value as a +0 rvalue. */
    function AsUnmanagedValue(): (r: ManagedValue)
      requires mv.value.Some?
      ensures r.GetValue() == mv.GetValue() && r.IsPlusZeroRValueOrTrivial()
    {
      ForUnmanaged(mv.value.value)
    }
  }

  /** `ConsumableManagedValue()`: the invalid one. */
  function InvalidConsumable(): (r: ConsumableManagedValue)
    ensures !r.IsValid()
  {
    ConsumableManagedValue(Empty(), TakeAlways)
  }

  /** `ConsumableManagedValue(value, kind)`: the kind must fit the type's category. */
  function MakeConsumable(mv: ManagedValue, kind: CastConsumptionKind): (r: ConsumableManagedValue)
    requires mv.value.Some? && ConsumptionFits(mv.value.value, kind)
    ensures r.IsValid() && r.GetFinalManagedValue() == mv && r.GetFinalConsumption() == kind
    ensures r.IsOwned() <==> kind == TakeAlways
  {
    ConsumableManagedValue(mv, kind)
  }

  /** `ConsumableManagedValue::forUnmanaged`. */
  function ConsumableForUnmanaged(value: Value): (r: ConsumableManagedValue)
    ensures r.IsValid() && r.IsOwned() && !r.mv.HasCleanup() && r.mv.GetValue() == Some(value)
  {
    MakeConsumable(ForUnmanaged(value), TakeAlways)
  }

  /** `ConsumableManagedValue::forOwned`. */
  function ConsumableForOwned(mv: ManagedValue): (r: ConsumableManagedValue)
    requires mv.value.Some?
    ensures r.IsValid() && r.IsOwned() && r.GetFinalManagedValue() == mv
  {
    MakeConsumable(mv, TakeAlways)
  }

  /**
   * `asBorrowedOperand`: an address is used unmanaged and copied on success;
   * an object is borrowed and always borrowed. `borrow` is defined out of
   * line, so its result is a parameter, an object value as the constructor
   * demands.
   */
  function AsBorrowedOperand(c: ConsumableManagedValue, borrowed: ManagedValue): (r: ConsumableManagedValue)
    requires c.mv.value.Some?
    requires c.mv.value.value.IsObject() ==> borrowed.value.Some? && borrowed.value.value.IsObject()
    ensures r.IsValid() && !r.IsOwned()
    ensures c.mv.value.value.isAddress ==>
              r.GetFinalConsumption() == CopyOnSuccess && r.GetFinalManagedValue() == c.AsUnmanagedValue()
    ensures c.mv.value.value.IsObject() ==>
              r.GetFinalConsumption() == BorrowAlways && r.GetFinalManagedValue() == borrowed
  {
    if c.mv.value.value.isAddress then MakeConsumable(c.AsUnmanagedValue(), CopyOnSuccess)
    else MakeConsumable(borrowed, BorrowAlways)
  }

  /** Every constructible consumable value keeps to the constructor's rule, and is owned iff TakeAlways. */
  lemma ConsumablesFit(value: Value, mv: ManagedValue)
    ensures ConsumptionFits(value, TakeAlways)
    ensures mv.value.Some? ==> ConsumableForOwned(mv).IsOwned()
    ensures ConsumptionFits(value, BorrowAlways) <==> value.IsObject()
    ensures ConsumptionFits(value, CopyOnSuccess) <==> value.isAddress
  {
  }
}
