/**
 * Ownership kinds, operand ownership maps and intrusive use-lists
 * (include/polarphp/pil/lang/PILValue.h).
 *
 * Every value keeps the head of a singly linked list of the operands that
 * use it (`FirstUse`); each operand keeps the value it uses, the next operand
 * in that list (`NextUse`) and a back pointer to whichever link points at it
 * (`Back`: the value's head or the previous operand's `NextUse`). The lists
 * are modelled over an arena of values and operands named by integers, the
 * pointer fields become maps, and a ghost map records the list of each value
 * so that the invariants can be stated and kept.
 */
module PilValue {
  import W = Wrappers

  // ---------------------------------------------------------------------
  // Ownership kinds
  // ---------------------------------------------------------------------

  datatype UseLifetimeConstraint = MustBeLive | MustBeInvalidated

  /** `bool(constraint)`: the bit a constraint is stored as. */
  function ConstraintBit(c: UseLifetimeConstraint): bool { c == MustBeInvalidated }

  /** `UseLifetimeConstraint(bool)`. */
  function ConstraintOfBit(b: bool): (c: UseLifetimeConstraint)
    ensures ConstraintBit(c) == b
  {
    if b then MustBeInvalidated else MustBeLive
  }

  datatype ValueOwnershipKind = Unowned | Owned | Guaranteed | None

  const NUM_KINDS: nat := 4

  function KindIndex(k: ValueOwnershipKind): (i: nat)
    ensures i < NUM_KINDS
  {
    match k
    case Unowned => 0
    case Owned => 1
    case Guaranteed => 2
    case None => 3
  }

  /** `ValueOwnershipKind(unsigned)`. */
  function KindOfIndex(i: nat): (k: ValueOwnershipKind)
    requires i < NUM_KINDS
    ensures KindIndex(k) == i
  {
    if i == 0 then Unowned else if i == 1 then Owned else if i == 2 then Guaranteed else None
  }

  /**
   * `getForwardingLifetimeConstraint`: forwarding an owned value consumes
   * it; every other kind must stay live.
   */
  function ForwardingLifetimeConstraint(k: ValueOwnershipKind): (c: UseLifetimeConstraint)
    ensures c == MustBeInvalidated <==> k == Owned
    ensures c == MustBeLive <==> k in {None, Guaranteed, Unowned}
  {
    match k
    case None => MustBeLive
    case Guaranteed => MustBeLive
    case Unowned => MustBeLive
    case Owned => MustBeInvalidated
  }

  /**
   * The binary `merge` is defined out of line; the model takes it as a
   * parameter and relies only on its documented rule that None merges with
   * every kind.
   */
  type Merge = (ValueOwnershipKind, ValueOwnershipKind) -> W.Option<ValueOwnershipKind>

  predicate NoneMergesWithAll(merge: Merge)
  {
    forall k :: merge(None, k).Some? && merge(k, None).Some?
  }

  /** `isCompatibleWith`: two kinds are compatible when their merge has a value. */
  predicate IsCompatibleWith(merge: Merge, a: ValueOwnershipKind, b: ValueOwnershipKind)
  {
    merge(a, b).Some?
  }

  /** None is compatible with every kind, in both orders. */
  lemma NoneIsCompatible(merge: Merge, k: ValueOwnershipKind)
    requires NoneMergesWithAll(merge)
    ensures IsCompatibleWith(merge, None, k) && IsCompatibleWith(merge, k, None)
  {
  }

  /** One step of the accumulation in the range `merge`: a failed accumulator stays failed. */
  function MergeStep(merge: Merge, acc: W.Option<ValueOwnershipKind>, x: ValueOwnershipKind): W.Option<ValueOwnershipKind>
  {
    if acc.None? then acc else merge(acc.value, x)
  }

  function Accumulate(merge: Merge, acc: W.Option<ValueOwnershipKind>, ks: seq<ValueOwnershipKind>): W.Option<ValueOwnershipKind>
    decreases |ks|
  {
    if |ks| == 0 then acc else Accumulate(merge, MergeStep(merge, acc, ks[0]), ks[1..])
  }

  /** The range `merge`: accumulate from an initial None. */
  function RangeMerge(merge: Merge, ks: seq<ValueOwnershipKind>): W.Option<ValueOwnershipKind>
  {
    Accumulate(merge, W.Some(None), ks)
  }

  lemma {:induction false} AccumulateAppend(merge: Merge, acc: W.Option<ValueOwnershipKind>, a: seq<ValueOwnershipKind>, b: seq<ValueOwnershipKind>)
    ensures Accumulate(merge, acc, a + b) == Accumulate(merge, Accumulate(merge, acc, a), b)
    decreases |a|
  {
    if |a| == 0 {
      assert a + b == b;
    } else {
      assert (a + b)[0] == a[0] && (a + b)[1..] == a[1..] + b;
      AccumulateAppend(merge, MergeStep(merge, acc, a[0]), a[1..], b);
    }
  }

  lemma {:induction false} AccumulateFailed(merge: Merge, ks: seq<ValueOwnershipKind>)
    ensures Accumulate(merge, W.None, ks) == W.None
    decreases |ks|
  {
    if |ks| > 0 {
      AccumulateFailed(merge, ks[1..]);
    }
  }

  /** The range merge of an empty range is None, and of one kind is that kind merged into None. */
  lemma RangeMergeShort(merge: Merge, k: ValueOwnershipKind)
    ensures RangeMerge(merge, []) == W.Some(None)
    ensures RangeMerge(merge, [k]) == merge(None, k)
  {
    assert [k][1..] == [];
    calc {
      RangeMerge(merge, [k]);
      Accumulate(merge, MergeStep(merge, W.Some(None), k), []);
      merge(None, k);
    }
  }

  /** Appending one kind merges it into the accumulated result. */
  lemma {:induction false} RangeMergeSnoc(merge: Merge, ks: seq<ValueOwnershipKind>, x: ValueOwnershipKind)
    ensures RangeMerge(merge, ks + [x]) == MergeStep(merge, RangeMerge(merge, ks), x)
  {
    AccumulateAppend(merge, W.Some(None), ks, [x]);
  }

  /** Once a prefix of the range fails to merge, the whole range fails. */
  lemma {:induction false} RangeMergeFailureSticks(merge: Merge, ks: seq<ValueOwnershipKind>, i: nat)
    requires i <= |ks| && RangeMerge(merge, ks[..i]).None?
    ensures RangeMerge(merge, ks).None?
  {
    assert ks == ks[..i] + ks[i..];
    AccumulateAppend(merge, W.Some(None), ks[..i], ks[i..]);
    AccumulateFailed(merge, ks[i..]);
  }

  /**
   * A merge that keeps to the documented None rule and otherwise accepts
   * only equal kinds; the design documentation describes merge this way,
   * the header does not show it.
   */
  function MergeEqualOrNone(a: ValueOwnershipKind, b: ValueOwnershipKind): (r: W.Option<ValueOwnershipKind>)
    ensures r.Some? <==> a == None || b == None || a == b
  {
    if a == None then W.Some(b) else if b == None then W.Some(a) else if a == b then W.Some(a) else W.None
  }

  lemma MergeEqualOrNoneKeepsNoneRule()
    ensures NoneMergesWithAll(MergeEqualOrNone)
  {
  }

  /** All kinds of a range other than None agree. */
  predicate NonNoneAgree(ks: seq<ValueOwnershipKind>)
  {
    forall i, j :: 0 <= i < |ks| && 0 <= j < |ks| && ks[i] != None && ks[j] != None ==> ks[i] == ks[j]
  }

  /**
   * With that merge, a range merges exactly when its kinds other than None
   * agree, and the result is the common kind (None if there is none).
   */
  lemma {:induction false} RangeMergeEqualOrNone(ks: seq<ValueOwnershipKind>)
    ensures RangeMerge(MergeEqualOrNone, ks).Some? <==> NonNoneAgree(ks)
    ensures RangeMerge(MergeEqualOrNone, ks).Some? ==>
              (RangeMerge(MergeEqualOrNone, ks).value == None <==> forall i :: 0 <= i < |ks| ==> ks[i] == None)
    ensures RangeMerge(MergeEqualOrNone, ks).Some? && RangeMerge(MergeEqualOrNone, ks).value != None ==>
              exists i :: 0 <= i < |ks| && ks[i] == RangeMerge(MergeEqualOrNone, ks).value
    ensures RangeMerge(MergeEqualOrNone, ks).Some? ==>
              forall i :: 0 <= i < |ks| && ks[i] != None ==> ks[i] == RangeMerge(MergeEqualOrNone, ks).value
    decreases |ks|
  {
    if |ks| > 0 {
      var init := ks[..|ks| - 1];
      var x := ks[|ks| - 1];
      assert ks == init + [x];
      RangeMergeEqualOrNone(init);
      RangeMergeSnoc(MergeEqualOrNone, init, x);
      var r := RangeMerge(MergeEqualOrNone, init);
      if r.None? {
        assert !NonNoneAgree(init);
        var i, j :| 0 <= i < |init| && 0 <= j < |init| && init[i] != None && init[j] != None && init[i] != init[j];
        assert ks[i] == init[i] && ks[j] == init[j];
      } else if r.value != None && x != None && x != r.value {
        var i :| 0 <= i < |init| && init[i] == r.value;
        assert ks[i] == r.value && ks[|ks| - 1] == x;
      } else {
        forall i, j | 0 <= i < |ks| && 0 <= j < |ks| && ks[i] != None && ks[j] != None
          ensures ks[i] == ks[j]
        {
          if i < |init| { assert ks[i] == init[i]; }
          if j < |init| { assert ks[j] == init[j]; }
        }
        if x != None {
          assert ks[|ks| - 1] == x;
        }
        forall i | 0 <= i < |init| ensures ks[i] == init[i] { }
      }
    }
  }

  // ---------------------------------------------------------------------
  // OperandOwnershipKindMap
  // ---------------------------------------------------------------------

  /** NUM_DATA_BITS = 2 * (LastValueOwnershipKind + 1). */
  const NUM_DATA_BITS: nat := 2 * NUM_KINDS

  /** What an operand map says about one kind: not accepted, or accepted with a constraint. */
  function EntryOf(data: seq<bool>, k: ValueOwnershipKind): W.Option<UseLifetimeConstraint>
    requires |data| == NUM_DATA_BITS
  {
    if data[2 * KindIndex(k)] then W.Some(ConstraintOfBit(data[2 * KindIndex(k) + 1])) else W.None
  }

  /** Whether `add(k, c)` may be called: k is absent or already mapped to c. */
  predicate CanAdd(data: seq<bool>, k: ValueOwnershipKind, c: UseLifetimeConstraint)
    requires |data| == NUM_DATA_BITS
  {
    EntryOf(data, k).None? || EntryOf(data, k) == W.Some(c)
  }

  /** The bits after `add(k, c)`. */
  function AddBits(data: seq<bool>, k: ValueOwnershipKind, c: UseLifetimeConstraint): (r: seq<bool>)
    requires |data| == NUM_DATA_BITS
    ensures |r| == NUM_DATA_BITS
    ensures EntryOf(r, k) == W.Some(c)
    ensures forall j :: j != k ==> EntryOf(r, j) == EntryOf(data, j)
  {
    data[2 * KindIndex(k) := true][2 * KindIndex(k) + 1 := ConstraintBit(c)]
  }

  class OperandOwnershipKindMap {
    /** The small bit vector: bit 2k says kind k is accepted, bit 2k+1 holds its constraint. */
    var data: seq<bool>

    ghost predicate Valid()
      reads this
    {
      |data| == NUM_DATA_BITS
    }

    function Entry(k: ValueOwnershipKind): W.Option<UseLifetimeConstraint>
      reads this
      requires Valid()
    {
      EntryOf(data, k)
    }

    /** `OperandOwnershipKindMap()`: accepts nothing. */
    constructor ()
      ensures Valid() && forall k :: Entry(k).None?
    {
      data := seq(NUM_DATA_BITS, _ => false);
    }

    /** `OperandOwnershipKindMap(kind, constraint)`. */
    constructor WithKind(kind: ValueOwnershipKind, constraint: UseLifetimeConstraint)
      ensures Valid() && Entry(kind) == W.Some(constraint)
      ensures forall k :: k != kind ==> Entry(k).None?
    {
      data := AddBits(seq(NUM_DATA_BITS, _ => false), kind, constraint);
    }

    /**
     * `add`: sets the kind's bit and stores the constraint. Re-adding a kind
     * with a different constraint trips the header's assertion.
     */
    method Add(kind: ValueOwnershipKind, constraint: UseLifetimeConstraint)
      requires Valid() && CanAdd(data, kind, constraint)
      modifies this
      ensures Valid() && data == AddBits(old(data), kind, constraint)
      ensures Entry(kind) == W.Some(constraint)
      ensures forall k :: k != kind ==> Entry(k) == old(Entry(k))
    {
      var index := KindIndex(kind);
      var kindOffset := index * 2;
      var constraintOffset := index * 2 + 1;
      data := data[kindOffset := true];
      data := data[constraintOffset := ConstraintBit(constraint)];
    }

    /** `addCompatibilityConstraint`: None as MustBeLive, then the kind itself. */
    method AddCompatibilityConstraint(kind: ValueOwnershipKind, constraint: UseLifetimeConstraint)
      requires Valid() && CanAdd(data, None, MustBeLive)
      requires CanAdd(AddBits(data, None, MustBeLive), kind, constraint)
      modifies this
      ensures Valid()
      ensures Entry(None).Some? && Entry(kind) == W.Some(constraint)
      ensures forall k :: k != kind && k != None ==> Entry(k) == old(Entry(k))
      ensures kind != None ==> Entry(None) == W.Some(MustBeLive)
    {
      Add(None, MustBeLive);
      Add(kind, constraint);
    }

    /** `canAcceptKind`. */
    function CanAcceptKind(kind: ValueOwnershipKind): (r: bool)
      reads this
      requires Valid()
      ensures r <==> Entry(kind).Some?
    {
      data[KindIndex(kind) * 2]
    }

    /** `getLifetimeConstraint`: only for accepted kinds. */
    function GetLifetimeConstraint(kind: ValueOwnershipKind): (c: UseLifetimeConstraint)
      reads this
      requires Valid() && CanAcceptKind(kind)
      ensures Entry(kind) == W.Some(c)
    {
      ConstraintOfBit(data[KindIndex(kind) * 2 + 1])
    }
  }

  /** `compatibilityMap(kind, constraint)`; a None kind can only be asked for with MustBeLive. */
  method CompatibilityMap(kind: ValueOwnershipKind, constraint: UseLifetimeConstraint) returns (m: OperandOwnershipKindMap)
    requires kind == None ==> constraint == MustBeLive
    ensures fresh(m) && m.Valid()
    ensures m.Entry(kind) == W.Some(constraint) && m.Entry(None) == W.Some(MustBeLive)
    ensures forall k :: k != kind && k != None ==> m.Entry(k).None?
  {
    m := new OperandOwnershipKindMap();
    assert m.Entry(None).None? && m.Entry(kind).None?;
    m.AddCompatibilityConstraint(kind, constraint);
  }

  /** `compatibleWithAllExcept(kind)`: every other kind, each as MustBeLive. */
  method CompatibleWithAllExcept(kind: ValueOwnershipKind) returns (m: OperandOwnershipKindMap)
    ensures fresh(m) && m.Valid()
    ensures m.Entry(kind).None?
    ensures forall k :: k != kind ==> m.Entry(k) == W.Some(MustBeLive)
  {
    m := new OperandOwnershipKindMap();
    var index := 0;
    var end := KindIndex(None) + 1;
    while index != end
      invariant 0 <= index <= end && m.Valid()
      invariant forall k :: KindIndex(k) < index && k != kind ==> m.Entry(k) == W.Some(MustBeLive)
      invariant forall k :: KindIndex(k) >= index || k == kind ==> m.Entry(k).None?
      decreases end - index
    {
      if KindOfIndex(index) == kind {
        index := index + 1;
        continue;
      }
      m.Add(KindOfIndex(index), MustBeLive);
      index := index + 1;
    }
  }

  /** The list form of `compatibilityMap`: each pair is added with None as MustBeLive. */
  method CompatibilityMapList(args: seq<(ValueOwnershipKind, UseLifetimeConstraint)>) returns (m: OperandOwnershipKindMap)
    requires forall i :: 0 <= i < |args| && args[i].0 == None ==> args[i].1 == MustBeLive
    requires forall i, j :: 0 <= i < |args| && 0 <= j < |args| && args[i].0 == args[j].0 ==> args[i].1 == args[j].1
    ensures fresh(m) && m.Valid()
    ensures |args| > 0 ==> m.Entry(None) == W.Some(MustBeLive)
    ensures forall i :: 0 <= i < |args| ==> m.Entry(args[i].0) == W.Some(args[i].1)
    ensures forall k :: k != None && (forall i :: 0 <= i < |args| ==> args[i].0 != k) ==> m.Entry(k).None?
  {
    m := new OperandOwnershipKindMap();
    var n := 0;
    while n < |args|
      invariant 0 <= n <= |args| && m.Valid() && fresh(m)
      invariant n > 0 ==> m.Entry(None) == W.Some(MustBeLive)
      invariant n == 0 ==> forall k :: m.Entry(k).None?
      invariant forall i :: 0 <= i < n ==> m.Entry(args[i].0) == W.Some(args[i].1)
      invariant forall k :: k != None && (forall i :: 0 <= i < n ==> args[i].0 != k) ==> m.Entry(k).None?
      invariant forall k :: m.Entry(k).Some? ==> k == None || exists i :: 0 <= i < n && args[i].0 == k
    {
      var p := args[n];
      if m.Entry(p.0).Some? && p.0 != None {
        var i :| 0 <= i < n && args[i].0 == p.0;
        assert m.Entry(p.0) == W.Some(p.1);
      }
      assert m.Entry(None).None? || m.Entry(None) == W.Some(MustBeLive);
      m.AddCompatibilityConstraint(p.0, p.1);
      n := n + 1;
    }
  }

  /** `allLive`: every kind accepted as MustBeLive. */
  method AllLive() returns (m: OperandOwnershipKindMap)
    ensures fresh(m) && m.Valid()
    ensures forall k :: m.Entry(k) == W.Some(MustBeLive)
  {
    m := new OperandOwnershipKindMap();
    var index := 0;
    var end := KindIndex(None) + 1;
    while index != end
      invariant 0 <= index <= end && m.Valid()
      invariant forall k :: KindIndex(k) < index ==> m.Entry(k) == W.Some(MustBeLive)
      invariant forall k :: KindIndex(k) >= index ==> m.Entry(k).None?
      decreases end - index
    {
      m.Add(KindOfIndex(index), MustBeLive);
      index := index + 1;
    }
  }
}
