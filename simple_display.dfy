/**
 * Tuple display (include/polarphp/basic/SimpleDisplay.h).
 *
 * `simple_display` writes a trivially displayable value through the stream
 * operator, and a tuple by recursion over the element index: index 0 writes
 * "(", every later index writes ", ", each index then writes its element, and
 * the index equal to the tuple size writes ")". A displayable value is either
 * an already rendered trivial value or a tuple of displayable values.
 */
module SimpleDisplay {
  datatype Displayable = Trivial(text: string) | Tuple(elems: seq<Displayable>)

  /** What `simple_display` appends to the stream, as the source is written. */
  function Show(d: Displayable): string
    decreases d, 0
  {
    match d
    case Trivial(t) => t
    case Tuple(es) => ShowTuple(es, 0)
  }

  /** `simple_display_tuple<I>`: the opening or separator, element I, then the rest. */
  function ShowTuple(es: seq<Displayable>, i: nat): string
    requires i <= |es|
    decreases es, |es| - i
  {
    if i == |es| then ")"
    else (if i == 0 then "(" else ", ") + Show(es[i]) + ShowTuple(es, i + 1)
  }

  /** Reference definition: the displayed elements joined by ", ". */
  function JoinShown(es: seq<Displayable>): string
    decreases es
  {
    if |es| == 0 then ""
    else if |es| == 1 then Show(es[0])
    else Show(es[0]) + ", " + JoinShown(es[1..])
  }

  /** Number of characters of a joined display: the elements plus two per separator. */
  function JoinedLength(es: seq<Displayable>): nat
  {
    if |es| == 0 then 0 else |Show(es[0])| + (if |es| == 1 then 0 else 2) + JoinedLength(es[1..])
  }

  lemma {:induction false} ShowTupleSuffix(es: seq<Displayable>, i: nat)
    requires 0 < i <= |es|
    ensures ShowTuple(es, i) == (if i < |es| then ", " + JoinShown(es[i..]) else "") + ")"
    decreases |es| - i
  {
    if i < |es| {
      ShowTupleSuffix(es, i + 1);
      if i + 1 < |es| {
        assert es[i..][1..] == es[i + 1..];
      }
    }
  }

  /** A tuple of one or more elements displays as "(" e0 ", " e1 ... ")". */
  lemma {:induction false} ShowNonEmptyTuple(es: seq<Displayable>)
    requires |es| >= 1
    ensures Show(Tuple(es)) == "(" + JoinShown(es) + ")"
  {
    ShowTupleSuffix(es, 1);
    if |es| > 1 {
      assert es[1..] == es[0..][1..];
    }
  }

  /** The joined display is the elements in order with exactly |es| - 1 separators of two characters. */
  lemma {:induction false} JoinShownLength(es: seq<Displayable>)
    ensures |JoinShown(es)| == JoinedLength(es)
    ensures |es| >= 1 ==> JoinedLength(es) == SumShown(es) + 2 * (|es| - 1)
  {
    if |es| > 1 {
      JoinShownLength(es[1..]);
    }
  }

  /** Total length of the displayed elements. */
  function SumShown(es: seq<Displayable>): nat
  {
    if |es| == 0 then 0 else |Show(es[0])| + SumShown(es[1..])
  }

  /** The as-written display of the empty tuple is ")" alone: no opening parenthesis. */
  lemma ShowEmptyTupleAsWritten()
    ensures Show(Tuple([])) == ")"
  {
  }

  /** As written, a tuple's display opens with "(" exactly when the tuple is non-empty. */
  lemma {:induction false} OpensIffNonEmpty(es: seq<Displayable>)
    ensures |Show(Tuple(es))| >= 1
    ensures Show(Tuple(es))[0] == '(' <==> |es| >= 1
  {
    if |es| >= 1 {
      ShowNonEmptyTuple(es);
    }
  }

  /** Corrected display: the empty tuple is written as "()". */
  function ShowFixed(d: Displayable): string
    decreases d, 1
  {
    match d
    case Trivial(t) => t
    case Tuple(es) => if |es| == 0 then "()" else ShowTupleFixed(es, 0)
  }

  function ShowTupleFixed(es: seq<Displayable>, i: nat): string
    requires i <= |es|
    decreases es, |es| - i
  {
    if i == |es| then ")"
    else (if i == 0 then "(" else ", ") + ShowFixed(es[i]) + ShowTupleFixed(es, i + 1)
  }

  function JoinShownFixed(es: seq<Displayable>): string
    decreases es
  {
    if |es| == 0 then ""
    else if |es| == 1 then ShowFixed(es[0])
    else ShowFixed(es[0]) + ", " + JoinShownFixed(es[1..])
  }

  lemma {:induction false} ShowTupleFixedSuffix(es: seq<Displayable>, i: nat)
    requires 0 < i <= |es|
    ensures ShowTupleFixed(es, i) == (if i < |es| then ", " + JoinShownFixed(es[i..]) else "") + ")"
    decreases |es| - i
  {
    if i < |es| {
      ShowTupleFixedSuffix(es, i + 1);
      if i + 1 < |es| {
        assert es[i..][1..] == es[i + 1..];
      }
    }
  }

  /** With the correction every tuple, the empty one included, displays as "(" joined ")". */
  lemma {:induction false} ShowFixedTuple(es: seq<Displayable>)
    ensures ShowFixed(Tuple(es)) == "(" + JoinShownFixed(es) + ")"
  {
    if |es| >= 1 {
      ShowTupleFixedSuffix(es, 1);
      if |es| > 1 {
        assert es[1..] == es[0..][1..];
      }
    }
  }

  /** Number of empty tuples anywhere inside a displayable value. */
  function EmptyTuples(d: Displayable): nat
    decreases d, 0
  {
    match d
    case Trivial(_) => 0
    case Tuple(es) => (if |es| == 0 then 1 else 0) + EmptyTuplesFrom(es, 0)
  }

  function EmptyTuplesFrom(es: seq<Displayable>, i: nat): nat
    requires i <= |es|
    decreases es, |es| - i
  {
    if i == |es| then 0 else EmptyTuples(es[i]) + EmptyTuplesFrom(es, i + 1)
  }

  /**
   * The correction adds one character per empty tuple and changes nothing
   * else: the two displays agree exactly when no empty tuple occurs.
   */
  lemma {:induction false} FixedDiffersByEmptyTuples(d: Displayable)
    ensures |ShowFixed(d)| == |Show(d)| + EmptyTuples(d)
    ensures ShowFixed(d) == Show(d) <==> EmptyTuples(d) == 0
    decreases d, 0
  {
    match d
    case Trivial(_) =>
    case Tuple(es) =>
      FixedDiffersByEmptyTuplesFrom(es, 0);
  }

  lemma {:induction false} FixedDiffersByEmptyTuplesFrom(es: seq<Displayable>, i: nat)
    requires i <= |es|
    ensures |ShowTupleFixed(es, i)| == |ShowTuple(es, i)| + EmptyTuplesFrom(es, i)
    ensures EmptyTuplesFrom(es, i) == 0 ==> ShowTupleFixed(es, i) == ShowTuple(es, i)
    decreases es, |es| - i
  {
    if i < |es| {
      FixedDiffersByEmptyTuples(es[i]);
      FixedDiffersByEmptyTuplesFrom(es, i + 1);
    }
  }
}
