/**
 * Statement source locations (include/polarphp/ast/Stmt.h).
 *
 * Statements are a tree of values carrying the source locations the header
 * keeps in each subclass. Start and end locations are chosen by the rules the
 * subclasses state inline: labeled statements start at their label when it
 * has a name, `if` ends where its `else` (or else its `then`) ends, jumps end
 * at their target label when one was written, and so on. The common
 * statement header packs the kind and the implicit flag into a 64-bit word.
 * A fallthrough statement's source and destination cases are links that
 * semantic analysis sets once.
 */
module Stmt {
  import opened Wrappers

  datatype SourceLoc = InvalidLoc | Loc(offset: nat)
  {
    predicate IsValid() { Loc? }
  }

  datatype SourceRange = SourceRange(start: SourceLoc, end: SourceLoc)

  /** `getDefaultImplicitFlag`: the explicit flag when given, otherwise "the keyword has no location". */
  function DefaultImplicitFlag(implicit: Option<bool>, keyLoc: SourceLoc): (r: bool)
    ensures implicit.Some? ==> r == implicit.value
    ensures implicit.None? ==> (r <==> !keyLoc.IsValid())
  {
    match implicit
    case Some(b) => b
    case None => !keyLoc.IsValid()
  }

  // ---------------------------------------------------------------------
  // The statement header word
  // ---------------------------------------------------------------------

  /** Statement kinds fit the 8 bits of `Kind` (bitmax(NumStmtKindBits, 8)). */
  type StmtKindIndex = bv8

  const KIND_MASK: bv64 := 0xFF
  const IMPLICIT_BIT: bv64 := 0x100
  const LOW_HALF: bv64 := 0xFFFF_FFFF

  /**
   * `Stmt(kind, implicit)`: OpaqueBits is cleared, then Kind fills the low
   * eight bits and Implicit the next one.
   */
  function StmtBits(kind: StmtKindIndex, implicit: bool): bv64
  {
    var opaqueBits: bv64 := 0;
    var withKind := (opaqueBits & !KIND_MASK) | (kind as bv64);
    if implicit then withKind | IMPLICIT_BIT else withKind & !IMPLICIT_BIT
  }

  function GetKind(bits: bv64): (k: StmtKindIndex)
  {
    (bits & KIND_MASK) as bv8
  }

  predicate IsImplicit(bits: bv64)
  {
    bits & IMPLICIT_BIT != 0
  }

  /**
   * The 32-bit count a subclass keeps in the upper half of the word
   * (NumElements, NumPatterns, NumCatches, CaseCount, NumYields).
   */
  function WithCount(bits: bv64, n: bv32): bv64
  {
    (bits & LOW_HALF) | ((n as bv64) << 32)
  }

  function GetCount(bits: bv64): bv32
  {
    (bits >> 32) as bv32
  }

  /** `getKind` and `isImplicit` return what the constructor stored. */
  lemma {:induction false} StmtBitsRoundTrip(kind: StmtKindIndex, implicit: bool)
    ensures GetKind(StmtBits(kind, implicit)) == kind
    ensures IsImplicit(StmtBits(kind, implicit)) == implicit
    ensures GetCount(StmtBits(kind, implicit)) == 0
  {
    var b := kind as bv64;
    assert b & KIND_MASK == b && b & IMPLICIT_BIT == 0 && b >> 32 == 0;
  }

  /** Writing a subclass count leaves the kind and the implicit flag alone and reads back unchanged. */
  lemma {:induction false} WithCountKeepsHeader(bits: bv64, n: bv32)
    ensures GetKind(WithCount(bits, n)) == GetKind(bits)
    ensures IsImplicit(WithCount(bits, n)) == IsImplicit(bits)
    ensures GetCount(WithCount(bits, n)) == n
  {
  }

  // ---------------------------------------------------------------------
  // Conditions
  // ---------------------------------------------------------------------

  datatype ConditionKind = Boolean | PatternBinding | Availability

  /** `CondInitOrAvailable`: a union that, left unset, reads as a null availability pointer. */
  datatype CondPayload = AvailabilityInfo(info: Option<nat>) | ExprPayload(expr: nat)

  datatype StmtConditionElement = StmtConditionElement(introducerLoc: SourceLoc, thePattern: Option<nat>, payload: CondPayload)

  function DefaultConditionElement(): StmtConditionElement
  {
    StmtConditionElement(InvalidLoc, None, AvailabilityInfo(None))
  }

  function PatternCondition(introducerLoc: SourceLoc, pattern: nat, init: nat): StmtConditionElement
  {
    StmtConditionElement(introducerLoc, Some(pattern), ExprPayload(init))
  }

  function BooleanCondition(cond: nat): StmtConditionElement
  {
    StmtConditionElement(InvalidLoc, None, ExprPayload(cond))
  }

  function AvailabilityCondition(info: nat): StmtConditionElement
  {
    StmtConditionElement(InvalidLoc, None, AvailabilityInfo(Some(info)))
  }

  /** `getKind`: a pattern makes a binding; otherwise an expression payload makes a boolean test. */
  function ConditionKindOf(c: StmtConditionElement): (k: ConditionKind)
    ensures k == PatternBinding <==> c.thePattern.Some?
    ensures k == Boolean <==> c.thePattern.None? && c.payload.ExprPayload?
    ensures k == Availability <==> c.thePattern.None? && c.payload.AvailabilityInfo?
  {
    if c.thePattern.Some? then PatternBinding
    else if c.payload.ExprPayload? then Boolean
    else Availability
  }

  /** `getBooleanOrNull`. */
  function BooleanOrNull(c: StmtConditionElement): (e: Option<nat>)
    ensures e.Some? <==> ConditionKindOf(c) == Boolean
  {
    if ConditionKindOf(c) == Boolean then Some(c.payload.expr) else None
  }

  /** Each constructor yields the condition kind it is named for, and the default reads as availability. */
  lemma ConditionKindOfConstructors(loc: SourceLoc, pattern: nat, e: nat, info: nat)
    ensures ConditionKindOf(PatternCondition(loc, pattern, e)) == PatternBinding
    ensures ConditionKindOf(BooleanCondition(e)) == Boolean && BooleanOrNull(BooleanCondition(e)) == Some(e)
    ensures ConditionKindOf(AvailabilityCondition(info)) == Availability
    ensures ConditionKindOf(DefaultConditionElement()) == Availability
  {
  }

  // ---------------------------------------------------------------------
  // Statements and their locations
  // ---------------------------------------------------------------------

  /** `LabeledStmtInfo`: a label is present when its name is non-empty. */
  datatype LabeledStmtInfo = LabeledStmtInfo(name: string, loc: SourceLoc)
  {
    predicate IsSet() { |name| > 0 }
  }

  function NoLabel(): LabeledStmtInfo { LabeledStmtInfo("", InvalidLoc) }

  datatype Stmt =
    | Brace(lbLoc: SourceLoc, elements: seq<Stmt>, rbLoc: SourceLoc)
    | Do(labelInfo: LabeledStmtInfo, doLoc: SourceLoc, body: Stmt)
    | Catch(catchLoc: SourceLoc, body: Stmt)
    | DoCatch(labelInfo: LabeledStmtInfo, doLoc: SourceLoc, body: Stmt, catches: seq<Stmt>)
    | If(labelInfo: LabeledStmtInfo, ifLoc: SourceLoc, thenStmt: Stmt, elseStmt: Option<Stmt>)
    | Guard(guardLoc: SourceLoc, body: Stmt)
    | While(labelInfo: LabeledStmtInfo, whileLoc: SourceLoc, body: Stmt)
    | RepeatWhile(labelInfo: LabeledStmtInfo, repeatLoc: SourceLoc, body: Stmt, outOfLineEnd: SourceLoc)
    | ForEach(labelInfo: LabeledStmtInfo, forLoc: SourceLoc, body: Stmt)
    | Switch(labelInfo: LabeledStmtInfo, switchLoc: SourceLoc, lbraceLoc: SourceLoc, cases: seq<Stmt>, rbraceLoc: SourceLoc)
    | Case(unknownAttrLoc: SourceLoc, caseLoc: SourceLoc, colonLoc: SourceLoc, labelItems: seq<nat>,
           body: Stmt, caseBodyVariables: Option<seq<nat>>, hasFallthrough: bool)
    | Fallthrough(loc: SourceLoc)
    | Break(loc: SourceLoc, targetLoc: SourceLoc)
    | Continue(loc: SourceLoc, targetLoc: SourceLoc)
    | Fail(returnLoc: SourceLoc, nilLoc: SourceLoc)
    /** Return, yield, defer, throw and the rest, whose location getters are out of line. */
    | OutOfLine(start: SourceLoc, end: SourceLoc)

  /** The statements derived from LabeledStmt; a guard carries an always-empty label. */
  predicate IsLabeled(s: Stmt)
  {
    s.Do? || s.DoCatch? || s.If? || s.Guard? || s.While? || s.RepeatWhile? || s.ForEach? || s.Switch?
  }

  function LabelOf(s: Stmt): LabeledStmtInfo
    requires IsLabeled(s)
  {
    if s.Guard? then NoLabel() else s.labelInfo
  }

  /** The keyword a labeled statement starts with when it has no label. */
  function KeywordLoc(s: Stmt): SourceLoc
    requires IsLabeled(s)
  {
    match s
    case Do(_, l, _) => l
    case DoCatch(_, l, _, _) => l
    case If(_, l, _, _) => l
    case Guard(l, _) => l
    case While(_, l, _) => l
    case RepeatWhile(_, l, _, _) => l
    case ForEach(_, l, _) => l
    case Switch(_, l, _, _, _) => l
  }

  /** `getLabelLocOrKeywordLoc`. */
  function LabelLocOrKeywordLoc(info: LabeledStmtInfo, keyword: SourceLoc): SourceLoc
  {
    if info.IsSet() then info.loc else keyword
  }

  /** Statements the location getters can be asked about: a do-catch has at least one catch. */
  predicate WellFormed(s: Stmt)
    decreases s
  {
    match s
    case Brace(_, es, _) => forall i :: 0 <= i < |es| ==> WellFormed(es[i])
    case Do(_, _, b) => WellFormed(b)
    case Catch(_, b) => WellFormed(b)
    case DoCatch(_, _, b, cs) => |cs| > 0 && WellFormed(b) && forall i :: 0 <= i < |cs| ==> WellFormed(cs[i])
    case If(_, _, t, e) => WellFormed(t) && (e.Some? ==> WellFormed(e.value))
    case Guard(_, b) => WellFormed(b)
    case While(_, _, b) => WellFormed(b)
    case RepeatWhile(_, _, b, _) => WellFormed(b)
    case ForEach(_, _, b) => WellFormed(b)
    case Switch(_, _, _, cs, _) => forall i :: 0 <= i < |cs| ==> WellFormed(cs[i])
    case Case(_, _, _, _, b, _, _) => WellFormed(b)
    case _ => true
  }

  /**
   * `getStartLoc`: a labeled statement starts at its label when the label
   * has a name and at its keyword otherwise; a case starts at its @unknown
   * attribute when there is one.
   */
  function StartLoc(s: Stmt): (r: SourceLoc)
    ensures IsLabeled(s) && LabelOf(s).IsSet() ==> r == LabelOf(s).loc
    ensures IsLabeled(s) && !LabelOf(s).IsSet() ==> r == KeywordLoc(s)
    ensures s.Guard? ==> r == s.guardLoc
    ensures s.Case? ==> r == (if s.unknownAttrLoc.IsValid() then s.unknownAttrLoc else s.caseLoc)
  {
    match s
    case Brace(lb, _, _) => lb
    case Do(l, k, _) => LabelLocOrKeywordLoc(l, k)
    case Catch(k, _) => k
    case DoCatch(l, k, _, _) => LabelLocOrKeywordLoc(l, k)
    case If(l, k, _, _) => LabelLocOrKeywordLoc(l, k)
    case Guard(k, _) => LabelLocOrKeywordLoc(NoLabel(), k)
    case While(l, k, _) => LabelLocOrKeywordLoc(l, k)
    case RepeatWhile(l, k, _, _) => LabelLocOrKeywordLoc(l, k)
    case ForEach(l, k, _) => LabelLocOrKeywordLoc(l, k)
    case Switch(l, k, _, _, _) => LabelLocOrKeywordLoc(l, k)
    case Case(u, c, _, _, _, _, _) => if u.IsValid() then u else c
    case Fallthrough(l) => l
    case Break(l, _) => l
    case Continue(l, _) => l
    case Fail(r, _) => r
    case OutOfLine(st, _) => st
  }

  /** `getEndLoc`. */
  function EndLoc(s: Stmt): (r: SourceLoc)
    requires WellFormed(s)
    ensures (s.Break? || s.Continue?) ==> r == (if s.targetLoc.IsValid() then s.targetLoc else s.loc)
    ensures s.Switch? ==> r == s.rbraceLoc
    decreases s
  {
    match s
    case Brace(_, _, rb) => rb
    case Do(_, _, b) => EndLoc(b)
    case Catch(_, b) => EndLoc(b)
    case DoCatch(_, _, _, cs) => EndLoc(cs[|cs| - 1])
    case If(_, _, t, e) => if e.Some? then EndLoc(e.value) else EndLoc(t)
    case Guard(_, b) => EndLoc(b)
    case While(_, _, b) => EndLoc(b)
    case RepeatWhile(_, _, _, e) => e
    case ForEach(_, _, b) => EndLoc(b)
    case Switch(_, _, _, _, rb) => rb
    case Case(_, _, _, _, b, _, _) => EndLoc(b)
    case Fallthrough(l) => l
    case Break(l, t) => if t.IsValid() then t else l
    case Continue(l, t) => if t.IsValid() then t else l
    case Fail(_, n) => n
    case OutOfLine(_, e) => e
  }

  function GetSourceRange(s: Stmt): SourceRange
    requires WellFormed(s)
  {
    SourceRange(StartLoc(s), EndLoc(s))
  }

  /**
   * The branch an `if` chain finishes with: the last `else` that is not
   * itself an `if`, or the `then` of the innermost `if` without an `else`.
   */
  function FinalBranch(s: Stmt): Stmt
    requires s.If?
    decreases s
  {
    match s.elseStmt
    case None => s.thenStmt
    case Some(e) => if e.If? then FinalBranch(e) else e
  }

  lemma {:induction false} FinalBranchWellFormed(s: Stmt)
    requires s.If? && WellFormed(s)
    ensures WellFormed(FinalBranch(s))
    decreases s
  {
    if s.elseStmt.Some? && s.elseStmt.value.If? {
      FinalBranchWellFormed(s.elseStmt.value);
    }
  }

  /** An `if` / `else if` chain ends where its final branch ends. */
  lemma {:induction false} IfChainEnd(s: Stmt)
    requires s.If? && WellFormed(s)
    ensures WellFormed(FinalBranch(s)) && EndLoc(s) == EndLoc(FinalBranch(s))
    decreases s
  {
    FinalBranchWellFormed(s);
    if s.elseStmt.Some? && s.elseStmt.value.If? {
      IfChainEnd(s.elseStmt.value);
    }
  }

  /** A do-catch ends where its last catch clause's body ends. */
  lemma DoCatchEnd(s: Stmt)
    requires s.DoCatch? && WellFormed(s) && s.catches[|s.catches| - 1].Catch?
    ensures WellFormed(s.catches[|s.catches| - 1].body)
    ensures EndLoc(s) == EndLoc(s.catches[|s.catches| - 1].body)
  {
    assert WellFormed(s.catches[|s.catches| - 1]);
  }

  /** `CaseStmt::getLabelItemsRange`: from `case` to the colon when there is one, else the whole case. */
  function LabelItemsRange(s: Stmt): (r: SourceRange)
    requires s.Case? && WellFormed(s)
    ensures s.colonLoc.IsValid() ==> r == SourceRange(s.caseLoc, s.colonLoc)
    ensures !s.colonLoc.IsValid() ==> r == GetSourceRange(s)
  {
    if s.colonLoc.IsValid() then SourceRange(s.caseLoc, s.colonLoc) else GetSourceRange(s)
  }

  predicate HasUnknownAttr(s: Stmt)
    requires s.Case?
  {
    s.unknownAttrLoc.IsValid()
  }

  /** A case starts at its @unknown attribute exactly when it has one, and at `case` otherwise. */
  lemma CaseStart(s: Stmt)
    requires s.Case?
    ensures HasUnknownAttr(s) ==> StartLoc(s) == s.unknownAttrLoc
    ensures !HasUnknownAttr(s) ==> StartLoc(s) == s.caseLoc
  {
  }

  /** `hasBoundDecls` / `hasCaseBodyVariables`. */
  predicate HasCaseBodyVariables(s: Stmt)
    requires s.Case?
  {
    s.caseBodyVariables.Some?
  }

  /** `getCaseBodyVariablesOrEmptyArray`: never fails; empty when none were recorded. */
  function CaseBodyVariablesOrEmpty(s: Stmt): (vs: seq<nat>)
    requires s.Case?
    ensures !HasCaseBodyVariables(s) ==> vs == []
    ensures HasCaseBodyVariables(s) ==> vs == s.caseBodyVariables.value
  {
    match s.caseBodyVariables
    case None => []
    case Some(vs) => vs
  }

  /** Trailing objects of a case: one slot per label item, and one fallthrough slot iff it has a fallthrough. */
  function NumTrailingFallthrough(s: Stmt): (n: nat)
    requires s.Case?
    ensures n <= 1
    ensures n == 1 <==> s.hasFallthrough
  {
    if s.hasFallthrough then 1 else 0
  }

  function NumTrailingLabelItems(s: Stmt): (n: nat)
    requires s.Case?
    ensures n == |s.labelItems|
  {
    |s.labelItems|
  }

  // ---------------------------------------------------------------------
  // Fallthrough links
  // ---------------------------------------------------------------------

  /** A fallthrough statement; cases are named by an identity. */
  class FallthroughStmt {
    const loc: SourceLoc
    var source: Option<nat>
    var dest: Option<nat>

    constructor (loc: SourceLoc)
      ensures this.loc == loc && source == None && dest == None
    {
      this.loc := loc;
      source := None;
      dest := None;
    }

    /** `getSourceRange`: the single keyword location. */
    function GetSourceRange(): SourceRange
      reads this
    {
      SourceRange(loc, loc)
    }

    /** Setting the source again would trip the header's assertion. */
    method SetFallthroughSource(c: nat)
      requires source.None?
      modifies this`source
      ensures source == Some(c)
    {
      source := Some(c);
    }

    /** The destination can be read only once semantic analysis has set it. */
    function GetFallthroughDest(): nat
      reads this
      requires dest.Some?
    {
      dest.value
    }

    method SetFallthroughDest(c: nat)
      requires dest.None?
      modifies this`dest
      ensures dest == Some(c) && GetFallthroughDest() == c
    {
      dest := Some(c);
    }
  }

  /**
   * `CaseStmt::getFallthroughDest`: null without a trailing fallthrough,
   * otherwise the destination recorded in it.
   */
  function CaseFallthroughDest(s: Stmt, trailing: FallthroughStmt?): (d: Option<nat>)
    reads trailing
    requires s.Case?
    requires s.hasFallthrough ==> trailing != null && trailing.dest.Some?
    ensures d.Some? <==> s.hasFallthrough
    ensures d.Some? ==> d.value == trailing.GetFallthroughDest()
  {
    if !s.hasFallthrough then None else Some(trailing.GetFallthroughDest())
  }
}
