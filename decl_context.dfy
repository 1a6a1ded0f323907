/**
 * Declaration contexts (include/polarphp/ast/DeclContext.h).
 *
 * A context stores its parent pointer together with the AST hierarchy its
 * kind belongs to; every context except a module has a parent, so the
 * parent links form a chain that ends at a module. The chain is recorded in
 * a ghost sequence so that walking it provably terminates. An iterable
 * context keeps a 2-bit lazy-member word and, once deserialized, its 31-bit
 * declaration ID.
 */
module DeclContext {
  datatype DeclContextKind =
    | AbstractClosureExpr
    | Initializer
    | TopLevelCodeDecl
    | SubscriptDecl
    | EnumElementDecl
    | AbstractFunctionDecl
    | SerializedLocal
    | Module
    | FileUnit
    | GenericTypeDecl
    | ExtensionDecl

  /** Position in the enumeration; Last_LocalDeclContextKind is SerializedLocal. */
  function KindIndex(k: DeclContextKind): nat
  {
    match k
    case AbstractClosureExpr => 0
    case Initializer => 1
    case TopLevelCodeDecl => 2
    case SubscriptDecl => 3
    case EnumElementDecl => 4
    case AbstractFunctionDecl => 5
    case SerializedLocal => 6
    case Module => 7
    case FileUnit => 8
    case GenericTypeDecl => 9
    case ExtensionDecl => 10
  }

  datatype AstHierarchy = Decl | Expr | FileUnitHierarchy | InitializerHierarchy | SerializedLocalHierarchy

  function HierarchyIndex(h: AstHierarchy): nat
  {
    match h
    case Decl => 0
    case Expr => 1
    case FileUnitHierarchy => 2
    case InitializerHierarchy => 3
    case SerializedLocalHierarchy => 4
  }

  /** The hierarchy tag fits the 3 spare low bits of the parent pointer. */
  lemma HierarchyFitsPointerBits(h: AstHierarchy)
    ensures HierarchyIndex(h) < 8
  {
  }

  /**
   * `isLocalContext`: the kinds up to SerializedLocal in enumeration order,
   * that is, closures, initializers, top-level code, subscripts, enum
   * elements, functions and serialized locals.
   */
  function IsLocalContext(k: DeclContextKind): (r: bool)
    ensures r <==> k in {AbstractClosureExpr, Initializer, TopLevelCodeDecl, SubscriptDecl,
                         EnumElementDecl, AbstractFunctionDecl, SerializedLocal}
    ensures !r <==> k in {Module, FileUnit, GenericTypeDecl, ExtensionDecl}
  {
    KindIndex(k) <= KindIndex(SerializedLocal)
  }

  /**
   * `getAstHierarchyFromKind`: closures are expressions, initializers,
   * serialized locals and file units have hierarchies of their own, and
   * every other kind is a declaration.
   */
  function HierarchyFromKind(k: DeclContextKind): (h: AstHierarchy)
    ensures k == AbstractClosureExpr <==> h == Expr
    ensures k == Initializer <==> h == InitializerHierarchy
    ensures k == SerializedLocal <==> h == SerializedLocalHierarchy
    ensures k == FileUnit <==> h == FileUnitHierarchy
  {
    match k
    case AbstractClosureExpr => Expr
    case Initializer => InitializerHierarchy
    case SerializedLocal => SerializedLocalHierarchy
    case FileUnit => FileUnitHierarchy
    case _ => Decl
  }

  /** Every context that is not a declaration or a file unit is a local context. */
  lemma {:induction false} NonDeclHierarchiesAreLocal(k: DeclContextKind)
    ensures HierarchyFromKind(k) != Decl && HierarchyFromKind(k) != FileUnitHierarchy ==> IsLocalContext(k)
    ensures !IsLocalContext(k) && k != FileUnit ==> HierarchyFromKind(k) == Decl
  {
    var h := HierarchyFromKind(k);
    if h != Decl && h != FileUnitHierarchy {
      assert k in {AbstractClosureExpr, Initializer, SerializedLocal};
    }
  }

  class DeclContext {
    /** The pointer half of `m_parentAndKind`. */
    var parent: DeclContext?
    /** The integer half of `m_parentAndKind`. */
    const hierarchy: AstHierarchy
    /** What `getContextKind` reports (its definition is out of line). */
    const kind: DeclContextKind
    /** This context followed by its ancestors, ending at a context with no parent. */
    ghost var chain: seq<DeclContext>

    ghost predicate Valid()
      reads this, chain
    {
      && |chain| >= 1
      && chain[0] == this
      && (forall i :: 0 <= i < |chain| - 1 ==> chain[i].parent == chain[i + 1])
      && chain[|chain| - 1].parent == null
    }

    /** `DeclContext(kind, parent)`: only a module may be created without a parent. */
    constructor (kind: DeclContextKind, parent: DeclContext?)
      requires kind != Module ==> parent != null
      requires parent != null ==> parent.Valid()
      ensures this.parent == parent && this.kind == kind
      ensures hierarchy == HierarchyFromKind(kind)
      ensures chain == [this] + (if parent == null then [] else parent.chain)
      ensures Valid()
    {
      this.parent := parent;
      this.kind := kind;
      this.hierarchy := HierarchyFromKind(kind);
      this.chain := [this] + (if parent == null then [] else parent.chain);
    }

    /** `getAsDecl`: the context itself, viewed as its declaration, when the hierarchy is Decl. */
    function GetAsDecl(): (d: DeclContext?)
      reads this
      ensures d != null <==> hierarchy == Decl
      ensures d != null ==> d == this
    {
      if hierarchy == Decl then this else null
    }

    function GetParent(): (p: DeclContext?)
      reads this, chain
      requires Valid()
      ensures p == null <==> |chain| == 1
      ensures p != null ==> p == chain[1]
    {
      assert |chain| > 1 ==> chain[0].parent == chain[1];
      parent
    }

    /**
     * `isChildContextOf`: irreflexive, and otherwise true exactly when
     * `other` is met while following parent links from this context.
     */
    method IsChildContextOf(other: DeclContext?) returns (r: bool)
      requires Valid()
      ensures r <==> other != this && other != null && other in chain
    {
      if this == other {
        return false;
      }
      var cur: DeclContext? := this;
      var i := 0;
      while cur != null
        invariant 0 <= i <= |chain|
        invariant cur == (if i < |chain| then chain[i] else null)
        invariant other !in chain[..i]
        decreases |chain| - i
      {
        if cur == other {
          return true;
        }
        cur := cur.parent;
        i := i + 1;
      }
      assert chain[..i] == chain;
      return false;
    }
  }

  /** DeclID is an unsigned embedded in 31 bits. */
  type DeclID = x: int | 0 <= x < 0x8000_0000

  /** Bit 0 of the lazy-member word: members will be produced lazily. */
  const PRESENT: bv2 := 1
  /** Bit 1 of the lazy-member word: lazy member loading is under way. */
  const IN_PROGRESS: bv2 := 2

  predicate HasLazyMembersBit(status: bv2) { status & PRESENT != 0 }
  predicate IsLoadingBit(status: bv2) { status & IN_PROGRESS != 0 }

  /**
   * The new lazy-member word after `setLoadingLazyMembers(inProgress)`: the
   * InProgress bit becomes `inProgress` and the Present bit is untouched.
   */
  function WithLoading(status: bv2, inProgress: bool): (r: bv2)
    ensures IsLoadingBit(r) == inProgress
    ensures HasLazyMembersBit(r) == HasLazyMembersBit(status)
  {
    if inProgress then status | IN_PROGRESS else status & !IN_PROGRESS
  }

  /** Setting the flag twice is the same as setting it once, and the last call wins. */
  lemma WithLoadingLastWins(status: bv2, a: bool, b: bool)
    ensures WithLoading(WithLoading(status, a), b) == WithLoading(status, b)
  {
  }

  datatype IterableDeclContextKind = NominalTypeDecl | ExtensionDeclContext

  class IterableDeclContext {
    /** The integer half of `m_firstDeclAndLazyMembers`. */
    var lazyMembers: bv2
    /** `m_serialID`. */
    var serialID: DeclID
    /** The integer half of `m_lastDeclAndKind`. */
    const iterableKind: IterableDeclContextKind
    /** What `wasDeserialized` reports (its definition is out of line). */
    const deserialized: bool

    constructor (kind: IterableDeclContextKind, deserialized: bool)
      ensures iterableKind == kind && this.deserialized == deserialized
      ensures lazyMembers == 0
      ensures !HasLazyMembers() && !IsLoadingLazyMembers()
    {
      iterableKind := kind;
      this.deserialized := deserialized;
      lazyMembers := 0;
      serialID := 0;
    }

    function GetIterableContextKind(): IterableDeclContextKind
      reads this
    {
      iterableKind
    }

    predicate HasLazyMembers()
      reads this
    {
      HasLazyMembersBit(lazyMembers)
    }

    predicate IsLoadingLazyMembers()
      reads this
    {
      IsLoadingBit(lazyMembers)
    }

    method SetLoadingLazyMembers(inProgress: bool)
      modifies this`lazyMembers
      ensures lazyMembers == WithLoading(old(lazyMembers), inProgress)
      ensures IsLoadingLazyMembers() == inProgress
      ensures HasLazyMembers() == old(HasLazyMembers())
    {
      var status := lazyMembers;
      if inProgress {
        status := status | IN_PROGRESS;
      } else {
        status := status & !IN_PROGRESS;
      }
      lazyMembers := status;
    }

    function GetDeclID(): DeclID
      reads this
      requires deserialized
    {
      serialID
    }

    method SetDeclID(d: DeclID)
      requires deserialized
      modifies this`serialID
      ensures GetDeclID() == d
      ensures lazyMembers == old(lazyMembers)
    {
      serialID := d;
    }
  }
}
