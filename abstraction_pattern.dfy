/**
 * Abstraction patterns (include/polarphp/pil/lang/AbstractionPattern.h).
 *
 * A pattern is a kind (kept in a 4-bit field), 28 bits of kind-specific
 * "other data", an original type, one foreign pointer from a union (a Clang
 * type, an Objective-C method, a C++ method or the tuple elements), and a
 * generic signature. Types, signatures and foreign declarations are opaque
 * here: a type is an identity plus the few structural facts the header
 * inspects. The encoded foreign-error info packs an error-parameter index
 * and two flags into one unsigned 32-bit word, 0 meaning "no info".
 */
module AbstractionPattern {
  import opened Wrappers

  const TWO_32: int := 0x1_0000_0000
  type U32 = x: int | 0 <= x < 0x1_0000_0000

  /** NumOtherDataBits = 28; MaxOtherData = 2^28 - 1. */
  const NUM_OTHER_DATA_BITS: nat := 28
  const OTHER_DATA_LIMIT: nat := 0x1000_0000
  const MAX_OTHER_DATA: nat := OTHER_DATA_LIMIT - 1

  datatype Kind =
    | Type
    | Invalid
    | Opaque
    | Tuple
    | Discard
    | ClangType
    | CurriedObjCMethodType
    | PartialCurriedObjCMethodType
    | CFunctionAsMethodType
    | CurriedCFunctionAsMethodType
    | PartialCurriedCFunctionAsMethodType
    | ObjCMethodType
    | CXXMethodType
    | CurriedCXXMethodType
    | PartialCurriedCXXMethodType

  /** Position of a kind in the enumeration, as stored in the 4-bit TheKind field. */
  function KindIndex(k: Kind): nat
  {
    match k
    case Type => 0
    case Invalid => 1
    case Opaque => 2
    case Tuple => 3
    case Discard => 4
    case ClangType => 5
    case CurriedObjCMethodType => 6
    case PartialCurriedObjCMethodType => 7
    case CFunctionAsMethodType => 8
    case CurriedCFunctionAsMethodType => 9
    case PartialCurriedCFunctionAsMethodType => 10
    case ObjCMethodType => 11
    case CXXMethodType => 12
    case CurriedCXXMethodType => 13
    case PartialCurriedCXXMethodType => 14
  }

  /** `Kind(TheKind)`: reading the 4-bit field back. */
  function KindOfIndex(n: nat): Option<Kind>
  {
    if n == 0 then Some(Type) else if n == 1 then Some(Invalid)
    else if n == 2 then Some(Opaque) else if n == 3 then Some(Tuple)
    else if n == 4 then Some(Discard) else if n == 5 then Some(ClangType)
    else if n == 6 then Some(CurriedObjCMethodType)
    else if n == 7 then Some(PartialCurriedObjCMethodType)
    else if n == 8 then Some(CFunctionAsMethodType)
    else if n == 9 then Some(CurriedCFunctionAsMethodType)
    else if n == 10 then Some(PartialCurriedCFunctionAsMethodType)
    else if n == 11 then Some(ObjCMethodType)
    else if n == 12 then Some(CXXMethodType)
    else if n == 13 then Some(CurriedCXXMethodType)
    else if n == 14 then Some(PartialCurriedCXXMethodType)
    else None
  }

  /** Every kind fits the 32 - 28 = 4 bits of TheKind and reads back unchanged. */
  lemma KindFitsItsField(k: Kind)
    ensures KindIndex(k) < 16
    ensures KindOfIndex(KindIndex(k)) == Some(k)
  {
  }

  // ---------------------------------------------------------------------
  // EncodedForeignErrorInfo
  // ---------------------------------------------------------------------

  datatype ErrorInfo = ErrorInfo(value: U32)

  function BoolBit(b: bool): nat { if b then 1 else 0 }

  /** The default-constructed info: Value = 0. */
  function NoErrorInfo(): ErrorInfo { ErrorInfo(0) }

  /** `1 + strips + (replaced << 1) + (index << 2)` in unsigned 32-bit arithmetic. */
  function EncodeErrorInfo(index: U32, replaceParamWithVoid: bool, stripsResultOptionality: bool): (e: ErrorInfo)
    ensures 1 + BoolBit(stripsResultOptionality) + 2 * BoolBit(replaceParamWithVoid) + 4 * index < TWO_32 ==> e.value >= 1
  {
    ErrorInfo((1 + BoolBit(stripsResultOptionality) + 2 * BoolBit(replaceParamWithVoid) + 4 * index) % TWO_32)
  }

  predicate HasValue(e: ErrorInfo) { e.value != 0 }

  predicate HasErrorParameter(e: ErrorInfo) { HasValue(e) }

  predicate StripsResultOptionality(e: ErrorInfo)
    requires HasValue(e)
  {
    (e.value - 1) % 2 == 1
  }

  predicate IsErrorParameterReplacedWithVoid(e: ErrorInfo)
    requires HasValue(e)
  {
    ((e.value - 1) / 2) % 2 == 1
  }

  function ErrorParameterIndex(e: ErrorInfo): (i: U32)
    requires HasValue(e)
    ensures 4 * i < e.value
  {
    (e.value - 1) / 4
  }

  /** Has an error parameter that was not replaced with Void; defined for every info. */
  function HasUnreplacedErrorParameter(e: ErrorInfo): (r: bool)
    ensures r ==> HasErrorParameter(e)
    ensures HasValue(e) ==> (r <==> !IsErrorParameterReplacedWithVoid(e))
  {
    HasValue(e) && !IsErrorParameterReplacedWithVoid(e)
  }

  function OpaqueValue(e: ErrorInfo): U32 { e.value }

  function FromOpaqueValue(v: U32): (e: ErrorInfo)
    ensures OpaqueValue(e) == v
  {
    ErrorInfo(v)
  }

  /** The opaque representation is a bijection with the info. */
  lemma OpaqueRoundTrip(e: ErrorInfo)
    ensures FromOpaqueValue(OpaqueValue(e)) == e
  {
  }

  /** The default info has no value. */
  lemma NoErrorInfoIsEmpty()
    ensures !HasValue(NoErrorInfo()) && !HasUnreplacedErrorParameter(NoErrorInfo())
  {
  }

  /**
   * Encoding then decoding gives back the index and both flags, as long as
   * the packed word fits in 32 bits.
   */
  lemma {:induction false} ErrorInfoRoundTrip(index: U32, replaced: bool, strips: bool)
    requires 1 + BoolBit(strips) + 2 * BoolBit(replaced) + 4 * index < TWO_32
    ensures HasValue(EncodeErrorInfo(index, replaced, strips))
    ensures StripsResultOptionality(EncodeErrorInfo(index, replaced, strips)) == strips
    ensures IsErrorParameterReplacedWithVoid(EncodeErrorInfo(index, replaced, strips)) == replaced
    ensures ErrorParameterIndex(EncodeErrorInfo(index, replaced, strips)) == index
    ensures HasUnreplacedErrorParameter(EncodeErrorInfo(index, replaced, strips)) == !replaced
  {
    var e := EncodeErrorInfo(index, replaced, strips);
    var low := BoolBit(strips) + 2 * BoolBit(replaced);
    assert e.value - 1 == low + 4 * index;
    assert (low + 4 * index) / 4 == index;
    assert (low + 4 * index) % 2 == BoolBit(strips);
    assert (low + 4 * index) / 2 == BoolBit(replaced) + 2 * index;
  }

  /** Beyond that bound the word wraps: the largest index with both flags set encodes as "no info". */
  lemma EncodeOverflowLosesValue()
    ensures !HasValue(EncodeErrorInfo(0x3FFF_FFFF, true, true))
  {
  }

  // ---------------------------------------------------------------------
  // Patterns
  // ---------------------------------------------------------------------

  /** The structural facts about a canonical type that the header inspects. */
  datatype TypeShape = FunctionShape | TupleShape(arity: nat) | OtherShape
  datatype CanType = CanType(id: nat, shape: TypeShape, hasTypeParameter: bool)
  datatype GenericSig = GenericSig(id: nat)

  /** The union of foreign pointers; `NoStored` stands for a member never written. */
  datatype Stored =
    | NoStored
    | StoredClangType(clangType: nat)
    | StoredObjCMethod(objcMethod: nat)
    | StoredCXXMethod(cxxMethod: nat)
    | StoredTupleElements(elements: seq<Pattern>)

  datatype Pattern = Pattern(kind: Kind, otherData: nat, origType: Option<CanType>,
                             stored: Stored, genericSig: Option<GenericSig>)

  predicate HasStoredClangType(k: Kind)
  {
    k in {ClangType, CFunctionAsMethodType, CurriedCFunctionAsMethodType, PartialCurriedCFunctionAsMethodType}
  }

  predicate HasStoredCXXMethod(k: Kind)
  {
    k in {CXXMethodType, CurriedCXXMethodType, PartialCurriedCXXMethodType}
  }

  predicate HasStoredObjCMethod(k: Kind)
  {
    k in {CurriedObjCMethodType, PartialCurriedObjCMethodType, ObjCMethodType}
  }

  /** Only Objective-C method patterns carry foreign-error info. */
  function HasStoredForeignErrorInfo(k: Kind): (r: bool)
    ensures r <==> HasStoredObjCMethod(k)
  {
    HasStoredObjCMethod(k)
  }

  predicate HasImportAsMemberStatus(k: Kind)
  {
    k in {CFunctionAsMethodType, CurriedCFunctionAsMethodType, PartialCurriedCFunctionAsMethodType}
  }

  /** The kinds whose OrigType is valid, i.e. those `getType` accepts. */
  predicate HasType(k: Kind)
  {
    k !in {Invalid, Opaque, Tuple}
  }

  /**
   * `hasGenericSignature`: a signature can be asked for exactly of the
   * kinds that carry a type.
   */
  function HasGenericSignature(k: Kind): (r: bool)
    ensures r <==> HasType(k)
    ensures !r <==> k in {Invalid, Opaque, Tuple}
  {
    match k
    case Invalid => false
    case Opaque => false
    case Tuple => false
    case _ => true
  }

  /** `hasCachingKey`: only the plain Swift-type kinds; never a foreign or tuple pattern. */
  function HasCachingKey(k: Kind): (r: bool)
    ensures r ==> !HasStoredClangType(k) && !HasStoredObjCMethod(k) && !HasStoredCXXMethod(k)
    ensures r ==> k != Tuple && k != Invalid
  {
    k == Type || k == Opaque || k == Discard
  }

  predicate IsValid(p: Pattern) { p.kind != Invalid }

  /**
   * `isForeign`, which the source refuses to answer for Invalid: a pattern is
   * foreign exactly when the union holds a Clang type, an Objective-C method
   * or a C++ method.
   */
  function IsForeign(p: Pattern): (r: bool)
    requires IsValid(p)
    ensures r <==> HasStoredClangType(p.kind) || HasStoredObjCMethod(p.kind) || HasStoredCXXMethod(p.kind)
    ensures p.kind in {Opaque, Tuple, Type, Discard} ==> !r
  {
    match p.kind
    case Opaque => false
    case Tuple => false
    case Type => false
    case Discard => false
    case _ => true
  }

  predicate IsDiscarded(p: Pattern) { p.kind == Discard }
  predicate IsClangType(p: Pattern) { p.kind == ClangType }

  /** `isObjCMethod`: the two kinds for which `getObjCMethod` is legal, the partial one excluded. */
  function IsObjCMethod(p: Pattern): (r: bool)
    ensures r ==> HasStoredObjCMethod(p.kind)
    ensures r <==> HasStoredObjCMethod(p.kind) && p.kind != PartialCurriedObjCMethodType
  {
    p.kind == ObjCMethodType || p.kind == CurriedObjCMethodType
  }

  function IsCXXMethod(p: Pattern): (r: bool)
    ensures r ==> HasStoredCXXMethod(p.kind)
    ensures r <==> HasStoredCXXMethod(p.kind) && p.kind != PartialCurriedCXXMethodType
  {
    p.kind == CXXMethodType || p.kind == CurriedCXXMethodType
  }

  /** `getType`: the OrigType of any kind that has one. */
  function GetType(p: Pattern): CanType
    requires HasType(p.kind) && p.origType.Some?
  {
    p.origType.value
  }

  /** `getEncodedForeignErrorInfo`: the other data read back as an opaque info word. */
  function GetEncodedForeignErrorInfo(p: Pattern): ErrorInfo
    requires HasStoredForeignErrorInfo(p.kind) && p.otherData < OTHER_DATA_LIMIT
  {
    FromOpaqueValue(p.otherData)
  }

  /**
   * `hasForeignErrorStrippingResultOptionality`; the source treats Invalid
   * and Tuple as unreachable.
   */
  function HasForeignErrorStrippingResultOptionality(p: Pattern): (r: bool)
    requires p.kind != Invalid && p.kind != Tuple && p.otherData < OTHER_DATA_LIMIT
    ensures r ==> HasStoredObjCMethod(p.kind)
    ensures r ==> HasValue(GetEncodedForeignErrorInfo(p)) && StripsResultOptionality(GetEncodedForeignErrorInfo(p))
  {
    if HasStoredObjCMethod(p.kind) then
      var info := GetEncodedForeignErrorInfo(p);
      HasValue(info) && StripsResultOptionality(info)
    else false
  }

  /** `isExactType`: only a plain Type or Discard pattern can be the exact type. */
  function IsExactType(p: Pattern, t: CanType): (r: bool)
    requires IsValid(p) && (p.kind in {Type, Discard} ==> p.origType.Some?)
    ensures r ==> p.kind in {Type, Discard} && p.origType == Some(t)
    ensures p.kind in {Type, Discard} ==> (r <==> GetType(p) == t)
  {
    match p.kind
    case Type => GetType(p) == t
    case Discard => GetType(p) == t
    case _ => false
  }

  /** Kinds for which the tuple questions are answerable without the source's unreachable. */
  predicate TupleQueryable(p: Pattern)
  {
    IsValid(p) && (p.kind in {Type, Discard, ClangType} ==> p.origType.Some?)
  }

  function IsTuple(p: Pattern): (r: bool)
    requires TupleQueryable(p)
    ensures p.kind == Tuple ==> r
    ensures r ==> p.kind == Tuple || (p.kind in {Type, Discard, ClangType} && GetType(p).shape.TupleShape?)
  {
    match p.kind
    case Tuple => true
    case Type => GetType(p).shape.TupleShape?
    case Discard => GetType(p).shape.TupleShape?
    case ClangType => GetType(p).shape.TupleShape?
    case _ => false
  }

  /** `getNumTupleElements`: the stored count for an open-coded tuple, the type's arity otherwise. */
  function NumTupleElements(p: Pattern): (n: nat)
    requires TupleQueryable(p) && IsTuple(p)
    ensures p.kind == Tuple ==> n == p.otherData
    ensures p.kind != Tuple ==> n == GetType(p).shape.arity
  {
    if p.kind == Tuple then p.otherData else GetType(p).shape.arity
  }

  // ---------------------------------------------------------------------
  // Construction: the init helpers assign the fields in turn
  // ---------------------------------------------------------------------

  /** The storage of a default-constructed pattern; every factory overwrites the kind. */
  function Blank(): Pattern
  {
    Pattern(Invalid, 0, None, NoStored, None)
  }

  /** Assigning an unsigned to the 28-bit OtherData bitfield keeps its low 28 bits. */
  function ToOtherData(v: nat): (d: nat)
    ensures d < OTHER_DATA_LIMIT
    ensures v < OTHER_DATA_LIMIT ==> d == v
  {
    v % OTHER_DATA_LIMIT
  }

  /** `initSwiftType`: the signature is kept only when the type mentions a type parameter. */
  function InitSwiftType(p: Pattern, sig: Option<GenericSig>, t: CanType, kind: Kind): (q: Pattern)
    requires sig.Some? || !t.hasTypeParameter
    ensures q.kind == kind && q.origType == Some(t)
    ensures q.genericSig.Some? ==> q.genericSig == sig && t.hasTypeParameter
    ensures t.hasTypeParameter ==> q.genericSig == sig
    ensures q.otherData == p.otherData && q.stored == p.stored
  {
    p.(kind := kind, origType := Some(t), genericSig := if t.hasTypeParameter then sig else None)
  }

  function InitClangType(p: Pattern, sig: Option<GenericSig>, t: CanType, clangType: nat, kind: Kind): (q: Pattern)
    requires sig.Some? || !t.hasTypeParameter
    ensures q.kind == kind && q.origType == Some(t) && q.stored == StoredClangType(clangType)
    ensures q.otherData == p.otherData
  {
    InitSwiftType(p, sig, t, kind).(stored := StoredClangType(clangType))
  }

  function InitObjCMethod(p: Pattern, sig: Option<GenericSig>, t: CanType, m: nat, kind: Kind, info: ErrorInfo): (q: Pattern)
    requires sig.Some? || !t.hasTypeParameter
    ensures q.kind == kind && q.origType == Some(t) && q.stored == StoredObjCMethod(m)
    ensures q.otherData < OTHER_DATA_LIMIT
    ensures OpaqueValue(info) < OTHER_DATA_LIMIT ==> q.otherData == OpaqueValue(info)
  {
    InitSwiftType(p, sig, t, kind).(stored := StoredObjCMethod(m), otherData := ToOtherData(OpaqueValue(info)))
  }

  function InitCFunctionAsMethod(p: Pattern, sig: Option<GenericSig>, t: CanType, clangType: nat, kind: Kind, memberStatus: U32): (q: Pattern)
    requires sig.Some? || !t.hasTypeParameter
    ensures q.kind == kind && q.origType == Some(t) && q.stored == StoredClangType(clangType)
    ensures memberStatus < OTHER_DATA_LIMIT ==> q.otherData == memberStatus
  {
    InitClangType(p, sig, t, clangType, kind).(otherData := ToOtherData(memberStatus))
  }

  function InitCXXMethod(p: Pattern, sig: Option<GenericSig>, t: CanType, m: nat, kind: Kind): (q: Pattern)
    requires sig.Some? || !t.hasTypeParameter
    ensures q.kind == kind && q.origType == Some(t) && q.stored == StoredCXXMethod(m)
  {
    InitSwiftType(p, sig, t, kind).(stored := StoredCXXMethod(m))
  }

  /**
   * What the Kind documentation promises of a constructed pattern: OrigType
   * is valid exactly for the kinds with a type, the union holds the member
   * that goes with the kind, tuples record their element count, and a
   * generic signature is kept only for a type with type parameters.
   */
  predicate WellFormed(p: Pattern)
  {
    && (p.origType.Some? <==> HasType(p.kind))
    && (HasStoredClangType(p.kind) <==> p.stored.StoredClangType?)
    && (HasStoredObjCMethod(p.kind) <==> p.stored.StoredObjCMethod?)
    && (HasStoredCXXMethod(p.kind) <==> p.stored.StoredCXXMethod?)
    && (p.kind == Tuple <==> p.stored.StoredTupleElements?)
    && (p.kind == Tuple ==> p.otherData == ToOtherData(|p.stored.elements|))
    && (p.genericSig.Some? ==> p.origType.Some? && p.origType.value.hasTypeParameter)
    && p.otherData < OTHER_DATA_LIMIT
  }

  function GetOpaque(): (p: Pattern)
    ensures WellFormed(p) && IsValid(p) && !IsForeign(p) && HasCachingKey(p.kind)
  {
    Blank().(kind := Opaque)
  }

  function GetInvalid(): (p: Pattern)
    ensures WellFormed(p) && !IsValid(p) && !HasGenericSignature(p.kind)
  {
    Blank().(kind := Invalid)
  }

  /** `AbstractionPattern(signature, origType)`. */
  function FromType(sig: Option<GenericSig>, t: CanType): (p: Pattern)
    requires sig.Some? || !t.hasTypeParameter
    ensures WellFormed(p) && p.kind == Type && GetType(p) == t && !IsForeign(p) && IsExactType(p, t)
  {
    InitSwiftType(Blank(), sig, t, Type)
  }

  /** `AbstractionPattern(signature, origType, clangType)`. */
  function FromClangType(sig: Option<GenericSig>, t: CanType, clangType: nat): (p: Pattern)
    requires sig.Some? || !t.hasTypeParameter
    ensures WellFormed(p) && IsClangType(p) && IsForeign(p) && GetType(p) == t && !IsExactType(p, t)
  {
    InitClangType(Blank(), sig, t, clangType, ClangType)
  }

  function GetDiscard(sig: Option<GenericSig>, t: CanType): (p: Pattern)
    requires sig.Some? || !t.hasTypeParameter
    ensures WellFormed(p) && IsDiscarded(p) && GetType(p) == t && HasCachingKey(p.kind)
  {
    InitSwiftType(Blank(), sig, t, Discard)
  }

  /**
   * `getTuple`: a Tuple pattern over the elements; OtherData receives the
   * element count truncated to 28 bits.
   */
  function GetTuple(elements: seq<Pattern>): (p: Pattern)
    ensures WellFormed(p) && p.kind == Tuple && p.stored == StoredTupleElements(elements)
    ensures IsTuple(p) && NumTupleElements(p) == |elements| % OTHER_DATA_LIMIT
  {
    Blank().(kind := Tuple, otherData := ToOtherData(|elements|), stored := StoredTupleElements(elements))
  }

  /** The element count of a tuple pattern survives exactly when it fits the 28-bit field. */
  lemma TupleCountRoundTrip(elements: seq<Pattern>)
    ensures NumTupleElements(GetTuple(elements)) == |elements| <==> |elements| <= MAX_OTHER_DATA
  {
  }

  /** The C-function-as-method factories; `kind` is one of the three C-function kinds. */
  function GetCFunctionAsMethodKind(kind: Kind, sig: Option<GenericSig>, t: CanType, clangType: nat, memberStatus: U32): (p: Pattern)
    requires HasImportAsMemberStatus(kind) && t.shape == FunctionShape
    requires sig.Some? || !t.hasTypeParameter
    ensures WellFormed(p) && p.kind == kind && IsForeign(p) && !IsTuple(p)
    ensures memberStatus < OTHER_DATA_LIMIT ==> p.otherData == memberStatus
  {
    InitCFunctionAsMethod(Blank(), sig, t, clangType, kind, memberStatus)
  }

  /** The C++ method factories; `kind` is one of the three C++ kinds. */
  function GetCXXMethodKind(kind: Kind, sig: Option<GenericSig>, t: CanType, decl: nat): (p: Pattern)
    requires HasStoredCXXMethod(kind) && t.shape == FunctionShape
    requires sig.Some? || !t.hasTypeParameter
    ensures WellFormed(p) && p.kind == kind && IsForeign(p) && p.stored == StoredCXXMethod(decl)
    ensures IsCXXMethod(p) <==> kind != PartialCurriedCXXMethodType
  {
    InitCXXMethod(Blank(), sig, t, decl, kind)
  }

  /** The Objective-C method factories taking an already encoded error info. */
  function GetObjCMethodKind(kind: Kind, sig: Option<GenericSig>, t: CanType, decl: nat, info: ErrorInfo): (p: Pattern)
    requires HasStoredObjCMethod(kind) && t.shape == FunctionShape
    requires sig.Some? || !t.hasTypeParameter
    ensures WellFormed(p) && p.kind == kind && IsForeign(p) && p.stored == StoredObjCMethod(decl)
    ensures HasStoredForeignErrorInfo(p.kind)
  {
    InitObjCMethod(Blank(), sig, t, decl, kind, info)
  }

  /**
   * The error info stored in an Objective-C method pattern reads back
   * unchanged exactly when its word fits the 28-bit OtherData field.
   */
  lemma ObjCErrorInfoRoundTrip(kind: Kind, sig: Option<GenericSig>, t: CanType, decl: nat, info: ErrorInfo)
    requires HasStoredObjCMethod(kind) && t.shape == FunctionShape
    requires sig.Some? || !t.hasTypeParameter
    ensures GetEncodedForeignErrorInfo(GetObjCMethodKind(kind, sig, t, decl, info)) == info
            <==> OpaqueValue(info) <= MAX_OTHER_DATA
  {
  }

  /**
   * End to end: an Objective-C pattern built from an encoded (index, replaced,
   * strips) reports `strips` from `hasForeignErrorStrippingResultOptionality`,
   * provided the word fits in 28 bits.
   */
  lemma {:induction false} ObjCStripsRoundTrip(kind: Kind, t: CanType, decl: nat, index: U32, replaced: bool, strips: bool)
    requires HasStoredObjCMethod(kind) && t.shape == FunctionShape && !t.hasTypeParameter
    requires 1 + BoolBit(strips) + 2 * BoolBit(replaced) + 4 * index <= MAX_OTHER_DATA
    ensures HasForeignErrorStrippingResultOptionality(GetObjCMethodKind(kind, None, t, decl, EncodeErrorInfo(index, replaced, strips))) == strips
  {
    var info := EncodeErrorInfo(index, replaced, strips);
    ErrorInfoRoundTrip(index, replaced, strips);
    ObjCErrorInfoRoundTrip(kind, None, t, decl, info);
  }

  /**
   * `rewriteType`: replaces the type and recomputes the signature, leaving
   * the kind, the other data and the union untouched. The structural-match
   * check of the source (`hasSameBasicTypeStructure`, not shown) is stood in
   * for by equal shapes.
   */
  function RewriteType(p: Pattern, sig: Option<GenericSig>, t: CanType): (q: Pattern)
    requires HasType(p.kind) && p.origType.Some?
    requires sig.Some? || !t.hasTypeParameter
    requires p.origType.value.shape == t.shape
    ensures q.kind == p.kind && q.otherData == p.otherData && q.stored == p.stored
    ensures q.origType == Some(t) && GetType(q) == t
    ensures WellFormed(p) ==> WellFormed(q)
  {
    p.(genericSig := if t.hasTypeParameter then sig else None, origType := Some(t))
  }

  /** For a well-formed pattern a signature can be asked for exactly when it stores a type. */
  lemma GenericSignatureIffType(p: Pattern)
    requires WellFormed(p)
    ensures HasGenericSignature(p.kind) <==> p.origType.Some?
  {
  }
}
