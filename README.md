# polarphp compiler cores, modelled in Dafny

This project models ten self-contained pieces of the polarphp compiler (a PHP
compiler built on a Swift-style SIL/AST infrastructure) and proves what their
headers and comments promise. There is one module per source file:

- `PilValue` (`pil_value.dfy`): value ownership kinds and the operand
  ownership-kind map.
  - The four `ValueOwnershipKind`s and their forwarding lifetime constraint.
  - The range `merge`, folded over any binary merge that obeys the
    documented "None merges with anything" rule.
  - `OperandOwnershipKindMap`, a class over its two-bits-per-kind bit vector.
- `PilUseLists` (`pil_use_lists.dfy`): the intrusive use-lists of IR values.
  - `ValueBase::FirstUse` and `Operand::TheValue/NextUse/Back/Owner` are maps
    from ids to ids, updated in place by the `UseLists` class.
  - A ghost map gives each value's list as a sequence.
  - The invariant `Linked` ties the pointer fields to that map.
- `ManagedValue` (`managed_value.dfy`): `ManagedValue` and
  `ConsumableManagedValue` as datatypes, with their named constructors,
  predicates, `unmanagedBorrow` and the consumption-kind rules.
  - `transform`, which empties its source, is a method on a one-field class.
- `AstScope` (`ast_scope.dfy`): the lexical scope tree.
  - Parents, children, node ranges, ignored-node ranges, lookup-parent
    diversions, expansion flags, ancestor counters and cached ranges are kept
    in a `ScopeTree` class indexed by scope id.
  - A scope's source range is its node's range widened by its ignored nodes
    and then by its children's ranges, defined recursively.
  - Generic-parameter lookup walks the lookup-parent chain.
- `Evaluator` (`evaluator.dfy`): the request evaluator.
  - An active-request stack, an internal cache, external caches and the
    dependency map.
  - A recursive reference definition `Spec` of what a request evaluates to.
- `DependencyGraph` (`dependency_graph.dfy`): a source file's fine-grained
  dependency graph, with memoised find-or-create, interface/implementation
  pairs and `verify`.
- `EpilogueArc` (`epilogue_arc.dfy`): the epilogue retain/release dataflow.
  - The phi-argument worklist.
  - The monotone AND-over-successors fixpoint.
  - Extraction of the epilogue instructions.
- `DeclContext` (`decl_context.dfy`): `DeclContext`'s parent chain and
  hierarchy table, and `IterableDeclContext`'s lazy-member flag word.
- `AbstractionPattern` (`abstraction_pattern.dfy`): the 32-bit
  `EncodedForeignErrorInfo` word, the 4-bit kind / 28-bit other-data layout,
  the kind predicates and the factories.
- `Stmt` (`stmt.dfy`): statement start and end locations, condition-element
  kinds, `CaseStmt` ranges and trailing-object counts, the set-once
  `FallthroughStmt` links, and the statement header bits.
- `SimpleDisplay` (`simple_display.dfy`): `simple_display` of trivial values
  and of tuples (see Findings).
- `Wrappers` (`wrappers.dfy`): `Option` and `Result`.

Pointers become ids or `Option`s.

- Compiler entities the code only passes along are abstract numbers: types,
  Clang declarations, requests, cleanups, instructions.
- Predicates the code calls but does not show are booleans carried on the
  modelled data. Examples are `isInterestedInstruction` and
  `getContextKind`.
- Unsigned 32-bit arithmetic is written out as `% 2^32`.
- Bit fields are `bv` values or bounded integers.

## Model

| member | source | states |
|---|---|---|
| PilValue.ConstraintOfBit | include/polarphp/pil/lang/PILValue.h:69-83 | converting a bit to a `UseLifetimeConstraint` and back gives the bit again |
| PilValue.KindIndex | include/polarphp/pil/lang/PILValue.h:89-130 | every ownership kind's index is below the number of kinds |
| PilValue.KindOfIndex | include/polarphp/pil/lang/PILValue.h:141 | building a kind from an index in range gives back a kind with that index |
| PilValue.ForwardingLifetimeConstraint | include/polarphp/pil/lang/PILValue.h:170-180 | MustBeInvalidated exactly for Owned; MustBeLive exactly for None, Guaranteed and Unowned |
| PilValue.NoneIsCompatible | include/polarphp/pil/lang/PILValue.h:122-127 | under the documented None rule, None is compatible with every kind in both argument orders |
| PilValue.AccumulateAppend | include/polarphp/pil/lang/PILValue.h:191-201 | folding over `a + b` is folding over `b` from the result of folding over `a` |
| PilValue.AccumulateFailed | include/polarphp/pil/lang/PILValue.h:191-201 | once the accumulated merge has failed, the rest of the range cannot revive it |
| PilValue.RangeMergeShort | include/polarphp/pil/lang/PILValue.h:191-201 | the fold starts from None: an empty range merges to None, a one-element range to `merge(None, k)` |
| PilValue.RangeMergeSnoc | include/polarphp/pil/lang/PILValue.h:191-201 | merging a range extended by one kind is one more merge step on the shorter range's result |
| PilValue.RangeMergeFailureSticks | include/polarphp/pil/lang/PILValue.h:191-201 | if a prefix of the range fails to merge, the whole range fails |
| PilValue.MergeEqualOrNone | include/polarphp/pil/lang/PILValue.h:122-127 | a concrete binary merge: it succeeds exactly when one side is None or both are equal |
| PilValue.MergeEqualOrNoneKeepsNoneRule | include/polarphp/pil/lang/PILValue.h:122-127 | that concrete merge satisfies the documented None rule, so the rule can be met |
| PilValue.RangeMergeEqualOrNone | include/polarphp/pil/lang/PILValue.h:191-201 | with that merge, a range merges exactly when its non-None kinds agree; the result is None iff every element is None, otherwise the common kind |
| PilValue.AddBits | include/polarphp/pil/lang/PILValue.h:510-522 | adding kind k records k with constraint c and leaves every other kind's entry unchanged |
| PilValue.OperandOwnershipKindMap.constructor | include/polarphp/pil/lang/PILValue.h:448 | the default map accepts no kind |
| PilValue.OperandOwnershipKindMap.WithKind | include/polarphp/pil/lang/PILValue.h:449-453 | the single-kind map accepts exactly that kind, with the given constraint |
| PilValue.OperandOwnershipKindMap.Add | include/polarphp/pil/lang/PILValue.h:510-522 | requires that k is not already present with a different constraint; afterwards k maps to c and nothing else changes |
| PilValue.OperandOwnershipKindMap.AddCompatibilityConstraint | include/polarphp/pil/lang/PILValue.h:525-529 | adds the kind with its constraint and always also accepts None as MustBeLive |
| PilValue.OperandOwnershipKindMap.CanAcceptKind | include/polarphp/pil/lang/PILValue.h:531-535 | true iff the kind's present bit is set |
| PilValue.OperandOwnershipKindMap.GetLifetimeConstraint | include/polarphp/pil/lang/PILValue.h:550-562 | for an accepted kind, returns the constraint stored for it |
| PilValue.CompatibilityMap | include/polarphp/pil/lang/PILValue.h:458-463 | the fresh map accepts the kind with its constraint and None as MustBeLive, and nothing else |
| PilValue.CompatibleWithAllExcept | include/polarphp/pil/lang/PILValue.h:467-479 | the fresh map accepts every kind except the given one, all as MustBeLive |
| PilValue.CompatibilityMapList | include/polarphp/pil/lang/PILValue.h:483-492 | every listed kind has its constraint, None is MustBeLive when the list is non-empty, and unlisted kinds are absent |
| PilValue.AllLive | include/polarphp/pil/lang/PILValue.h:496-504 | all four kinds are accepted as MustBeLive |
| PilUseLists.UsesAreHolders | include/polarphp/pil/lang/PILValue.h:566-581 | under the link invariant, an operand is on a value's use-list iff it holds that value |
| PilUseLists.NullValueOnNoList | include/polarphp/pil/lang/PILValue.h:615-621 | an operand holding the null value is on no use-list |
| PilUseLists.ValueOfPlacedIsLive | include/polarphp/pil/lang/PILValue.h:221-229 | the value an operand holds is a live value |
| PilUseLists.RemovedLinked | include/polarphp/pil/lang/PILValue.h:651-655 | unlinking an operand keeps every other list linked and takes exactly that operand out of its list |
| PilUseLists.InsertedLinked | include/polarphp/pil/lang/PILValue.h:657-662 | linking an unlinked operand puts it at the head of its value's list and keeps every list linked |
| PilUseLists.UseLists.constructor | include/polarphp/pil/lang/PILValue.h:221-224 | an empty arena of values and operands is linked |
| PilUseLists.UseLists.UseEmpty | include/polarphp/pil/lang/PILValue.h:255 | true iff the value's use-list is empty |
| PilUseLists.UseLists.HasOneUse | include/polarphp/pil/lang/PILValue.h:723-727 | true iff the use-list has exactly one element |
| PilUseLists.UseLists.GetSingleUse | include/polarphp/pil/lang/PILValue.h:728-744 | an operand exactly when the list has one element, and then it is that element |
| PilUseLists.UseLists.CollectUses | include/polarphp/pil/lang/PILValue.h:693-722 | walking `NextUse` from `FirstUse` visits the value's use-list in order |
| PilUseLists.UseLists.AddValue | include/polarphp/pil/lang/PILValue.h:221-224 | a new value starts with an empty use-list; nothing else changes |
| PilUseLists.UseLists.DestroyValue | include/polarphp/pil/lang/PILValue.h:227-229 | only a value with no uses may be destroyed; its list disappears and nothing else changes |
| PilUseLists.UseLists.AddOperand | include/polarphp/pil/lang/PILValue.h:584-588 | a new operand of an owner holds null and is on no list |
| PilUseLists.UseLists.AddOperandWithValue | include/polarphp/pil/lang/PILValue.h:584-588 | a new operand holding a value is linked at the head of that value's list |
| PilUseLists.UseLists.RemoveFromCurrent | include/polarphp/pil/lang/PILValue.h:651-655 | the operand leaves its list, which otherwise keeps its order; this is a no-op when `Back` is null; the other lists stay linked |
| PilUseLists.UseLists.InsertIntoCurrent | include/polarphp/pil/lang/PILValue.h:657-662 | the operand becomes its value's `FirstUse` and the old head follows it |
| PilUseLists.UseLists.Set | include/polarphp/pil/lang/PILValue.h:599-605 | the operand leaves its old list and becomes the head of the new value's list; all other lists lose nothing |
| PilUseLists.UseLists.Swap | include/polarphp/pil/lang/PILValue.h:608-612 | the two operands exchange values and every other operand keeps its value |
| PilUseLists.UseLists.Drop | include/polarphp/pil/lang/PILValue.h:615-621 | value, links and owner become null, and the operand is on no list |
| PilUseLists.UseLists.DestroyOperand | include/polarphp/pil/lang/PILValue.h:623-625 | the destroyed operand is unlinked from its list first |
| PilUseLists.UseLists.Get | include/polarphp/pil/lang/PILValue.h:596 | the value held is one whose use-list contains the operand, or null and on no list |
| ManagedValue.ManagedValue.GetLValueAddress | include/polarphp/pil/gen/ManagedValue.h:231 | only for lvalues; returns the stored address |
| ManagedValue.ManagedValue.GetUnmanagedValue | include/polarphp/pil/gen/ManagedValue.h:236-239 | only without a cleanup; returns the stored value |
| ManagedValue.Empty | include/polarphp/pil/gen/ManagedValue.h:71 | the default value converts to false and has no cleanup |
| ManagedValue.ForRValueWithCleanup | include/polarphp/pil/gen/ManagedValue.h:77-84 | a trivial object may not carry a cleanup; the result is a non-lvalue rvalue with the given value and cleanup |
| ManagedValue.ForUnmanaged | include/polarphp/pil/gen/ManagedValue.h:90 | a +0 rvalue without cleanup |
| ManagedValue.ForOwnedObjectRValue | include/polarphp/pil/gen/ManagedValue.h:96-106 | a non-trivial object rvalue that keeps the given cleanup |
| ManagedValue.ForOwnedAddressRValue | include/polarphp/pil/gen/ManagedValue.h:108-116 | an address rvalue that keeps the given cleanup |
| ManagedValue.ForOwnedRValue | include/polarphp/pil/gen/ManagedValue.h:118-123 | dispatches on address or object and keeps the cleanup |
| ManagedValue.ForBorrowedObjectRValue | include/polarphp/pil/gen/ManagedValue.h:125-133 | a +0 object rvalue without cleanup |
| ManagedValue.ForBorrowedAddressRValue | include/polarphp/pil/gen/ManagedValue.h:135-143 | a +0 address rvalue without cleanup |
| ManagedValue.ForBorrowedRValue | include/polarphp/pil/gen/ManagedValue.h:145-151 | dispatches on address or object; +0 without cleanup |
| ManagedValue.ForTrivialObjectRValue | include/polarphp/pil/gen/ManagedValue.h:153-158 | a trivial object is a +0 rvalue without cleanup |
| ManagedValue.ForTrivialAddressRValue | include/polarphp/pil/gen/ManagedValue.h:160-165 | a trivial address is a +0 rvalue without cleanup |
| ManagedValue.ForTrivialRValue | include/polarphp/pil/gen/ManagedValue.h:167-172 | dispatches on object or address; +0 without cleanup |
| ManagedValue.ForLValue | include/polarphp/pil/gen/ManagedValue.h:174-182 | only for addresses; an lvalue without cleanup whose address is the value |
| ManagedValue.ForInContext | include/polarphp/pil/gen/ManagedValue.h:184-186 | in-context, not an lvalue, no cleanup, and it converts to true |
| ManagedValue.UnmanagedBorrow | include/polarphp/pil/gen/ManagedValue.h:292-294 | an lvalue borrows as itself; anything else becomes a cleanup-free +0 rvalue with the same value |
| ManagedValue.FormsAreExclusive | include/polarphp/pil/gen/ManagedValue.h:188-193 | never both lvalue and in-context; converts to true iff lvalue, in-context or non-null |
| ManagedValue.PlusZeroCases | include/polarphp/pil/gen/ManagedValue.h:196-203 | plus-zero-or-trivial iff the flag is clear and there is no cleanup |
| ManagedValue.UnmanagedBorrowIdempotent | include/polarphp/pil/gen/ManagedValue.h:292-294 | borrowing twice is borrowing once |
| ManagedValue.ConstructorsFlagAndCleanup | include/polarphp/pil/gen/ManagedValue.h:90-186 | the unmanaged, borrowed, trivial and lvalue forms have no cleanup; only the lvalue and in-context forms set the flag |
| ManagedValue.ManagedValueSlot.constructor | include/polarphp/pil/gen/ManagedValue.h:65 | a slot holds the given managed value |
| ManagedValue.ManagedValueSlot.Transform | include/polarphp/pil/gen/ManagedValue.h:256-262 | requires equal ownership kinds; the result has the new value, the old flag and the old cleanup, and the source is reset to empty |
| ManagedValue.TransformWellFormed | include/polarphp/pil/gen/ManagedValue.h:256-262 | transforming a well-formed value gives a well-formed value |
| ManagedValue.ConsumableManagedValue.AsUnmanagedValue | include/polarphp/pil/gen/ManagedValue.h:419-423 | the same value as a +0 rvalue |
| ManagedValue.InvalidConsumable | include/polarphp/pil/gen/ManagedValue.h:369 | the default consumable is invalid |
| ManagedValue.MakeConsumable | include/polarphp/pil/gen/ManagedValue.h:372-382 | rejects BorrowAlways on addresses and CopyOnSuccess on objects; owned iff TakeAlways |
| ManagedValue.ConsumableForUnmanaged | include/polarphp/pil/gen/ManagedValue.h:384-388 | a valid, owned (TakeAlways), cleanup-free consumable |
| ManagedValue.ConsumableForOwned | include/polarphp/pil/gen/ManagedValue.h:390-393 | a valid, owned consumable of the given value |
| ManagedValue.AsBorrowedOperand | include/polarphp/pil/gen/ManagedValue.h:429-435 | CopyOnSuccess of the unmanaged value for addresses, BorrowAlways of the borrowed value for objects; never owned |
| ManagedValue.ConsumablesFit | include/polarphp/pil/gen/ManagedValue.h:372-393 | TakeAlways fits every value; BorrowAlways fits exactly objects, CopyOnSuccess exactly addresses |
| AstScope.Hull | include/polarphp/ast/AstScope.h:284-293 | the widened range encloses both ranges and is the smallest that does |
| AstScope.WidenEncloses | include/polarphp/ast/AstScope.h:286-293 | widening over the children encloses the starting range and every remaining child's range |
| AstScope.ChildWithinParent | include/polarphp/ast/AstScope.h:124-133 | every child's source range is enclosed in its parent's, and so is the parent's own node range |
| AstScope.LazyExpansionKeepsRange | include/polarphp/ast/AstScope.h:396-407 | an unexpanded scope has no children; if the children its expansion creates lie within its own range, its range after expansion equals its range before |
| AstScope.AncestorEncloses | include/polarphp/ast/AstScope.h:124-133 | a scope's range encloses the range of every descendant, not only of its children |
| AstScope.WidenForIgnored | include/polarphp/ast/AstScope.h:284 | the result is the smallest range enclosing both the range and the ignored-node range, when that range is valid |
| AstScope.WidenOwnFacts | include/polarphp/ast/AstScope.h:295-307 | widening a scope's own range moves only its own and its ancestors' ranges, and all of those come to enclose the widened range |
| AstScope.FrameBelow | include/polarphp/ast/AstScope.h:300-307 | changing the children of p changes no range or descendant count outside p's ancestors, so only those caches need clearing |
| AstScope.CountGrows | include/polarphp/ast/AstScope.h:270-274 | when children lists only grow, no scope's descendant count shrinks |
| AstScope.LookupPath | include/polarphp/ast/AstScope.h:468-495 | the lookup history never climbs above the starting scope |
| AstScope.LookupPathShape | include/polarphp/ast/AstScope.h:468-495 | history starts at the start scope, follows lookup parents, never enters the limit, and stops at a done scope, a root or the limit |
| AstScope.SearchedListsNoRepeat | include/polarphp/ast/AstScope.h:468-495 | a generic list is never searched twice in a row nor right after `lastListSearched`, and each searched list belongs to a visited scope |
| AstScope.ScopeTree.constructor | include/polarphp/ast/AstScope.h:124-133 | an empty tree |
| AstScope.ScopeTree.NewScope | include/polarphp/ast/AstScope.h:160-183 | a new root scope: not expanded, count 0, nothing cached, no children, no ignored nodes; its range is its node's range, and no existing range changes |
| AstScope.ScopeTree.ParentIfNotChildOfTopScope | include/polarphp/ast/AstScope.h:523-526 | the parent exactly when that parent itself has a parent |
| AstScope.ScopeTree.GetLookupParent | include/polarphp/ast/AstScope.h:531-533 | the tree parent for ordinary scopes; the stored lookup parent for a diversion scope; always an earlier scope |
| AstScope.ScopeTree.LookupParents | include/polarphp/ast/AstScope.h:1753-1770 | the lookup parent of every scope, each earlier than the scope |
| AstScope.ScopeTree.SetWasExpanded | include/polarphp/ast/AstScope.h:383 | sets the flag to true and changes nothing else |
| AstScope.ScopeTree.IncreaseAstAncestorScopeCount | include/polarphp/ast/AstScope.h:382 | adds c modulo 2^32, which is a plain add without overflow; nothing else changes |
| AstScope.ScopeTree.ResetAstAncestorScopeCount | include/polarphp/ast/AstScope.h:381 | sets the count to 0; nothing else changes |
| AstScope.ScopeTree.ClearCachedSourceRangesOfMeAndAncestors | include/polarphp/ast/AstScope.h:301 | the cache is cleared exactly on the scope and its ancestors |
| AstScope.ScopeTree.AddChild | include/polarphp/ast/AstScope.h:165-167 | appends the child and sets its parent; ranges and caches outside the parent's ancestors are unchanged; counts never shrink and the parent gains the child's subtree; sorted children stay sorted when the child comes last |
| AstScope.ScopeTree.DisownChildren | include/polarphp/ast/AstScope.h:217-220 | empties the children and orphans them; the parent's range falls back to its own; nothing outside its ancestors changes |
| AstScope.ScopeTree.GetSourceRangeOfScope | include/polarphp/ast/AstScope.h:254-261 | returns the scope's range, which encloses its node's range, its ignored nodes' range and every child's range, and caches it; the tree invariant says any cached range is that same range |
| AstScope.ScopeTree.WidenSourceRangeForIgnoredAstNode | include/polarphp/ast/AstScope.h:181-183 | the ignored node joins the ignored-node range; the scope and every ancestor now enclose it and lose their cached ranges; every other scope keeps its range and cache |
| AstScope.ScopeTree.Lookup | include/polarphp/ast/AstScope.h:468-495 | the history and searched lists are those of the lookup-path specification |
| AstScope.LookupWalk | include/polarphp/ast/AstScope.h:468-495 | the iterative walk equals the recursive lookup path and its searched lists |
| AstScope.AddChildCount | include/polarphp/ast/AstScope.h:270-274 | adding a child adds 1 plus the child's descendants to the parent's count |
| AstScope.AddChildSorted | include/polarphp/ast/AstScope.h:165-167 | appending a child that starts after the last child keeps the children sorted by range |
| Evaluator.OrDefault | include/polarphp/ast/Evaluator.h:108-122 | the default on an error, the value otherwise |
| Evaluator.SpecDependsOnReachable | include/polarphp/ast/Evaluator.h:344-350 | a request's outcome depends on the active stack only through requests it can reach |
| Evaluator.OutcomeIndependentOfStack | include/polarphp/ast/Evaluator.h:267-285 | if nothing reachable is active, the outcome is the one from an empty stack |
| Evaluator.Evaluator.constructor | include/polarphp/ast/Evaluator.h:213-231 | empty stack, caches and dependencies |
| Evaluator.Evaluator.ClearCache | include/polarphp/ast/Evaluator.h:316-320 | empties the internal cache only |
| Evaluator.Evaluator.CacheOutput | include/polarphp/ast/Evaluator.h:300-314 | stores in the external cache when the request has one; otherwise inserts into the internal cache without overwriting |
| Evaluator.Evaluator.Evaluate | include/polarphp/ast/Evaluator.h:267-285 | an active request yields CyclicalRequest and touches no cache; otherwise the request is pushed and popped, dependencies recorded, and with caching off the outcome equals `Spec` |
| Evaluator.Evaluator.EvaluateOrDefault | include/polarphp/ast/Evaluator.h:108-122 | the default on a cycle; otherwise `OrDefault` of the specified outcome |
| Evaluator.Evaluator.GetResult | include/polarphp/ast/Evaluator.h:354-374 | uncached requests never read or write a cache; the outcome is the request function on its subrequests' outcomes |
| Evaluator.Evaluator.GetResultCached | include/polarphp/ast/Evaluator.h:396-438 | a hit returns the stored value; a miss computes and stores only on success |
| Evaluator.Evaluator.GetResultUncached | include/polarphp/ast/Evaluator.h:377-391 | replaces the recorded dependencies with the subrequests and combines their outcomes, leaving caches alone |
| DependencyGraph.VerifySame | src/ast/FineGrainedDependencies.cpp:252-261 | true iff equal node counts and pointwise-equal nodes |
| DependencyGraph.SourceFileDepGraph.constructor | src/ast/FineGrainedDependencies.cpp:40-47 | an empty graph |
| DependencyGraph.SourceFileDepGraph.GetNode | src/ast/FineGrainedDependencies.cpp:40-47 | requires an index in range; the node there has that sequence number |
| DependencyGraph.SourceFileDepGraph.GetSourceFileNodePair | src/ast/FineGrainedDependencies.cpp:49-57 | requires nodes 0 and 1 to be source-file provides; returns them |
| DependencyGraph.SourceFileDepGraph.AddNode | src/ast/FineGrainedDependencies.cpp:96-102 | appends a node numbered by its position and memoises its key |
| DependencyGraph.SourceFileDepGraph.FindExistingNodeOrCreateIfNew | src/ast/FineGrainedDependencies.cpp:93-109 | the node for an existing key, or a new node appended; the key always matches; `isProvides` is sticky; other nodes unchanged |
| DependencyGraph.SourceFileDepGraph.SetIsProvides | src/ast/FineGrainedDependencies.cpp:103-106 | marks exactly that node as provides |
| DependencyGraph.SourceFileDepGraph.AddArc | src/ast/FineGrainedDependencies.cpp:88-89 | records the def in the use's set of defs depended upon |
| DependencyGraph.SourceFileDepGraph.FindExistingNodePairOrCreateAndAddIfNew | src/ast/FineGrainedDependencies.cpp:77-109 | interface and implementation nodes with the same kind, context and name, both provides, the implementation depending on the interface; an existing key keeps its index, fingerprint and arcs, a missing one gets a new node at the end; no other node and no other memo entry changes |
| DependencyGraph.SourceFileDepGraph.Verify | src/ast/FineGrainedDependencies.cpp:119-147 | true iff numbers match positions, keys are unique and verify, and no node depends on itself |
| DependencyGraph.SourceFileDepGraph.ValidPassesVerify | src/ast/FineGrainedDependencies.cpp:189-193 | every graph built through these operations passes `verify`, external dependencies included |
| EpilogueArc.FirstFromEndMeaning | src/pil/optimizer/analysis/EpilogueARCAnalysis.cpp:81-97 | the reverse scan stops at the last interested or blocking instruction, interested taking precedence; Neither means no such instruction |
| EpilogueArc.CountTrueGrows | src/pil/optimizer/analysis/EpilogueARCAnalysis.cpp:57-105 | a state that only flips false to true never lowers the count of true blocks, and raises it when something flips |
| EpilogueArc.MergedOutMonotone | src/pil/optimizer/analysis/EpilogueARCAnalysis.cpp:64-77 | the AND over successors is monotone in the successors' states |
| EpilogueArc.UpdateKeepsJustified | src/pil/optimizer/analysis/EpilogueARCAnalysis.cpp:99-101 | a successful transfer only raises a block's state and keeps every true state backed by its successors |
| EpilogueArc.PassConverged | src/pil/optimizer/analysis/EpilogueARCAnalysis.cpp:103 | a pass that changes nothing leaves every block at its transfer of its merged out-state |
| EpilogueArc.EpilogueOnePerBlock | src/pil/optimizer/analysis/EpilogueARCAnalysis.cpp:144-154 | at most one instruction per block is recorded |
| EpilogueArc.JustifiedAlongPath | src/pil/optimizer/analysis/EpilogueARCAnalysis.cpp:64-101 | from a block whose state is true, every walk meets only true, instruction-free-of-interest blocks and ends successor-less only at an exit |
| EpilogueArc.EpilogueIsLast | src/pil/optimizer/analysis/EpilogueARCAnalysis.cpp:140-156 | a recorded instruction is interested, nothing after it in its block is interested or blocking, and no block on any later path is either |
| EpilogueArc.EpilogueArcContext.constructor | src/pil/optimizer/analysis/EpilogueARCAnalysis.cpp:24-32 | no state, no exits and no recorded instructions |
| EpilogueArc.EpilogueArcContext.InitializeDataflow | src/pil/optimizer/analysis/EpilogueARCAnalysis.cpp:24-55 | one false state per block; the interested exit blocks; the argument and every phi reached from it processed, with each predecessor's local argument set |
| EpilogueArc.EpilogueArcContext.CreateStates | src/pil/optimizer/analysis/EpilogueARCAnalysis.cpp:25-32 | exactly one default state per block, in post order, and the set of exiting blocks |
| EpilogueArc.EpilogueArcContext.SplitArgument | src/pil/optimizer/analysis/EpilogueARCAnalysis.cpp:33-54 | the worklist terminates; processed is closed under incoming phi values and each predecessor's local argument is one of its incoming values |
| EpilogueArc.EpilogueArcContext.MergeSuccessors | src/pil/optimizer/analysis/EpilogueARCAnalysis.cpp:64-77 | the AND of the successors' in-states, true for an exit without successors, false for other successor-less blocks |
| EpilogueArc.EpilogueArcContext.ScanBlock | src/pil/optimizer/analysis/EpilogueARCAnalysis.cpp:84-96 | the reverse instruction scan agrees with `FirstFromEnd` |
| EpilogueArc.EpilogueArcContext.ConvergeDataflow | src/pil/optimizer/analysis/EpilogueARCAnalysis.cpp:57-105 | terminates; true means a fixpoint was reached; false means some block's scan hit a blocking instruction; states only grow and stay justified |
| EpilogueArc.EpilogueArcContext.ComputeEpilogueArc | src/pil/optimizer/analysis/EpilogueARCAnalysis.cpp:107-157 | true iff every block's successors agree; records exactly the epilogue instructions of the blocks scanned before the first disagreement |
| DeclContext.HierarchyFitsPointerBits | include/polarphp/ast/DeclContext.h:182-194 | every hierarchy fits the three pointer tag bits |
| DeclContext.IsLocalContext | include/polarphp/ast/DeclContext.h:265-268 | local exactly for the kinds up to SerializedLocal in the enumeration |
| DeclContext.HierarchyFromKind | include/polarphp/ast/DeclContext.h:215-238 | closure to Expr, initializer, serialized-local and file-unit to their own hierarchies, every other kind to Decl |
| DeclContext.NonDeclHierarchiesAreLocal | include/polarphp/ast/DeclContext.h:92-107 | a non-Decl, non-file hierarchy is a local context; a non-local kind other than FileUnit is a Decl |
| DeclContext.DeclContext.constructor | include/polarphp/ast/DeclContext.h:252-257 | a non-Module context needs a parent; the hierarchy comes from the kind; the parent chain extends the parent's |
| DeclContext.DeclContext.GetAsDecl | include/polarphp/ast/DeclContext.h:241-245 | non-null iff the hierarchy is Decl |
| DeclContext.DeclContext.GetParent | include/polarphp/ast/DeclContext.h:402-407 | null iff this is the last context of its chain; otherwise the next one |
| DeclContext.DeclContext.IsChildContextOf | include/polarphp/ast/DeclContext.h:413-422 | false for itself; otherwise true iff the other context is on the parent chain |
| DeclContext.WithLoading | include/polarphp/ast/DeclContext.h:743-751 | the InProgress bit becomes the argument and the Present bit is unchanged |
| DeclContext.WithLoadingLastWins | include/polarphp/ast/DeclContext.h:743-751 | two updates in a row equal the last one |
| DeclContext.IterableDeclContext.constructor | include/polarphp/ast/DeclContext.h:710-712 | no lazy members and not loading |
| DeclContext.IterableDeclContext.SetLoadingLazyMembers | include/polarphp/ast/DeclContext.h:733-751 | `isLoadingLazyMembers` becomes the argument; `hasLazyMembers` is unchanged |
| DeclContext.IterableDeclContext.SetDeclID | include/polarphp/ast/DeclContext.h:767-778 | requires a deserialized context; afterwards `getDeclID` returns the id |
| AbstractionPattern.KindFitsItsField | include/polarphp/pil/lang/AbstractionPattern.h:255-269 | every kind fits the 4-bit field and reads back unchanged |
| AbstractionPattern.EncodeErrorInfo | include/polarphp/pil/lang/AbstractionPattern.h:215-221 | an encoded info that fits 32 bits has a value of at least 1 |
| AbstractionPattern.ErrorParameterIndex | include/polarphp/pil/lang/AbstractionPattern.h:242-245 | the decoded index is below a quarter of the word |
| AbstractionPattern.HasUnreplacedErrorParameter | include/polarphp/pil/lang/AbstractionPattern.h:228-230 | true iff there is a value and the parameter is not replaced with Void |
| AbstractionPattern.FromOpaqueValue | include/polarphp/pil/lang/AbstractionPattern.h:247-252 | `getOpaqueValue` of the result is the argument |
| AbstractionPattern.OpaqueRoundTrip | include/polarphp/pil/lang/AbstractionPattern.h:247-252 | `fromOpaqueValue(getOpaqueValue())` is the identity |
| AbstractionPattern.NoErrorInfoIsEmpty | include/polarphp/pil/lang/AbstractionPattern.h:214-230 | the default info has no value and no unreplaced error parameter |
| AbstractionPattern.ErrorInfoRoundTrip | include/polarphp/pil/lang/AbstractionPattern.h:215-245 | decoding an encoded (index, replaced, strips) gives back all three when the word fits 32 bits |
| AbstractionPattern.EncodeOverflowLosesValue | include/polarphp/pil/lang/AbstractionPattern.h:215-221 | beyond that bound the word wraps, and the largest index with both flags encodes as "no value" |
| AbstractionPattern.HasStoredForeignErrorInfo | include/polarphp/pil/lang/AbstractionPattern.h:321-323 | exactly the Objective-C method kinds |
| AbstractionPattern.HasGenericSignature | include/polarphp/pil/lang/AbstractionPattern.h:402-423 | false exactly for Invalid, Opaque and Tuple, that is, true exactly for the kinds with a type |
| AbstractionPattern.HasCachingKey | include/polarphp/pil/lang/AbstractionPattern.h:666-672 | only Type, Opaque and Discard; never a foreign, tuple or invalid pattern |
| AbstractionPattern.IsForeign | include/polarphp/pil/lang/AbstractionPattern.h:803-830 | true exactly for the Clang, Objective-C and C++ kinds; false for Opaque, Tuple, Type and Discard |
| AbstractionPattern.IsObjCMethod | include/polarphp/pil/lang/AbstractionPattern.h:848-853 | the Objective-C kinds other than the partial one |
| AbstractionPattern.IsCXXMethod | include/polarphp/pil/lang/AbstractionPattern.h:860-865 | the C++ kinds other than the partial one |
| AbstractionPattern.HasForeignErrorStrippingResultOptionality | include/polarphp/pil/lang/AbstractionPattern.h:877-903 | true only for Objective-C kinds whose stored info has a value and strips optionality |
| AbstractionPattern.IsExactType | include/polarphp/pil/lang/AbstractionPattern.h:932-960 | true only for a Type or Discard pattern, and then iff its type is the given one |
| AbstractionPattern.IsTuple | include/polarphp/pil/lang/AbstractionPattern.h:966-989 | always for Tuple; otherwise only when the stored type is a tuple type |
| AbstractionPattern.NumTupleElements | include/polarphp/pil/lang/AbstractionPattern.h:991-1014 | the stored count for an open-coded tuple, the type's arity otherwise |
| AbstractionPattern.ToOtherData | include/polarphp/pil/lang/AbstractionPattern.h:255-259 | storing into the 28-bit field keeps a value that fits and truncates otherwise |
| AbstractionPattern.InitSwiftType | include/polarphp/pil/lang/AbstractionPattern.h:337-345 | sets kind and type; the signature is kept only for a type with type parameters |
| AbstractionPattern.InitClangType | include/polarphp/pil/lang/AbstractionPattern.h:347-352 | as `initSwiftType`, then stores the Clang type |
| AbstractionPattern.InitObjCMethod | include/polarphp/pil/lang/AbstractionPattern.h:354-360 | stores the method and the info word, truncated to 28 bits |
| AbstractionPattern.InitCFunctionAsMethod | include/polarphp/pil/lang/AbstractionPattern.h:362-368 | stores the Clang type and the member status in the other data |
| AbstractionPattern.InitCXXMethod | include/polarphp/pil/lang/AbstractionPattern.h:370-374 | stores the C++ method |
| AbstractionPattern.GetOpaque | include/polarphp/pil/lang/AbstractionPattern.h:394-396 | valid, not foreign, with a caching key |
| AbstractionPattern.GetInvalid | include/polarphp/pil/lang/AbstractionPattern.h:398-400 | invalid, with no generic signature |
| AbstractionPattern.FromType | include/polarphp/pil/lang/AbstractionPattern.h:380-386 | a Type pattern whose type is the given one, exactly |
| AbstractionPattern.FromClangType | include/polarphp/pil/lang/AbstractionPattern.h:387-392 | a foreign ClangType pattern that is never the exact type |
| AbstractionPattern.GetDiscard | include/polarphp/pil/lang/AbstractionPattern.h:532-537 | a Discard pattern of the type, with a caching key |
| AbstractionPattern.GetTuple | include/polarphp/pil/lang/AbstractionPattern.h:439-444 | a Tuple pattern over the elements, whose count is their number modulo 2^28 |
| AbstractionPattern.TupleCountRoundTrip | include/polarphp/pil/lang/AbstractionPattern.h:279-282 | `getNumTupleElements(getTuple(xs))` is `size(xs)` exactly when it fits 28 bits |
| AbstractionPattern.GetCFunctionAsMethodKind | include/polarphp/pil/lang/AbstractionPattern.h:462-471 | a foreign, non-tuple C-function-as-method pattern carrying the member status |
| AbstractionPattern.GetCXXMethodKind | include/polarphp/pil/lang/AbstractionPattern.h:497-519 | a foreign C++ pattern storing the method; `isCXXMethod` unless partial |
| AbstractionPattern.GetObjCMethodKind | include/polarphp/pil/lang/AbstractionPattern.h:636-644 | a foreign Objective-C pattern storing the method and carrying error info |
| AbstractionPattern.ObjCErrorInfoRoundTrip | include/polarphp/pil/lang/AbstractionPattern.h:872-875 | the stored info reads back unchanged exactly when it fits 28 bits |
| AbstractionPattern.ObjCStripsRoundTrip | include/polarphp/pil/lang/AbstractionPattern.h:877-903 | a pattern built from an encoded info reports its strips flag, when the word fits 28 bits |
| AbstractionPattern.RewriteType | include/polarphp/pil/lang/AbstractionPattern.h:772-801 | replaces the type only, keeping kind, other data and union; well-formedness is kept |
| AbstractionPattern.GenericSignatureIffType | include/polarphp/pil/lang/AbstractionPattern.h:157-200 | for a well-formed pattern, a signature can be asked for exactly when it stores a type |
| Stmt.DefaultImplicitFlag | include/polarphp/ast/Stmt.h:105-109 | the explicit flag if given, otherwise true iff the keyword location is invalid |
| Stmt.StmtBitsRoundTrip | include/polarphp/ast/Stmt.h:112-118 | `getKind` and `isImplicit` read back what the constructor stored; the rest is zero |
| Stmt.WithCountKeepsHeader | include/polarphp/ast/Stmt.h:68-104 | a subclass count field reads back and leaves kind and implicit bits alone |
| Stmt.ConditionKindOf | include/polarphp/ast/Stmt.h:410-420 | PatternBinding iff a pattern is set; else Boolean iff the payload is an expression; else Availability |
| Stmt.BooleanOrNull | include/polarphp/ast/Stmt.h:422-425 | non-null exactly for Boolean conditions |
| Stmt.ConditionKindOfConstructors | include/polarphp/ast/Stmt.h:396-405 | each constructor gives its kind; a default element reads as Availability |
| Stmt.StartLoc | include/polarphp/ast/Stmt.h:480-497 | a labeled statement starts at the label iff the label is set, else at its keyword; a case at `@unknown` when valid |
| Stmt.EndLoc | include/polarphp/ast/Stmt.h:1234-1237 | break and continue end at a valid target location, else at the keyword; a switch ends at its right brace |
| Stmt.IfChainEnd | include/polarphp/ast/Stmt.h:704-706 | an if ends where its final else-branch (or then-branch) ends |
| Stmt.DoCatchEnd | include/polarphp/ast/Stmt.h:627 | a do-catch ends where its last catch body ends |
| Stmt.LabelItemsRange | include/polarphp/ast/Stmt.h:1078-1080 | (case, colon) when the colon is valid, the full range otherwise |
| Stmt.CaseStart | include/polarphp/ast/Stmt.h:1072-1076 | starts at `@unknown` iff the case has it, else at `case` |
| Stmt.CaseBodyVariablesOrEmpty | include/polarphp/ast/Stmt.h:1114-1119 | empty without body variables, the variables otherwise |
| Stmt.NumTrailingFallthrough | include/polarphp/ast/Stmt.h:1133-1135 | 1 iff the case has a fallthrough, else 0 |
| Stmt.NumTrailingLabelItems | include/polarphp/ast/Stmt.h:1129-1131 | the number of label items |
| Stmt.FallthroughStmt.constructor | include/polarphp/ast/Stmt.h:967-969 | source and destination start unset |
| Stmt.FallthroughStmt.SetFallthroughSource | include/polarphp/ast/Stmt.h:976-981 | set-once: requires an unset source and stores the case |
| Stmt.FallthroughStmt.SetFallthroughDest | include/polarphp/ast/Stmt.h:983-992 | set-once: requires an unset destination, after which `getFallthroughDest` returns it |
| Stmt.CaseFallthroughDest | include/polarphp/ast/Stmt.h:1051-1061 | a destination exactly when the case has a fallthrough, and then the trailing statement's destination |
| SimpleDisplay.ShowTupleSuffix | include/polarphp/basic/SimpleDisplay.h:82-106 | from index i ≥ 1, each remaining element is written after ", ", then ")" |
| SimpleDisplay.ShowNonEmptyTuple | include/polarphp/basic/SimpleDisplay.h:82-113 | a tuple of n ≥ 1 elements displays as "(" + the elements joined by ", " + ")" |
| SimpleDisplay.JoinShownLength | include/polarphp/basic/SimpleDisplay.h:87-96 | each element is shown once and there are n − 1 separators |
| SimpleDisplay.ShowEmptyTupleAsWritten | include/polarphp/basic/SimpleDisplay.h:99-113 | as written, an empty tuple displays as ")" |
| SimpleDisplay.OpensIffNonEmpty | include/polarphp/basic/SimpleDisplay.h:82-113 | as written, the output opens with "(" exactly for non-empty tuples |
| SimpleDisplay.ShowFixedTuple | include/polarphp/basic/SimpleDisplay.h:108-113 | corrected: every tuple, empty included, displays as "(" + joined elements + ")" |
| SimpleDisplay.FixedDiffersByEmptyTuples | include/polarphp/basic/SimpleDisplay.h:99-113 | the corrected output is one character longer per nested empty tuple, and equal to the written one iff there are none |

## Left out

- PILValue.h: the binary `ValueOwnershipKind::merge` body is not in the header. The range merge is proved for every binary merge obeying the documented None rule. `MergeEqualOrNone` is one such merge.
- PILValue.h: operand and value identity are ids in maps, not addresses. Aliasing between operands of different values is therefore out of scope.
- `Operand::getUser` and the use iterators' instruction filters are kept only as the owner map.
- PilUseLists.UseLists.Swap: the contract states the exchange of values and the preserved invariant. It does not state the exact positions the two operands take in their new lists.
- ManagedValue.h: `copy`, `borrow`, `formalAccessCopy`, `ensurePlusOne`, `forward`, `materialize` and the dump functions need a PILGenFunction. They are left out.
  - ManagedValue.AsBorrowedOperand takes the result of `borrow` as a parameter for that reason.
- ManagedValue.h: `isPlusZero` is declared only and is left out.
- AstScope.ScopeTree.WidenSourceRangeForIgnoredAstNode: its body lives in a source file that is not part of this model. The model widens the ignored-node range and clears the caches of the scope and its ancestors, as the header's comments on `sourceRangeOfIgnoredASTNodes` and on cached ranges require. The order of widening (ignored nodes, then children) is also taken from those comments; it does not change the result, since widening is a hull.
- AstScope.h: the per-kind expansion bodies, `ScopeCreator`, printing and dumping are not shown and are left out.
  - `lookupLocalsOrMembers` is a caller-supplied set of done scopes.
  - `getLookupLimit` is the `limit` parameter.
- AstScope.SearchedListsNoRepeat: proves that no list is searched twice in a row or right after `lastListSearched`. This is weaker than "at most once per list", which depends on scope kinds that are not shown.
- AstScope.ScopeTree.DisownChildren: models `disownDescendants` one level deep. The removal of scopes from the creator's node map is not shown.
- AstScope.h: child ids are assumed to be later than their parent's. This stands in for the well-foundedness of the source's pointer tree.
- Evaluator.h: stats tracing, PrettyStackTrace, GraphViz output and the diagnostics printed on a cycle are left out.
  - Requests and values are numbers.
  - A request function is data: its subrequests and a combining function.
- Evaluator.h: `checkDependency` is declared only. It is modelled from its comment: a request already on the stack is a cycle; otherwise it is pushed.
- Evaluator.h: `hasActiveRequest` is modelled as the predicate `Evaluator.HasActiveRequest`, which is membership in the stack.
- Evaluator.Evaluator.Evaluate: equality with `Spec` is proved when no request uses a cache. With caches, the contract states instead that hits return stored values and misses store on success.
- FineGrainedDependencies.cpp: YAML reading and writing, `humanReadableName` demangling and `verifyNodeKindNames` are left out.
- FineGrainedDependencies.cpp: `addNode`, `addArc` and `setIsProvides` are declared in a header that is not part of this model.
  - `addNode` numbers the node by its position.
  - `addArc(def, use)` records `def` in the use's set of defs depended upon.
  - `setIsProvides` sets the flag.
- DependencyGraph.SourceFileDepGraph.Verify: the source's `verify` never returns false; it stops on a failed assertion or `llvm_unreachable`. Here `false` stands for that failure. The check that each node sits at its sequence number comes from `getNode`, which `forEachNode` (declared in a header that is not part of this model) uses to walk the nodes.
- DependencyGraph.SourceFileDepGraph.FindExistingNodePairOrCreateAndAddIfNew: requires a kind other than externalDepend. An implementation-aspect key of that kind would fail `DependencyKey::verify`.
- DependencyGraph.SourceFileDepGraph.AddArc: requires distinct nodes. This is the irreflexivity that `verify` checks.
- EpilogueARCAnalysis.cpp: the analysis setup and pass-manager entry points (`initialize`, `create`) are left out.
  - The post-order and RC-identity analyses are not modelled.
  - `isInterestedInstruction`, `mayBlockEpilogueARC` and `isInterestedFunctionExitingBlock` are boolean flags on instructions and blocks.
- EpilogueArc.EpilogueArcContext.SplitArgument: when several phis share a predecessor, the last writer of `LocalArg` wins. The contract states only that the local argument is one of the incoming values.
- EpilogueArc.EpilogueArcContext.ConvergeDataflow: requires the justified state that `InitializeDataflow` establishes. This is what makes the fixpoint monotone and terminating.
- DeclContext.h: `getContextKind`, `wasDeserialized`, member loading and lookup are out of line. They appear as constant fields.
- AbstractionPattern.h: Clang, Objective-C and C++ declarations, and types, are opaque tags.
  - `hasSameBasicTypeStructure` is equal shapes.
  - The `ForeignErrorConvention` encoders and the substitution helpers are left out.
- AbstractionPattern.h: the `init*` helpers and `rewriteType` assign fields of `*this`. They are modelled as functions from the old pattern to the new one, which keeps their field-by-field effect but not the in-place update.
- Stmt.h: the statement kinds whose location getters are out of line (return, yield, defer, throw and the rest) are one `OutOfLine` constructor.
  - The bit layout of the inline bit fields is taken as kind in the low eight bits and then the implicit bit.
- SimpleDisplay.h: C++ stream formatting of the trivial types is a string the value already renders to.

## Findings

| source | as written | input that shows it | evidently intended | confidence | as-written member | corrected member |
|---|---|---|---|---|---|---|
| include/polarphp/basic/SimpleDisplay.h:99-113 | for an empty tuple the index-0 overload is the terminal one, so only ")" is written | `simple_display(out, std::tuple<>())` | "()", as for every other tuple | high (not executed) | SimpleDisplay.ShowEmptyTupleAsWritten | SimpleDisplay.ShowFixedTuple |
