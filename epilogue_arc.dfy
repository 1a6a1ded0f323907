/**
 * The epilogue ARC dataflow of src/pil/optimizer/analysis/EpilogueARCAnalysis.cpp.
 *
 * Blocks are numbered by their position in post order. Each block has its
 * successors and its instructions; whether an instruction is an interested
 * ARC instruction, and whether it may block the epilogue, are given as data.
 * The per-block state holds the block's local copy of the argument and the
 * boolean `BBSetIn`: "every path from the start of this block to an exit
 * meets an interested instruction first" is what the analysis computes.
 */
module EpilogueArc {
  import opened Wrappers

  type BlockId = nat
  type ValueId = nat

  /** `isInterestedInstruction` and `mayBlockEpilogueARC`, per instruction. */
  datatype Inst = Inst(interested: bool, blocking: bool)

  /** A block: successors, instructions, and `isInterestedFunctionExitingBlock`. */
  datatype Block = Block(succs: seq<BlockId>, insts: seq<Inst>, exiting: bool)

  /** One incoming edge of a phi argument: the predecessor and the value it passes (null as None). */
  datatype Incoming = Incoming(pred: BlockId, value: Option<ValueId>)

  /** The state `IndexToStateMap` keeps per block. */
  datatype BlockState = BlockState(localArg: Option<ValueId>, bbSetIn: bool)

  /** What a reverse scan of a block's instructions meets first. */
  datatype ScanResult = Interested(index: nat) | Blocked(index: nat) | Neither

  /** i is an instruction of the block and none after it is interested or blocking. */
  predicate QuietAfter(insts: seq<Inst>, i: nat)
  {
    i < |insts| && forall j :: i < j < |insts| ==> !insts[j].interested && !insts[j].blocking
  }

  /** The first interested or blocking instruction from the end; an interested one wins at the same position. */
  function FirstFromEnd(insts: seq<Inst>): ScanResult
    decreases |insts|
  {
    if |insts| == 0 then Neither
    else
      var i := |insts| - 1;
      if insts[i].interested then Interested(i)
      else if insts[i].blocking then Blocked(i)
      else FirstFromEnd(insts[..i])
  }

  /** What the scan result means about the instructions. */
  lemma {:induction false} FirstFromEndMeaning(insts: seq<Inst>)
    ensures FirstFromEnd(insts).Interested? ==> QuietAfter(insts, FirstFromEnd(insts).index) && insts[FirstFromEnd(insts).index].interested
    ensures FirstFromEnd(insts).Blocked? ==> QuietAfter(insts, FirstFromEnd(insts).index) && insts[FirstFromEnd(insts).index].blocking && !insts[FirstFromEnd(insts).index].interested
    ensures FirstFromEnd(insts).Neither? ==> forall j :: 0 <= j < |insts| ==> !insts[j].interested && !insts[j].blocking
    decreases |insts|
  {
    if |insts| > 0 {
      var i := |insts| - 1;
      if !insts[i].interested && !insts[i].blocking {
        FirstFromEndMeaning(insts[..i]);
        forall j | 0 <= j < i ensures insts[..i][j] == insts[j] {}
      }
    }
  }

  /** Every listed block's `BBSetIn` is true. */
  predicate AllIn(state: seq<BlockState>, bs: seq<BlockId>)
    requires forall k :: 0 <= k < |bs| ==> bs[k] < |state|
  {
    forall k :: 0 <= k < |bs| ==> state[bs[k]].bbSetIn
  }

  /** Successors and phi predecessors name existing blocks. */
  predicate CfgOk(blocks: seq<Block>, phis: map<ValueId, seq<Incoming>>)
  {
    (forall b, k :: 0 <= b < |blocks| && 0 <= k < |blocks[b].succs| ==> blocks[b].succs[k] < |blocks|) &&
    (forall a, k :: a in phis && 0 <= k < |phis[a]| ==> phis[a][k].pred < |blocks|)
  }

  /** The out-state of a block: the AND of its successors' in-states, or for a block without successors, whether it is an exit. */
  function MergedOut(blocks: seq<Block>, exits: set<BlockId>, state: seq<BlockState>, b: BlockId): bool
    requires b < |blocks| == |state|
    requires forall k :: 0 <= k < |blocks[b].succs| ==> blocks[b].succs[k] < |blocks|
  {
    if |blocks[b].succs| > 0 then AllIn(state, blocks[b].succs) else b in exits
  }

  /**
   * The new in-state of a block, or None when the analysis gives up: with
   * a true out-state the block is scanned from the end, and a blocking
   * instruction before any interested one aborts.
   */
  function Transfer(insts: seq<Inst>, out: bool): Option<bool>
  {
    if !out then Some(false)
    else match FirstFromEnd(insts)
      case Interested(_) => Some(false)
      case Blocked(_) => None
      case Neither => Some(true)
  }

  /** The in-state is a fixpoint: every block's `BBSetIn` is what its transfer gives. */
  predicate Converged(blocks: seq<Block>, exits: set<BlockId>, state: seq<BlockState>)
    requires |blocks| == |state|
    requires forall b, k :: 0 <= b < |blocks| && 0 <= k < |blocks[b].succs| ==> blocks[b].succs[k] < |blocks|
  {
    forall b :: 0 <= b < |blocks| ==> Transfer(blocks[b].insts, MergedOut(blocks, exits, state, b)) == Some(state[b].bbSetIn)
  }

  /** Every true in-state is justified by the current state: the invariant that keeps the iteration increasing. */
  predicate Justified(blocks: seq<Block>, exits: set<BlockId>, state: seq<BlockState>)
    requires |blocks| == |state|
    requires forall b, k :: 0 <= b < |blocks| && 0 <= k < |blocks[b].succs| ==> blocks[b].succs[k] < |blocks|
  {
    forall b :: 0 <= b < |blocks| && state[b].bbSetIn ==>
      MergedOut(blocks, exits, state, b) && FirstFromEnd(blocks[b].insts).Neither?
  }

  /** `after` has every true in-state of `before`. */
  predicate Grows(before: seq<BlockState>, after: seq<BlockState>)
  {
    |before| == |after| && forall b :: 0 <= b < |before| && before[b].bbSetIn ==> after[b].bbSetIn
  }

  function CountTrue(state: seq<BlockState>): (n: nat)
    ensures n <= |state|
  {
    if |state| == 0 then 0 else CountTrue(state[..|state| - 1]) + if state[|state| - 1].bbSetIn then 1 else 0
  }

  /** Growing keeps or raises the number of true in-states, and raises it when one more becomes true. */
  lemma {:induction false} CountTrueGrows(before: seq<BlockState>, after: seq<BlockState>)
    requires Grows(before, after)
    ensures CountTrue(after) >= CountTrue(before)
    ensures (exists b :: 0 <= b < |before| && !before[b].bbSetIn && after[b].bbSetIn) ==> CountTrue(after) > CountTrue(before)
    decreases |before|
  {
    if |before| > 0 {
      var n := |before| - 1;
      assert Grows(before[..n], after[..n]);
      CountTrueGrows(before[..n], after[..n]);
      if exists b :: 0 <= b < |before| && !before[b].bbSetIn && after[b].bbSetIn {
        var b :| 0 <= b < |before| && !before[b].bbSetIn && after[b].bbSetIn;
        if b < n {
          assert !before[..n][b].bbSetIn && after[..n][b].bbSetIn;
        }
      }
    }
  }

  /** A larger state never turns a true out-state false. */
  lemma MergedOutMonotone(blocks: seq<Block>, exits: set<BlockId>, before: seq<BlockState>, after: seq<BlockState>, b: BlockId)
    requires |blocks| == |before| && Grows(before, after) && b < |blocks|
    requires forall k :: 0 <= k < |blocks[b].succs| ==> blocks[b].succs[k] < |blocks|
    requires MergedOut(blocks, exits, before, b)
    ensures MergedOut(blocks, exits, after, b)
  {
    if |blocks[b].succs| > 0 {
      forall k | 0 <= k < |blocks[b].succs| ensures after[blocks[b].succs[k]].bbSetIn {
        assert before[blocks[b].succs[k]].bbSetIn;
      }
    }
  }

  /** Updating one block to its transfer keeps every true in-state justified, and only adds true in-states. */
  lemma UpdateKeepsJustified(blocks: seq<Block>, exits: set<BlockId>, state: seq<BlockState>, b: BlockId, v: bool)
    requires |blocks| == |state| && b < |blocks|
    requires forall x, k :: 0 <= x < |blocks| && 0 <= k < |blocks[x].succs| ==> blocks[x].succs[k] < |blocks|
    requires Justified(blocks, exits, state)
    requires Transfer(blocks[b].insts, MergedOut(blocks, exits, state, b)) == Some(v)
    ensures Grows(state, state[b := state[b].(bbSetIn := v)])
    ensures Justified(blocks, exits, state[b := state[b].(bbSetIn := v)])
  {
    var state' := state[b := state[b].(bbSetIn := v)];
    assert Grows(state, state');
    forall x | 0 <= x < |blocks| && state'[x].bbSetIn
      ensures MergedOut(blocks, exits, state', x) && FirstFromEnd(blocks[x].insts).Neither?
    {
      if x == b {
        MergedOutMonotone(blocks, exits, state, state', b);
      } else {
        MergedOutMonotone(blocks, exits, state, state', x);
      }
    }
  }

  /** Local arguments are left as they were. */
  predicate SameLocalArgs(before: seq<BlockState>, after: seq<BlockState>)
  {
    |before| == |after| && forall b :: 0 <= b < |before| ==> after[b].localArg == before[b].localArg
  }

  /**
   * The invariant of one pass of `convergeDataflow` over blocks 0..b-1,
   * begun from `start`; `origin` is the state before the first pass.
   */
  predicate PassInv(blocks: seq<Block>, exits: set<BlockId>, origin: seq<BlockState>, start: seq<BlockState>,
                    state: seq<BlockState>, changed: bool, b: nat)
    requires |start| == |blocks|
    requires forall x, k :: 0 <= x < |blocks| && 0 <= k < |blocks[x].succs| ==> blocks[x].succs[k] < |blocks|
  {
    |state| == |blocks| && b <= |blocks| && Grows(origin, state) && Grows(start, state) && SameLocalArgs(origin, state) &&
    Justified(blocks, exits, state) &&
    (changed ==> CountTrue(state) > CountTrue(start)) &&
    (!changed ==> state == start) &&
    (!changed ==> forall x :: 0 <= x < b ==> Transfer(blocks[x].insts, MergedOut(blocks, exits, start, x)) == Some(start[x].bbSetIn))
  }

  /** Setting block b to its transfer extends the pass by one block. */
  lemma PassStep(blocks: seq<Block>, exits: set<BlockId>, origin: seq<BlockState>, start: seq<BlockState>,
                 state: seq<BlockState>, changed: bool, b: nat, v: bool)
    requires |start| == |blocks|
    requires forall x, k :: 0 <= x < |blocks| && 0 <= k < |blocks[x].succs| ==> blocks[x].succs[k] < |blocks|
    requires PassInv(blocks, exits, origin, start, state, changed, b) && b < |blocks|
    requires Transfer(blocks[b].insts, MergedOut(blocks, exits, state, b)) == Some(v)
    ensures PassInv(blocks, exits, origin, start, state[b := state[b].(bbSetIn := v)], changed || state[b].bbSetIn != v, b + 1)
  {
    var state' := state[b := state[b].(bbSetIn := v)];
    UpdateKeepsJustified(blocks, exits, state, b, v);
    CountTrueGrows(state, state');
    CountTrueGrows(start, state');
    if state[b].bbSetIn != v {
      assert !state[b].bbSetIn && state'[b].bbSetIn;
    }
  }

  /** A pass that changed nothing leaves a fixpoint. */
  lemma PassConverged(blocks: seq<Block>, exits: set<BlockId>, origin: seq<BlockState>, start: seq<BlockState>, state: seq<BlockState>)
    requires |start| == |blocks|
    requires forall x, k :: 0 <= x < |blocks| && 0 <= k < |blocks[x].succs| ==> blocks[x].succs[k] < |blocks|
    requires PassInv(blocks, exits, origin, start, state, false, |blocks|)
    ensures Converged(blocks, exits, state)
  {
  }

  /** Every non-null value a phi argument among `sources` receives is seen or still pending. */
  predicate ReachedFrom(phis: map<ValueId, seq<Incoming>>, sources: set<ValueId>, seen: set<ValueId>, pending: seq<Option<ValueId>>)
  {
    forall a, k :: a in sources && a in phis && 0 <= k < |phis[a]| && phis[a][k].value.Some? ==>
      phis[a][k].value.value in seen || phis[a][k].value in pending
  }

  /** Block x is a predecessor of a processed phi argument. */
  predicate FeedsProcessed(phis: map<ValueId, seq<Incoming>>, processed: set<ValueId>, x: BlockId)
  {
    exists a, k :: a in processed && a in phis && 0 <= k < |phis[a]| && phis[a][k].pred == x
  }

  /** v is what some processed phi argument receives along the edge from x. */
  predicate IncomingAt(phis: map<ValueId, seq<Incoming>>, processed: set<ValueId>, x: BlockId, v: Option<ValueId>)
  {
    exists a, k :: a in processed && a in phis && 0 <= k < |phis[a]| && phis[a][k].pred == x && phis[a][k].value == v
  }

  /** A predecessor of a processed phi holds an incoming value of such a phi; any other block still holds null. */
  predicate LocalArgsSplit(phis: map<ValueId, seq<Incoming>>, processed: set<ValueId>, state: seq<BlockState>)
  {
    forall x :: 0 <= x < |state| ==>
      (FeedsProcessed(phis, processed, x) ==> IncomingAt(phis, processed, x, state[x].localArg)) &&
      (!FeedsProcessed(phis, processed, x) ==> state[x].localArg.None?)
  }

  /** Midway through splitting phi c to its first k predecessors, after `before` were processed. */
  predicate SplitInv(phis: map<ValueId, seq<Incoming>>, before: set<ValueId>, c: ValueId, k: nat, state: seq<BlockState>)
    requires c in phis && k <= |phis[c]|
  {
    forall y :: 0 <= y < |state| ==>
      ((FeedsProcessed(phis, before, y) || exists j :: 0 <= j < k && phis[c][j].pred == y) ==>
         IncomingAt(phis, before + {c}, y, state[y].localArg)) &&
      ((!FeedsProcessed(phis, before, y) && forall j :: 0 <= j < k ==> phis[c][j].pred != y) ==>
         state[y].localArg.None?)
  }

  lemma SplitStart(phis: map<ValueId, seq<Incoming>>, before: set<ValueId>, c: ValueId, state: seq<BlockState>)
    requires c in phis && LocalArgsSplit(phis, before, state)
    ensures SplitInv(phis, before, c, 0, state)
  {
    forall y | 0 <= y < |state| && FeedsProcessed(phis, before, y)
      ensures IncomingAt(phis, before + {c}, y, state[y].localArg)
    {
      var a, j :| a in before && a in phis && 0 <= j < |phis[a]| && phis[a][j].pred == y && phis[a][j].value == state[y].localArg;
      assert a in before + {c};
    }
  }

  lemma SplitStep(phis: map<ValueId, seq<Incoming>>, before: set<ValueId>, c: ValueId, k: nat, state: seq<BlockState>)
    requires c in phis && k < |phis[c]| && phis[c][k].pred < |state|
    requires SplitInv(phis, before, c, k, state)
    ensures SplitInv(phis, before, c, k + 1,
      state[phis[c][k].pred := state[phis[c][k].pred].(localArg := phis[c][k].value)])
  {
    var x := phis[c][k].pred;
    var state' := state[x := state[x].(localArg := phis[c][k].value)];
    assert IncomingAt(phis, before + {c}, x, state'[x].localArg) by {
      assert c in before + {c};
    }
  }

  /** Once every value phi c receives is pending, c joins the sources. */
  lemma ReachedAdd(phis: map<ValueId, seq<Incoming>>, before: set<ValueId>, c: ValueId, pending: seq<Option<ValueId>>)
    requires c in phis && ReachedFrom(phis, before, before + {c}, pending)
    requires forall j :: 0 <= j < |phis[c]| && phis[c][j].value.Some? ==> phis[c][j].value in pending
    ensures ReachedFrom(phis, before + {c}, before + {c}, pending)
  {
  }

  lemma SplitDone(phis: map<ValueId, seq<Incoming>>, before: set<ValueId>, c: ValueId, state: seq<BlockState>)
    requires c in phis && SplitInv(phis, before, c, |phis[c]|, state)
    ensures LocalArgsSplit(phis, before + {c}, state)
  {
    forall y | 0 <= y < |state|
      ensures FeedsProcessed(phis, before + {c}, y) <==>
        (FeedsProcessed(phis, before, y) || exists j :: 0 <= j < |phis[c]| && phis[c][j].pred == y)
    {
      if FeedsProcessed(phis, before + {c}, y) {
        var a, j :| a in before + {c} && a in phis && 0 <= j < |phis[a]| && phis[a][j].pred == y;
        if a != c {
          assert a in before;
        }
      }
      if exists j :: 0 <= j < |phis[c]| && phis[c][j].pred == y {
        var j :| 0 <= j < |phis[c]| && phis[c][j].pred == y;
        assert c in before + {c};
      }
    }
  }

  /** Processing a value that is not a phi argument: nothing feeds from it. */
  lemma NonPhiKeepsSplit(phis: map<ValueId, seq<Incoming>>, before: set<ValueId>, c: ValueId, state: seq<BlockState>)
    requires c !in phis && LocalArgsSplit(phis, before, state)
    ensures LocalArgsSplit(phis, before + {c}, state)
  {
    forall y | 0 <= y < |state|
      ensures FeedsProcessed(phis, before + {c}, y) <==> FeedsProcessed(phis, before, y)
    {
      if FeedsProcessed(phis, before + {c}, y) {
        var a, j :| a in before + {c} && a in phis && 0 <= j < |phis[a]| && phis[a][j].pred == y;
        assert a in before;
      }
    }
    forall y | 0 <= y < |state| && FeedsProcessed(phis, before, y)
      ensures IncomingAt(phis, before + {c}, y, state[y].localArg)
    {
      var a, j :| a in before && a in phis && 0 <= j < |phis[a]| && phis[a][j].pred == y && phis[a][j].value == state[y].localArg;
      assert a in before + {c};
    }
  }

  /** Popping the last pending value keeps everything reached, once that value is null or seen. */
  lemma PopKeepsReached(phis: map<ValueId, seq<Incoming>>, sources: set<ValueId>, seen: set<ValueId>, pending: seq<Option<ValueId>>)
    requires |pending| > 0 && ReachedFrom(phis, sources, seen, pending)
    requires pending[|pending| - 1].Some? ==> pending[|pending| - 1].value in seen
    ensures ReachedFrom(phis, sources, seen, pending[..|pending| - 1])
  {
    assert pending == pending[..|pending| - 1] + [pending[|pending| - 1]];
  }

  /** The invariant of the phi worklist: nothing lost, and local arguments as processing so far set them. */
  predicate WorklistInv(phis: map<ValueId, seq<Incoming>>, arg: Option<ValueId>, processed: set<ValueId>,
                        toProcess: seq<Option<ValueId>>, state: seq<BlockState>)
  {
    (forall b :: 0 <= b < |state| ==> !state[b].bbSetIn) &&
    (arg.Some? ==> arg.value in processed || arg in toProcess) &&
    ReachedFrom(phis, processed, processed, toProcess) &&
    LocalArgsSplit(phis, processed, state)
  }

  /** A popped value that is null or already processed is skipped. */
  lemma SkipStep(phis: map<ValueId, seq<Incoming>>, arg: Option<ValueId>, processed: set<ValueId>,
                 toProcess: seq<Option<ValueId>>, state: seq<BlockState>)
    requires |toProcess| > 0 && WorklistInv(phis, arg, processed, toProcess, state)
    requires toProcess[|toProcess| - 1].Some? ==> toProcess[|toProcess| - 1].value in processed
    ensures WorklistInv(phis, arg, processed, toProcess[..|toProcess| - 1], state)
  {
    PopKeepsReached(phis, processed, processed, toProcess);
    assert toProcess == toProcess[..|toProcess| - 1] + [toProcess[|toProcess| - 1]];
  }

  /** A popped value that is not a phi argument is only marked processed. */
  lemma NonPhiStep(phis: map<ValueId, seq<Incoming>>, arg: Option<ValueId>, processed: set<ValueId>,
                   toProcess: seq<Option<ValueId>>, state: seq<BlockState>)
    requires |toProcess| > 0 && WorklistInv(phis, arg, processed, toProcess, state)
    requires toProcess[|toProcess| - 1].Some? && toProcess[|toProcess| - 1].value !in phis
    ensures WorklistInv(phis, arg, processed + {toProcess[|toProcess| - 1].value}, toProcess[..|toProcess| - 1], state)
    ensures phis.Keys - (processed + {toProcess[|toProcess| - 1].value}) == phis.Keys - processed
  {
    var c := toProcess[|toProcess| - 1].value;
    PopKeepsReached(phis, processed, processed + {c}, toProcess);
    assert toProcess == toProcess[..|toProcess| - 1] + [toProcess[|toProcess| - 1]];
    NonPhiKeepsSplit(phis, processed, c, state);
  }

  /** The state of the inner loop that splits phi c, with `before` processed earlier. */
  predicate PhiLoopInv(phis: map<ValueId, seq<Incoming>>, arg: Option<ValueId>, before: set<ValueId>, c: ValueId, k: nat,
                       toProcess: seq<Option<ValueId>>, state: seq<BlockState>)
    requires c in phis && k <= |phis[c]|
  {
    (forall b :: 0 <= b < |state| ==> !state[b].bbSetIn) &&
    (arg.Some? ==> arg.value in before + {c} || arg in toProcess) &&
    ReachedFrom(phis, before, before + {c}, toProcess) &&
    (forall j :: 0 <= j < k && phis[c][j].value.Some? ==> phis[c][j].value in toProcess) &&
    SplitInv(phis, before, c, k, state)
  }

  lemma PhiStart(phis: map<ValueId, seq<Incoming>>, arg: Option<ValueId>, processed: set<ValueId>,
                 toProcess: seq<Option<ValueId>>, state: seq<BlockState>)
    requires |toProcess| > 0 && WorklistInv(phis, arg, processed, toProcess, state)
    requires toProcess[|toProcess| - 1].Some? && toProcess[|toProcess| - 1].value in phis
    requires toProcess[|toProcess| - 1].value !in processed
    ensures PhiLoopInv(phis, arg, processed, toProcess[|toProcess| - 1].value, 0, toProcess[..|toProcess| - 1], state)
    ensures |phis.Keys - (processed + {toProcess[|toProcess| - 1].value})| < |phis.Keys - processed|
  {
    var c := toProcess[|toProcess| - 1].value;
    PopKeepsReached(phis, processed, processed + {c}, toProcess);
    assert toProcess == toProcess[..|toProcess| - 1] + [toProcess[|toProcess| - 1]];
    SplitStart(phis, processed, c, state);
    FewerUnprocessed(phis.Keys, processed, c);
  }

  lemma PhiStep(phis: map<ValueId, seq<Incoming>>, arg: Option<ValueId>, before: set<ValueId>, c: ValueId, k: nat,
                toProcess: seq<Option<ValueId>>, state: seq<BlockState>)
    requires c in phis && k < |phis[c]| && phis[c][k].pred < |state|
    requires PhiLoopInv(phis, arg, before, c, k, toProcess, state)
    ensures PhiLoopInv(phis, arg, before, c, k + 1, toProcess + [phis[c][k].value],
      state[phis[c][k].pred := state[phis[c][k].pred].(localArg := phis[c][k].value)])
  {
    SplitStep(phis, before, c, k, state);
  }

  lemma PhiDone(phis: map<ValueId, seq<Incoming>>, arg: Option<ValueId>, before: set<ValueId>, c: ValueId,
                toProcess: seq<Option<ValueId>>, state: seq<BlockState>)
    requires c in phis && PhiLoopInv(phis, arg, before, c, |phis[c]|, toProcess, state)
    ensures WorklistInv(phis, arg, before + {c}, toProcess, state)
  {
    SplitDone(phis, before, c, state);
    ReachedAdd(phis, before, c, toProcess);
  }

  lemma FewerUnprocessed(keys: set<ValueId>, processed: set<ValueId>, c: ValueId)
    requires c in keys && c !in processed
    ensures |keys - (processed + {c})| < |keys - processed|
  {
    assert keys - processed == (keys - (processed + {c})) + {c};
  }

  /** Every successor of b has the same in-state: what `computeEpilogueARC` demands. */
  predicate SuccsAgree(blocks: seq<Block>, state: seq<BlockState>, b: BlockId)
    requires b < |blocks| == |state|
    requires forall k :: 0 <= k < |blocks[b].succs| ==> blocks[b].succs[k] < |blocks|
  {
    forall k :: 0 <= k < |blocks[b].succs| ==> state[blocks[b].succs[k]].bbSetIn == state[blocks[b].succs[0]].bbSetIn
  }

  /** The epilogue instructions of the blocks before n: the last interested instruction of each block whose out-state is true. */
  function EpilogueFound(blocks: seq<Block>, exits: set<BlockId>, state: seq<BlockState>, n: nat): set<(BlockId, nat)>
    requires n <= |blocks| == |state|
    requires forall b, k :: 0 <= b < |blocks| && 0 <= k < |blocks[b].succs| ==> blocks[b].succs[k] < |blocks|
  {
    set b, i | 0 <= b < n && 0 <= i < |blocks[b].insts| && MergedOut(blocks, exits, state, b) &&
      FirstFromEnd(blocks[b].insts) == Interested(i) :: (b, i)
  }

  /** At most one epilogue instruction is found per block. */
  lemma EpilogueOnePerBlock(blocks: seq<Block>, exits: set<BlockId>, state: seq<BlockState>, b: BlockId, i: nat, j: nat)
    requires |blocks| == |state|
    requires forall x, k :: 0 <= x < |blocks| && 0 <= k < |blocks[x].succs| ==> blocks[x].succs[k] < |blocks|
    requires (b, i) in EpilogueFound(blocks, exits, state, |blocks|) && (b, j) in EpilogueFound(blocks, exits, state, |blocks|)
    ensures i == j
  {
  }

  /** A walk along successor edges. */
  predicate IsPath(blocks: seq<Block>, p: seq<BlockId>)
  {
    (forall k :: 0 <= k < |p| ==> p[k] < |blocks|) &&
    (forall k :: 0 <= k < |p| - 1 ==> p[k + 1] in blocks[p[k]].succs)
  }

  /**
   * What a true in-state means: along every walk from such a block, every
   * block's in-state is true and no block holds an interested or a blocking
   * instruction, and a walk that stops at a block without successors stops
   * at an exit.
   */
  lemma {:induction false} JustifiedAlongPath(blocks: seq<Block>, exits: set<BlockId>, state: seq<BlockState>, p: seq<BlockId>)
    requires |blocks| == |state|
    requires forall b, k :: 0 <= b < |blocks| && 0 <= k < |blocks[b].succs| ==> blocks[b].succs[k] < |blocks|
    requires Justified(blocks, exits, state) && IsPath(blocks, p) && |p| > 0 && state[p[0]].bbSetIn
    ensures forall k :: 0 <= k < |p| ==> state[p[k]].bbSetIn && FirstFromEnd(blocks[p[k]].insts).Neither?
    ensures |blocks[p[|p| - 1]].succs| == 0 ==> p[|p| - 1] in exits
    decreases |p|
  {
    if |p| > 1 {
      var n := |p| - 1;
      assert IsPath(blocks, p[..n]);
      JustifiedAlongPath(blocks, exits, state, p[..n]);
      assert p[..n][n - 1] == p[n - 1];
      var q := p[n - 1];
      assert state[q].bbSetIn;
      assert MergedOut(blocks, exits, state, q);
      var k :| 0 <= k < |blocks[q].succs| && blocks[q].succs[k] == p[n];
      assert state[p[n]].bbSetIn;
      forall j | 0 <= j < |p|
        ensures state[p[j]].bbSetIn && FirstFromEnd(blocks[p[j]].insts).Neither?
      {
        if j < n {
          assert p[..n][j] == p[j];
        }
      }
    }
  }

  /**
   * An epilogue instruction found in a justified state is the last ARC
   * instruction on every walk through it: nothing after it in its block and
   * no block on any walk from a successor holds an interested or a blocking
   * instruction.
   */
  lemma EpilogueIsLast(blocks: seq<Block>, exits: set<BlockId>, state: seq<BlockState>, b: BlockId, i: nat, p: seq<BlockId>)
    requires |blocks| == |state|
    requires forall x, k :: 0 <= x < |blocks| && 0 <= k < |blocks[x].succs| ==> blocks[x].succs[k] < |blocks|
    requires Justified(blocks, exits, state) && (b, i) in EpilogueFound(blocks, exits, state, |blocks|)
    requires IsPath(blocks, p) && |p| > 0 && p[0] in blocks[b].succs
    ensures blocks[b].insts[i].interested && QuietAfter(blocks[b].insts, i)
    ensures forall k :: 0 <= k < |p| ==> FirstFromEnd(blocks[p[k]].insts).Neither?
  {
    FirstFromEndMeaning(blocks[b].insts);
    assert state[p[0]].bbSetIn;
    JustifiedAlongPath(blocks, exits, state, p);
  }

  class EpilogueArcContext {
    /** The blocks in post order. */
    const blocks: seq<Block>
    /** `Arg`, null as None. */
    const arg: Option<ValueId>
    /** The phi arguments among the values, with their incoming edges. */
    const phis: map<ValueId, seq<Incoming>>
    /** `ExitBlocks`. */
    var exitBlocks: set<BlockId>
    /** `IndexToStateMap`. */
    var indexToState: seq<BlockState>
    /** `EpilogueARCInsts`, as (block, instruction index) pairs. */
    var epilogueArcInsts: set<(BlockId, nat)>

    constructor (blocks: seq<Block>, arg: Option<ValueId>, phis: map<ValueId, seq<Incoming>>)
      requires CfgOk(blocks, phis)
      ensures this.blocks == blocks && this.arg == arg && this.phis == phis
      ensures exitBlocks == {} && indexToState == [] && epilogueArcInsts == {}
    {
      this.blocks := blocks;
      this.arg := arg;
      this.phis := phis;
      exitBlocks := {};
      indexToState := [];
      epilogueArcInsts := {};
    }

    /**
     * `initializeDataflow`: one fresh state per block in post order, the
     * interested exiting blocks recorded as exits, then the argument split
     * into a local argument per predecessor along the web of phi arguments,
     * each value processed at most once.
     */
    method InitializeDataflow() returns (processed: set<ValueId>)
      requires CfgOk(blocks, phis) && indexToState == [] && exitBlocks == {}
      modifies this
      ensures |indexToState| == |blocks| && forall b :: 0 <= b < |blocks| ==> !indexToState[b].bbSetIn
      ensures exitBlocks == set b | 0 <= b < |blocks| && blocks[b].exiting
      ensures arg.Some? ==> arg.value in processed
      ensures ReachedFrom(phis, processed, processed, [])
      ensures LocalArgsSplit(phis, processed, indexToState)
      ensures Justified(blocks, exitBlocks, indexToState)
      ensures epilogueArcInsts == old(epilogueArcInsts)
    {
      CreateStates();
      processed := SplitArgument();
    }

    /** The post-order loop of `initializeDataflow`: a fresh state per block, exits recorded. */
    method CreateStates()
      requires indexToState == [] && exitBlocks == {}
      modifies this`indexToState, this`exitBlocks
      ensures indexToState == seq(|blocks|, _ => BlockState(None, false))
      ensures exitBlocks == set b | 0 <= b < |blocks| && blocks[b].exiting
    {
      for b := 0 to |blocks|
        invariant indexToState == seq(b, _ => BlockState(None, false))
        invariant exitBlocks == set x | 0 <= x < b && blocks[x].exiting
      {
        if blocks[b].exiting {
          exitBlocks := exitBlocks + {b};
        }
        indexToState := indexToState + [BlockState(None, false)];
      }
    }

    /** The worklist of `initializeDataflow`: the argument split along phi arguments into per-predecessor local arguments. */
    method SplitArgument() returns (processed: set<ValueId>)
      requires CfgOk(blocks, phis) && indexToState == seq(|blocks|, _ => BlockState(None, false))
      modifies this`indexToState
      ensures |indexToState| == |blocks| && forall b :: 0 <= b < |blocks| ==> !indexToState[b].bbSetIn
      ensures arg.Some? ==> arg.value in processed
      ensures ReachedFrom(phis, processed, processed, [])
      ensures LocalArgsSplit(phis, processed, indexToState)
    {
      var toProcess: seq<Option<ValueId>> := [arg];
      processed := {};
      while |toProcess| > 0
        invariant |indexToState| == |blocks|
        invariant WorklistInv(phis, arg, processed, toProcess, indexToState)
        decreases |phis.Keys - processed|, |toProcess|
      {
        var cArg := toProcess[|toProcess| - 1];
        if cArg.None? || cArg.value in processed {
          SkipStep(phis, arg, processed, toProcess, indexToState);
          toProcess := toProcess[..|toProcess| - 1];
          continue;
        }
        var c := cArg.value;
        if c !in phis {
          NonPhiStep(phis, arg, processed, toProcess, indexToState);
          processed := processed + {c};
          toProcess := toProcess[..|toProcess| - 1];
          continue;
        }
        PhiStart(phis, arg, processed, toProcess, indexToState);
        ghost var before := processed;
        processed := processed + {c};
        toProcess := toProcess[..|toProcess| - 1];
        var incoming := phis[c];
        for k := 0 to |incoming|
          invariant |indexToState| == |blocks|
          invariant PhiLoopInv(phis, arg, before, c, k, toProcess, indexToState)
        {
          var x := incoming[k].pred;
          PhiStep(phis, arg, before, c, k, toProcess, indexToState);
          indexToState := indexToState[x := indexToState[x].(localArg := incoming[k].value)];
          toProcess := toProcess + [incoming[k].value];
        }
        PhiDone(phis, arg, before, c, toProcess, indexToState);
      }
    }

    /** f is the first block in post order whose successors disagree. */
    predicate FirstDisagreement(f: BlockId)
      requires CfgOk(blocks, phis) && |indexToState| == |blocks|
      reads this
    {
      f < |blocks| && !SuccsAgree(blocks, indexToState, f) &&
      forall b :: 0 <= b < f ==> SuccsAgree(blocks, indexToState, b)
    }

    /** The successors' in-states ANDed together, or exit membership for a block without successors. */
    method MergeSuccessors(b: BlockId) returns (out: bool)
      requires CfgOk(blocks, phis) && b < |blocks| == |indexToState|
      ensures out == MergedOut(blocks, exitBlocks, indexToState, b)
    {
      var succs := blocks[b].succs;
      if |succs| == 0 {
        return b in exitBlocks;
      }
      out := indexToState[succs[0]].bbSetIn;
      for k := 1 to |succs|
        invariant out == forall j :: 0 <= j < k ==> indexToState[succs[j]].bbSetIn
      {
        out := out && indexToState[succs[k]].bbSetIn;
      }
    }

    /** The reverse scan of a block: the first interested or blocking instruction from the end. */
    method ScanBlock(b: BlockId) returns (r: ScanResult)
      requires b < |blocks|
      ensures r == FirstFromEnd(blocks[b].insts)
    {
      var insts := blocks[b].insts;
      var i := |insts|;
      assert insts[..i] == insts;
      while i > 0
        invariant 0 <= i <= |insts|
        invariant FirstFromEnd(insts) == FirstFromEnd(insts[..i])
      {
        i := i - 1;
        assert insts[..i + 1][..i] == insts[..i];
        if insts[i].interested {
          return Interested(i);
        }
        if insts[i].blocking {
          return Blocked(i);
        }
      }
      return Neither;
    }

    /**
     * `convergeDataflow`: passes over the blocks in post order, each setting
     * a block's in-state to its transfer, until a pass changes nothing. It
     * gives up as soon as a block with a true out-state meets a blocking
     * instruction before an interested one. In-states only ever turn from
     * false to true, which bounds the number of passes.
     */
    method ConvergeDataflow() returns (ok: bool)
      requires CfgOk(blocks, phis) && |indexToState| == |blocks| && Justified(blocks, exitBlocks, indexToState)
      modifies this`indexToState
      ensures |indexToState| == |blocks| && Grows(old(indexToState), indexToState)
      ensures SameLocalArgs(old(indexToState), indexToState)
      ensures Justified(blocks, exitBlocks, indexToState)
      ensures ok ==> Converged(blocks, exitBlocks, indexToState)
      ensures !ok ==> exists b :: 0 <= b < |blocks| && Transfer(blocks[b].insts, MergedOut(blocks, exitBlocks, indexToState, b)).None?
    {
      var changed := true;
      while changed
        invariant |indexToState| == |blocks| && Grows(old(indexToState), indexToState)
        invariant SameLocalArgs(old(indexToState), indexToState)
        invariant Justified(blocks, exitBlocks, indexToState)
        invariant !changed ==> Converged(blocks, exitBlocks, indexToState)
        decreases |blocks| - CountTrue(indexToState) + if changed then 1 else 0
      {
        changed := false;
        ghost var start := indexToState;
        for b := 0 to |blocks|
          invariant PassInv(blocks, exitBlocks, old(indexToState), start, indexToState, changed, b)
        {
          var out := MergeSuccessors(b);
          if out {
            var r := ScanBlock(b);
            if r.Interested? {
              out := false;
            } else if r.Blocked? {
              return false;
            }
          }
          PassStep(blocks, exitBlocks, old(indexToState), start, indexToState, changed, b, out);
          changed := changed || indexToState[b].bbSetIn != out;
          indexToState := indexToState[b := indexToState[b].(bbSetIn := out)];
        }
        if !changed {
          PassConverged(blocks, exitBlocks, old(indexToState), start, indexToState);
        }
      }
      return true;
    }

    /**
     * `computeEpilogueARC`: fails when some block's successors disagree;
     * otherwise every block whose out-state is true contributes its last
     * interested instruction, unless a blocking one comes after it.
     */
    method ComputeEpilogueArc() returns (ok: bool)
      requires CfgOk(blocks, phis) && |indexToState| == |blocks|
      modifies this`epilogueArcInsts
      ensures ok <==> forall b :: 0 <= b < |blocks| ==> SuccsAgree(blocks, indexToState, b)
      ensures ok ==> epilogueArcInsts == old(epilogueArcInsts) + EpilogueFound(blocks, exitBlocks, indexToState, |blocks|)
      ensures !ok ==> exists f :: FirstDisagreement(f) && epilogueArcInsts == old(epilogueArcInsts) + EpilogueFound(blocks, exitBlocks, indexToState, f)
    {
      for b := 0 to |blocks|
        invariant forall x :: 0 <= x < b ==> SuccsAgree(blocks, indexToState, x)
        invariant epilogueArcInsts == old(epilogueArcInsts) + EpilogueFound(blocks, exitBlocks, indexToState, b)
      {
        var succs := blocks[b].succs;
        var out := false;
        if |succs| > 0 {
          var base := indexToState[succs[0]].bbSetIn;
          for k := 1 to |succs|
            invariant forall j :: 0 <= j < k ==> indexToState[succs[j]].bbSetIn == base
          {
            if indexToState[succs[k]].bbSetIn != base {
              assert !SuccsAgree(blocks, indexToState, b);
              return false;
            }
          }
          out := base;
        } else if b in exitBlocks {
          out := true;
        }
        assert out == MergedOut(blocks, exitBlocks, indexToState, b);
        if !out {
          continue;
        }
        var r := ScanBlock(b);
        if r.Interested? {
          FirstFromEndMeaning(blocks[b].insts);
          epilogueArcInsts := epilogueArcInsts + {(b, r.index)};
        }
      }
      return true;
    }
  }
}
