/**
 * The lexical scope tree of include/polarphp/ast/AstScope.h.
 *
 * Scopes live in an arena and are named by their creation index. Each scope
 * has its parent, its children in source order, the source range of its own
 * AST node, the range of the AST nodes it ignores (which form no scope but
 * still count towards its range), an expansion flag, an ancestor-scope
 * counter and a cached source range. The source range of a scope is the
 * range of its own node widened by its ignored nodes and then by the ranges
 * of its children; caching it is only sound when every change to the
 * children or to the ignored nodes clears the cache of the changed scope and
 * of all its ancestors, which is what the model proves.
 */
module AstScope {
  import opened Wrappers

  type ScopeId = nat
  /** A generic parameter list, by identity. */
  type ListId = nat

  const TWO_32: nat := 0x1_0000_0000

  /** A source range as a pair of offsets. */
  datatype Range = Range(start: nat, end: nat)
  {
    predicate Encloses(other: Range)
    {
      start <= other.start && other.end <= end
    }
  }

  /** The smallest range covering both. */
  function Hull(a: Range, b: Range): (r: Range)
    ensures r.Encloses(a) && r.Encloses(b)
    ensures forall c: Range :: c.Encloses(a) && c.Encloses(b) ==> c.Encloses(r)
  {
    Range(if a.start <= b.start then a.start else b.start, if a.end >= b.end then a.end else b.end)
  }

  /**
   * `widenSourceRangeForIgnoredAstNodes`: a range widened by the range of the
   * ignored AST nodes, when that range is valid (present).
   */
  function WidenForIgnored(r: Range, ignored: Option<Range>): (w: Range)
    ensures w.Encloses(r) && (ignored.Some? ==> w.Encloses(ignored.value))
    ensures forall c: Range :: c.Encloses(r) && (ignored.Some? ==> c.Encloses(ignored.value)) ==> c.Encloses(w)
  {
    if ignored.Some? then Hull(r, ignored.value) else r
  }

  /**
   * Most scopes look up names in their tree parent; a
   * LookupParentDiversionScope redirects lookup to a stored scope instead.
   */
  datatype ScopeKind = Ordinary | Diversion(lookupParent: Option<ScopeId>)

  // ---------------------------------------------------------------------
  // The shape of the tree and the ranges it determines
  // ---------------------------------------------------------------------

  /** Parents, children and own ranges, indexed by scope. */
  datatype Shape = Shape(parent: seq<Option<ScopeId>>, children: seq<seq<ScopeId>>, own: seq<Range>)

  /** Every child is a later scope than its parent: what makes the recursion below terminate. */
  predicate ChildrenAfter(t: Shape)
  {
    |t.children| == |t.own| &&
    forall s, i :: 0 <= s < |t.children| && 0 <= i < |t.children[s]| ==> s < t.children[s][i] < |t.own|
  }

  /** `getSourceRangeOfScope`: the own range (the node's, widened by its ignored nodes) widened by every child's range. */
  function RangeOf(t: Shape, s: ScopeId): Range
    requires ChildrenAfter(t) && s < |t.own|
    decreases |t.own| - s, 1
  {
    WidenForChildren(t, s, t.own[s], 0)
  }

  /** `widenSourceRangeForChildren`, from the i-th child on. */
  function WidenForChildren(t: Shape, s: ScopeId, r: Range, i: nat): Range
    requires ChildrenAfter(t) && s < |t.own| && i <= |t.children[s]|
    decreases |t.own| - s, 0, |t.children[s]| - i
  {
    if i == |t.children[s]| then r
    else WidenForChildren(t, s, Hull(r, RangeOf(t, t.children[s][i])), i + 1)
  }

  /** `countDescendants`: every child and every descendant of a child. */
  function CountDescendants(t: Shape, s: ScopeId): nat
    requires ChildrenAfter(t) && s < |t.own|
    decreases |t.own| - s, 1
  {
    CountFrom(t, s, 0)
  }

  function CountFrom(t: Shape, s: ScopeId, i: nat): nat
    requires ChildrenAfter(t) && s < |t.own| && i <= |t.children[s]|
    decreases |t.own| - s, 0, |t.children[s]| - i
  {
    if i == |t.children[s]| then 0
    else 1 + CountDescendants(t, t.children[s][i]) + CountFrom(t, s, i + 1)
  }

  /** The children of s in source order: each ends before the next begins. */
  predicate ChildrenSorted(t: Shape, s: ScopeId)
    requires ChildrenAfter(t) && s < |t.own|
  {
    forall i :: 0 <= i < |t.children[s]| - 1 ==>
      RangeOf(t, t.children[s][i]).end <= RangeOf(t, t.children[s][i + 1]).start
  }

  /** c would come after the last child of p: what `verifyThatThisNodeComeAfterItsPriorSibling` checks. */
  predicate AfterLastChild(t: Shape, p: ScopeId, c: ScopeId)
    requires ChildrenAfter(t) && p < |t.own| && c < |t.own|
  {
    |t.children[p]| == 0 || RangeOf(t, t.children[p][|t.children[p]| - 1]).end <= RangeOf(t, c).start
  }

  /** a is d or one of d's ancestors. */
  predicate AncestorOrSelf(t: Shape, a: ScopeId, d: ScopeId)
    requires ParentsBefore(t) && d < |t.own|
    decreases d
  {
    d == a || (t.parent[d].Some? && AncestorOrSelf(t, a, t.parent[d].value))
  }

  /** The widened range encloses the range it starts from and every child's range from i on. */
  lemma {:induction false} WidenEncloses(t: Shape, s: ScopeId, r: Range, i: nat)
    requires ChildrenAfter(t) && s < |t.own| && i <= |t.children[s]|
    ensures WidenForChildren(t, s, r, i).Encloses(r)
    ensures forall j :: i <= j < |t.children[s]| ==> WidenForChildren(t, s, r, i).Encloses(RangeOf(t, t.children[s][j]))
    decreases |t.children[s]| - i
  {
    if i < |t.children[s]| {
      var r' := Hull(r, RangeOf(t, t.children[s][i]));
      WidenEncloses(t, s, r', i + 1);
    }
  }

  /** Each child's range is enclosed in its parent's range. */
  lemma ChildWithinParent(t: Shape, s: ScopeId, i: nat)
    requires ChildrenAfter(t) && s < |t.own| && i < |t.children[s]|
    ensures RangeOf(t, s).Encloses(RangeOf(t, t.children[s][i]))
    ensures RangeOf(t, s).Encloses(t.own[s])
  {
    WidenEncloses(t, s, t.own[s], 0);
  }

  /** Widening by children that already lie inside r changes nothing. */
  lemma {:induction false} WidenWithin(t: Shape, s: ScopeId, r: Range, i: nat)
    requires ChildrenAfter(t) && s < |t.own| && i <= |t.children[s]|
    requires forall j :: i <= j < |t.children[s]| ==> r.Encloses(RangeOf(t, t.children[s][j]))
    ensures WidenForChildren(t, s, r, i) == r
    decreases |t.children[s]| - i
  {
    if i < |t.children[s]| {
      assert Hull(r, RangeOf(t, t.children[s][i])) == r;
      WidenWithin(t, s, r, i + 1);
    }
  }

  /**
   * Lazy expansion keeps the range: a scope that has not been expanded has
   * no children, and if the children its expansion creates (in t') lie
   * within its own range, its range after expansion equals its range before.
   */
  lemma LazyExpansionKeepsRange(t: Shape, t': Shape, s: ScopeId)
    requires ChildrenAfter(t) && ChildrenAfter(t') && s < |t.own| <= |t'.own| && t'.own[s] == t.own[s]
    requires t.children[s] == []
    requires forall j :: 0 <= j < |t'.children[s]| ==> t'.own[s].Encloses(RangeOf(t', t'.children[s][j]))
    ensures RangeOf(t', s) == RangeOf(t, s) == t.own[s]
  {
    WidenWithin(t', s, t'.own[s], 0);
  }

  /** A scope's range encloses the range of each of its descendants. */
  lemma {:induction false} AncestorEncloses(t: Shape, a: ScopeId, d: ScopeId)
    requires ChildrenAfter(t) && ParentsBefore(t) && d < |t.own|
    requires forall c :: 0 <= c < |t.own| && t.parent[c].Some? ==> c in t.children[t.parent[c].value]
    requires AncestorOrSelf(t, a, d)
    ensures a < |t.own| && RangeOf(t, a).Encloses(RangeOf(t, d))
    decreases d
  {
    if d != a {
      var p := t.parent[d].value;
      var i :| 0 <= i < |t.children[p]| && t.children[p][i] == d;
      ChildWithinParent(t, p, i);
      AncestorEncloses(t, a, p);
    }
  }

  /** Every cached range is the range the shape gives its scope. */
  predicate CacheCoherent(t: Shape, cache: seq<Option<Range>>)
  {
    ChildrenAfter(t) && |cache| == |t.own| &&
    forall s :: 0 <= s < |cache| && cache[s].Some? ==> cache[s].value == RangeOf(t, s)
  }

  /**
   * Clearing the caches of p and its ancestors keeps the caches coherent
   * when the change to the shape moved no other scope's range.
   */
  lemma ClearedCoherent(t: Shape, t': Shape, p: ScopeId, cache: seq<Option<Range>>, cache': seq<Option<Range>>)
    requires CacheCoherent(t, cache) && ChildrenAfter(t') && ParentsBefore(t') && |t'.own| == |t.own| && p < |t.own|
    requires forall x :: 0 <= x < |t.own| && !AncestorOrSelf(t', x, p) ==> RangeOf(t', x) == RangeOf(t, x)
    requires |cache'| == |cache| && forall x :: 0 <= x < |cache| ==> cache'[x] == if AncestorOrSelf(t', x, p) then None else cache[x]
    ensures CacheCoherent(t', cache')
  {
  }

  /** A shape extending t's scopes, with the same own range and children on every scope that is not `p` or above it. */
  predicate SameBelow(t: Shape, t': Shape, p: ScopeId)
    requires ParentsBefore(t) && |t.children| == |t.own| && p < |t.own|
  {
    |t.own| <= |t'.own| && |t'.children| == |t'.own| &&
    forall x :: 0 <= x < |t.own| && !AncestorOrSelf(t, x, p) ==> t'.children[x] == t.children[x] && t'.own[x] == t.own[x]
  }

  /** Every parent is an earlier scope: what makes walking up terminate. */
  predicate ParentsBefore(t: Shape)
  {
    |t.parent| == |t.own| &&
    forall c :: 0 <= c < |t.parent| && t.parent[c].Some? ==> t.parent[c].value < c
  }

  /** Parent links agree with the children lists. */
  predicate ParentsAgree(t: Shape)
  {
    ParentsBefore(t) && |t.children| == |t.own| &&
    forall s, i :: 0 <= s < |t.children| && 0 <= i < |t.children[s]| && t.children[s][i] < |t.parent| ==>
      t.parent[t.children[s][i]] == Some(s)
  }

  /**
   * A scope that is neither p nor above p keeps its range and its descendant
   * count when only p and its ancestors change their children or own ranges.
   */
  lemma {:induction false} FrameBelow(t: Shape, t': Shape, p: ScopeId, x: ScopeId)
    requires ChildrenAfter(t) && ChildrenAfter(t') && ParentsAgree(t) && p < |t.own|
    requires SameBelow(t, t', p)
    requires x < |t.own| && !AncestorOrSelf(t, x, p)
    ensures RangeOf(t', x) == RangeOf(t, x)
    ensures CountDescendants(t', x) == CountDescendants(t, x)
    decreases |t.own| - x, 1
  {
    assert t'.own[x] == t.own[x];
    FrameChildren(t, t', p, x, t.own[x], 0);
  }

  lemma {:induction false} FrameChildren(t: Shape, t': Shape, p: ScopeId, x: ScopeId, r: Range, i: nat)
    requires ChildrenAfter(t) && ChildrenAfter(t') && ParentsAgree(t) && p < |t.own|
    requires SameBelow(t, t', p)
    requires x < |t.own| && !AncestorOrSelf(t, x, p) && i <= |t.children[x]|
    ensures t'.children[x] == t.children[x]
    ensures WidenForChildren(t', x, r, i) == WidenForChildren(t, x, r, i)
    ensures CountFrom(t', x, i) == CountFrom(t, x, i)
    decreases |t.own| - x, 0, |t.children[x]| - i
  {
    if i < |t.children[x]| {
      var y := t.children[x][i];
      assert t.parent[y] == Some(x);
      if AncestorOrSelf(t, y, p) {
        AncestorStep(t, x, y, p);
      }
      FrameBelow(t, t', p, y);
      FrameChildren(t, t', p, x, Hull(r, RangeOf(t, y)), i + 1);
    }
  }

  /** If y's parent is x and y is p or above it, then so is x. */
  lemma {:induction false} AncestorStep(t: Shape, x: ScopeId, y: ScopeId, p: ScopeId)
    requires ParentsAgree(t) && p < |t.own| && y < |t.own| && t.parent[y] == Some(x)
    requires AncestorOrSelf(t, y, p)
    ensures AncestorOrSelf(t, x, p)
    decreases p
  {
    if p != y {
      AncestorStep(t, x, y, t.parent[p].value);
    }
  }

  /** Ancestry depends only on the parents of p and the scopes above it. */
  lemma {:induction false} AncestryUpTo(t: Shape, t': Shape, a: ScopeId, p: ScopeId)
    requires ParentsBefore(t) && ParentsBefore(t') && p < |t.own| && p < |t'.own|
    requires t.parent[..p + 1] == t'.parent[..p + 1]
    ensures AncestorOrSelf(t, a, p) == AncestorOrSelf(t', a, p)
    decreases p
  {
    assert t.parent[p] == t.parent[..p + 1][p];
    if t.parent[p].Some? && p != a {
      var q := t.parent[p].value;
      assert t.parent[..q + 1] == t.parent[..p + 1][..q + 1];
      assert t'.parent[..q + 1] == t'.parent[..p + 1][..q + 1];
      AncestryUpTo(t, t', a, q);
    }
  }

  /** Every children list of t is a prefix of the same scope's list in t'. */
  predicate ChildrenGrow(t: Shape, t': Shape)
    requires |t.children| == |t.own| && |t'.children| == |t'.own|
  {
    |t.own| <= |t'.own| &&
    forall y :: 0 <= y < |t.own| ==> |t.children[y]| <= |t'.children[y]| && t'.children[y][..|t.children[y]|] == t.children[y]
  }

  /** Growing children lists at the end never lowers a descendant count. */
  lemma {:induction false} CountGrows(t: Shape, t': Shape, x: ScopeId)
    requires ChildrenAfter(t) && ChildrenAfter(t') && |t.own| <= |t'.own| && x < |t.own|
    requires ChildrenGrow(t, t')
    ensures CountDescendants(t', x) >= CountDescendants(t, x)
    decreases |t.own| - x, 1
  {
    CountFromGrows(t, t', x, 0);
  }

  lemma {:induction false} CountFromGrows(t: Shape, t': Shape, x: ScopeId, i: nat)
    requires ChildrenAfter(t) && ChildrenAfter(t') && |t.own| <= |t'.own| && x < |t.own|
    requires ChildrenGrow(t, t')
    requires i <= |t.children[x]|
    ensures CountFrom(t', x, i) >= CountFrom(t, x, i)
    decreases |t.own| - x, 0, |t.children[x]| - i
  {
    if i < |t.children[x]| {
      assert t'.children[x][i] == t'.children[x][..|t.children[x]|][i];
      CountGrows(t, t', t.children[x][i]);
      CountFromGrows(t, t', x, i + 1);
    } else {
      assert CountFrom(t', x, i) >= 0;
    }
  }

  /** The count of a leaf is zero, and a child appended to p adds that child and its descendants. */
  lemma {:induction false} CountFromAppend(t: Shape, x: ScopeId, i: nat, n: nat)
    requires ChildrenAfter(t) && x < |t.own| && i <= n <= |t.children[x]|
    ensures CountFrom(t, x, i) == CountRange(t, x, i, n) + CountFrom(t, x, n)
    decreases n - i
  {
    if i < n {
      CountFromAppend(t, x, i + 1, n);
    }
  }

  function CountRange(t: Shape, x: ScopeId, i: nat, n: nat): nat
    requires ChildrenAfter(t) && x < |t.own| && i <= n <= |t.children[x]|
    decreases n - i
  {
    if i == n then 0 else 1 + CountDescendants(t, t.children[x][i]) + CountRange(t, x, i + 1, n)
  }

  // ---------------------------------------------------------------------
  // Lookup along the lookup-parent chain
  // ---------------------------------------------------------------------

  /**
   * The scopes a lookup visits from `cur`: each is looked in, until one
   * reports that lookup is done, the chain ends, or the next scope is the
   * limit, which is never entered.
   */
  function LookupPath(lookupParent: seq<Option<ScopeId>>, cur: ScopeId, limit: Option<ScopeId>, done: set<ScopeId>): (path: seq<ScopeId>)
    requires cur < |lookupParent|
    requires forall s :: 0 <= s < |lookupParent| && lookupParent[s].Some? ==> lookupParent[s].value < s
    ensures forall k :: 0 <= k < |path| ==> path[k] <= cur
    decreases cur
  {
    if limit == Some(cur) then []
    else if cur in done || lookupParent[cur].None? then [cur]
    else [cur] + LookupPath(lookupParent, lookupParent[cur].value, limit, done)
  }

  /** What a lookup path is: a lookup-parent chain that avoids the limit and stops at the first done scope. */
  lemma {:induction false} LookupPathShape(lookupParent: seq<Option<ScopeId>>, cur: ScopeId, limit: Option<ScopeId>, done: set<ScopeId>)
    requires cur < |lookupParent|
    requires forall s :: 0 <= s < |lookupParent| && lookupParent[s].Some? ==> lookupParent[s].value < s
    ensures var path := LookupPath(lookupParent, cur, limit, done);
      (|path| == 0 <==> limit == Some(cur)) &&
      (|path| > 0 ==> path[0] == cur) &&
      (forall k :: 0 <= k < |path| ==> path[k] < |lookupParent| && limit != Some(path[k])) &&
      (forall k :: 0 <= k < |path| - 1 ==> path[k] !in done && lookupParent[path[k]] == Some(path[k + 1])) &&
      (|path| > 0 ==> var last := path[|path| - 1];
         last in done || lookupParent[last].None? || lookupParent[last] == limit)
    decreases cur
  {
    if limit != Some(cur) && cur !in done && lookupParent[cur].Some? {
      var next := lookupParent[cur].value;
      LookupPathShape(lookupParent, next, limit, done);
      var rest := LookupPath(lookupParent, next, limit, done);
      var path := LookupPath(lookupParent, cur, limit, done);
      assert path == [cur] + rest;
      forall k | 0 <= k < |path| - 1
        ensures path[k] !in done && lookupParent[path[k]] == Some(path[k + 1])
      {
        if k > 0 { assert path[k] == rest[k - 1] && path[k + 1] == rest[k]; }
      }
      forall k | 0 <= k < |path| ensures path[k] < |lookupParent| && limit != Some(path[k]) {
        if k > 0 { assert path[k] == rest[k - 1]; }
      }
    }
  }

  /**
   * The generic parameter lists searched along a path, remembering the last
   * list searched so that the same list is not searched again straight away.
   */
  function SearchedLists(generics: seq<Option<ListId>>, path: seq<ScopeId>, last: Option<ListId>): seq<ListId>
    requires forall k :: 0 <= k < |path| ==> path[k] < |generics|
    decreases |path|
  {
    if |path| == 0 then []
    else
      var g := generics[path[0]];
      if g.Some? && g != last then [g.value] + SearchedLists(generics, path[1..], g)
      else SearchedLists(generics, path[1..], if g.Some? then g else last)
  }

  /** Every searched list belongs to a scope on the path, and no list is searched twice in a row. */
  lemma {:induction false} SearchedListsNoRepeat(generics: seq<Option<ListId>>, path: seq<ScopeId>, last: Option<ListId>)
    requires forall k :: 0 <= k < |path| ==> path[k] < |generics|
    ensures var r := SearchedLists(generics, path, last);
      (|r| > 0 ==> Some(r[0]) != last) &&
      (forall k :: 0 <= k < |r| - 1 ==> r[k] != r[k + 1]) &&
      (forall k :: 0 <= k < |r| ==> exists j :: 0 <= j < |path| && generics[path[j]] == Some(r[k]))
    decreases |path|
  {
    if |path| > 0 {
      var g := generics[path[0]];
      var next := if g.Some? then g else last;
      SearchedListsNoRepeat(generics, path[1..], next);
      var rest := SearchedLists(generics, path[1..], next);
      var r := SearchedLists(generics, path, last);
      forall k | 0 <= k < |r| ensures exists j :: 0 <= j < |path| && generics[path[j]] == Some(r[k]) {
        if g.Some? && g != last {
          if k == 0 {
            assert generics[path[0]] == Some(r[k]);
          } else {
            assert r[k] == rest[k - 1];
            var j :| 0 <= j < |path[1..]| && generics[path[1..][j]] == Some(rest[k - 1]);
            assert path[1..][j] == path[j + 1];
          }
        } else {
          var j :| 0 <= j < |path[1..]| && generics[path[1..][j]] == Some(rest[k]);
          assert path[1..][j] == path[j + 1];
        }
      }
    }
  }

  // ---------------------------------------------------------------------
  // The tree
  // ---------------------------------------------------------------------

  /**
   * What a scope tree keeps: one entry per scope in every field, own ranges
   * made of node and ignored-node ranges, a well-formed parent/child
   * structure, diversions that point to earlier scopes, 32-bit ancestor
   * counters, and cached ranges that are right.
   */
  ghost predicate TreeInvariant(t: Shape, kind: seq<ScopeKind>, generics: seq<Option<ListId>>, wasExpanded: seq<bool>,
                                ancestorCount: seq<nat>, cachedRange: seq<Option<Range>>,
                                nodeRange: seq<Range>, ignored: seq<Option<Range>>)
  {
    var n := |t.own|;
    |t.parent| == n && |t.children| == n && |kind| == n && |generics| == n &&
    |wasExpanded| == n && |ancestorCount| == n && |cachedRange| == n &&
    |nodeRange| == n && |ignored| == n &&
    (forall s :: 0 <= s < n ==> t.own[s] == WidenForIgnored(nodeRange[s], ignored[s])) &&
    ChildrenAfter(t) && ParentsAgree(t) &&
    (forall c :: 0 <= c < n && t.parent[c].Some? ==> c in t.children[t.parent[c].value]) &&
    (forall s :: 0 <= s < n ==> Distinct(t.children[s])) &&
    (forall s :: 0 <= s < n && kind[s].Diversion? && kind[s].lookupParent.Some? ==> kind[s].lookupParent.value < s) &&
    (forall s :: 0 <= s < n ==> ancestorCount[s] < TWO_32) &&
    CacheCoherent(t, cachedRange)
  }

  /** Appending a fresh root scope keeps the tree invariant and every old range. */
  lemma NewScopeKeepsInvariant(t: Shape, kind: seq<ScopeKind>, generics: seq<Option<ListId>>, wasExpanded: seq<bool>,
                               ancestorCount: seq<nat>, cachedRange: seq<Option<Range>>,
                               nodeRange: seq<Range>, ignored: seq<Option<Range>>,
                               range: Range, k: ScopeKind, genericList: Option<ListId>)
    requires TreeInvariant(t, kind, generics, wasExpanded, ancestorCount, cachedRange, nodeRange, ignored)
    requires k.Diversion? && k.lookupParent.Some? ==> k.lookupParent.value < |t.own|
    ensures var t' := Shape(t.parent + [None], t.children + [[]], t.own + [range]);
      TreeInvariant(t', kind + [k], generics + [genericList], wasExpanded + [false], ancestorCount + [0],
                    cachedRange + [None], nodeRange + [range], ignored + [None]) &&
      RangeOf(t', |t.own|) == range &&
      forall x :: 0 <= x < |t.own| ==> RangeOf(t', x) == RangeOf(t, x)
  {
    NewScopeCoherent(t, range, cachedRange);
  }

  class ScopeTree {
    /** `parent`, null at a root. */
    var parent: seq<Option<ScopeId>>
    /** `storedChildren`, in source order. */
    var children: seq<seq<ScopeId>>
    /** `getSourceRangeOfThisAstNode`. */
    var nodeRange: seq<Range>
    /** `sourceRangeOfIgnoredASTNodes`, None while it is not a valid range. */
    var ignored: seq<Option<Range>>
    /**
     * The node's range widened by its ignored nodes: the part of a scope's
     * range that does not come from its children, kept alongside the two
     * fields it is computed from.
     */
    var own: seq<Range>
    var kind: seq<ScopeKind>
    /** `genericParams`. */
    var generics: seq<Option<ListId>>
    var wasExpanded: seq<bool>
    /** `astAncestorScopeCount`, an unsigned 32-bit counter. */
    var ancestorCount: seq<nat>
    /** `cachedSourceRange`. */
    var cachedRange: seq<Option<Range>>

    /** The parents, children and own ranges of the whole tree. */
    function Snapshot(): Shape
      reads this`parent, this`children, this`own
    {
      Shape(parent, children, own)
    }

    ghost predicate Valid()
      reads this
    {
      TreeInvariant(Snapshot(), kind, generics, wasExpanded, ancestorCount, cachedRange, nodeRange, ignored)
    }

    constructor ()
      ensures Valid() && |own| == 0
    {
      parent := [];
      children := [];
      own := [];
      nodeRange := [];
      ignored := [];
      kind := [];
      generics := [];
      wasExpanded := [];
      ancestorCount := [];
      cachedRange := [];
    }

    function Size(): nat
      reads this
    {
      |own|
    }

    /** A new scope: no parent, no children, no ignored nodes, not expanded, nothing cached. */
    method NewScope(range: Range, k: ScopeKind, genericList: Option<ListId>) returns (s: ScopeId)
      requires Valid()
      requires k.Diversion? && k.lookupParent.Some? ==> k.lookupParent.value < |own|
      modifies this
      ensures Valid() && s == old(|own|) && |own| == s + 1
      ensures parent == old(parent) + [None] && children == old(children) + [[]] && own == old(own) + [range]
      ensures kind == old(kind) + [k] && generics == old(generics) + [genericList]
      ensures wasExpanded == old(wasExpanded) + [false] && ancestorCount == old(ancestorCount) + [0]
      ensures cachedRange == old(cachedRange) + [None]
      ensures nodeRange == old(nodeRange) + [range] && ignored == old(ignored) + [None]
      ensures RangeOf(Snapshot(), s) == range
      ensures forall x :: 0 <= x < s ==> RangeOf(Snapshot(), x) == RangeOf(old(Snapshot()), x)
    {
      ghost var t := Snapshot();
      NewScopeKeepsInvariant(t, kind, generics, wasExpanded, ancestorCount, cachedRange, nodeRange, ignored, range, k, genericList);
      s := |own|;
      parent := parent + [None];
      children := children + [[]];
      own := own + [range];
      nodeRange := nodeRange + [range];
      ignored := ignored + [None];
      kind := kind + [k];
      generics := generics + [genericList];
      wasExpanded := wasExpanded + [false];
      ancestorCount := ancestorCount + [0];
      cachedRange := cachedRange + [None];
      assert Snapshot() == Shape(t.parent + [None], t.children + [[]], t.own + [range]);
    }

    /** The tree parent: `getParent`. */
    function GetParent(s: ScopeId): Option<ScopeId>
      reads this
      requires Valid() && s < |own|
    {
      parent[s]
    }

    function GetChildren(s: ScopeId): seq<ScopeId>
      reads this
      requires Valid() && s < |own|
    {
      children[s]
    }

    function GetWasExpanded(s: ScopeId): bool
      reads this
      requires Valid() && s < |own|
    {
      wasExpanded[s]
    }

    function GetAstAncestorScopeCount(s: ScopeId): nat
      reads this
      requires Valid() && s < |own|
    {
      ancestorCount[s]
    }

    /** `parentIfNotChildOfTopScope`: the parent, unless the parent is a root. */
    function ParentIfNotChildOfTopScope(s: ScopeId): (r: Option<ScopeId>)
      reads this
      requires Valid() && s < |own| && parent[s].Some?
      ensures r.Some? <==> parent[parent[s].value].Some?
      ensures r.Some? ==> r == parent[s]
    {
      var p := parent[s].value;
      if parent[p].Some? then Some(p) else None
    }

    /** `getLookupParent`: the tree parent, or a diversion's stored scope. */
    function GetLookupParent(s: ScopeId): (r: Option<ScopeId>)
      reads this
      requires Valid() && s < |own|
      ensures kind[s].Ordinary? ==> r == parent[s]
      ensures kind[s].Diversion? ==> r == kind[s].lookupParent
      ensures r.Some? ==> r.value < s
    {
      match kind[s]
      case Ordinary => parent[s]
      case Diversion(lp) => lp
    }

    /** The lookup parent of every scope, as one sequence. */
    function LookupParents(): (r: seq<Option<ScopeId>>)
      reads this
      requires Valid()
      ensures |r| == |own| && forall s :: 0 <= s < |r| ==> r[s] == GetLookupParent(s)
      ensures forall s :: 0 <= s < |r| && r[s].Some? ==> r[s].value < s
    {
      var k := kind;
      var pa := parent;
      seq(|k|, s requires 0 <= s < |k| && |pa| == |k| => if k[s].Diversion? then k[s].lookupParent else pa[s])
    }

    /** `setWasExpanded`: the flag only ever becomes true. */
    method SetWasExpanded(s: ScopeId)
      requires Valid() && s < |own|
      modifies this
      ensures Valid() && wasExpanded == old(wasExpanded)[s := true]
      ensures parent == old(parent) && children == old(children) && own == old(own) && nodeRange == old(nodeRange) && ignored == old(ignored) && kind == old(kind)
      ensures generics == old(generics) && ancestorCount == old(ancestorCount) && cachedRange == old(cachedRange)
    {
      wasExpanded := wasExpanded[s := true];
    }

    /** `increaseASTAncestorScopeCount`: unsigned addition, wrapping at 2^32. */
    method IncreaseAstAncestorScopeCount(s: ScopeId, c: nat)
      requires Valid() && s < |own| && c < TWO_32
      modifies this
      ensures Valid() && ancestorCount == old(ancestorCount)[s := (old(ancestorCount[s]) + c) % TWO_32]
      ensures old(ancestorCount[s]) + c < TWO_32 ==> ancestorCount[s] == old(ancestorCount[s]) + c
      ensures parent == old(parent) && children == old(children) && own == old(own) && nodeRange == old(nodeRange) && ignored == old(ignored) && kind == old(kind)
      ensures generics == old(generics) && wasExpanded == old(wasExpanded) && cachedRange == old(cachedRange)
    {
      ancestorCount := ancestorCount[s := (ancestorCount[s] + c) % TWO_32];
    }

    /** `resetASTAncestorScopeCount`. */
    method ResetAstAncestorScopeCount(s: ScopeId)
      requires Valid() && s < |own|
      modifies this
      ensures Valid() && ancestorCount == old(ancestorCount)[s := 0]
      ensures parent == old(parent) && children == old(children) && own == old(own) && nodeRange == old(nodeRange) && ignored == old(ignored) && kind == old(kind)
      ensures generics == old(generics) && wasExpanded == old(wasExpanded) && cachedRange == old(cachedRange)
    {
      ancestorCount := ancestorCount[s := 0];
    }

    /**
     * `clearCachedSourceRangesOfMeAndAncestors`: walk up the parent chain
     * dropping each cached range.
     */
    method ClearCachedSourceRangesOfMeAndAncestors(s: ScopeId)
      requires ParentsBefore(Snapshot()) && |cachedRange| == |own| && s < |own|
      modifies this`cachedRange
      ensures parent == old(parent) && children == old(children) && own == old(own) && nodeRange == old(nodeRange) && ignored == old(ignored) && kind == old(kind)
      ensures |cachedRange| == |own| && forall x :: 0 <= x < |own| ==>
                cachedRange[x] == if AncestorOrSelf(Snapshot(), x, s) then None else old(cachedRange[x])
      ensures generics == old(generics) && wasExpanded == old(wasExpanded) && ancestorCount == old(ancestorCount)
    {
      ghost var t := Snapshot();
      var cur: Option<ScopeId> := Some(s);
      while cur.Some?
        invariant t == Snapshot()
        invariant |cachedRange| == |own| && (cur.Some? ==> cur.value <= s && AncestorOrSelf(t, cur.value, s))
        invariant forall x :: 0 <= x < |own| ==>
          cachedRange[x] == (if AncestorOrSelf(t, x, s) && (cur.None? || !AncestorOrSelf(t, x, cur.value))
                             then None else old(cachedRange[x]))
        decreases if cur.Some? then cur.value + 1 else 0
      {
        var c := cur.value;
        ghost var before := cachedRange;
        cachedRange := cachedRange[c := None];
        cur := parent[c];
        forall x | 0 <= x < |own|
          ensures cachedRange[x] == (if AncestorOrSelf(t, x, s) && (cur.None? || !AncestorOrSelf(t, x, cur.value))
                                     then None else old(cachedRange[x]))
        {
          assert before[x] == (if AncestorOrSelf(t, x, s) && !AncestorOrSelf(t, x, c) then None else old(cachedRange[x]));
          assert AncestorOrSelf(t, x, c) == (x == c || (cur.Some? && AncestorOrSelf(t, x, cur.value)));
          if cur.Some? && AncestorOrSelf(t, x, cur.value) {
            AncestorBelow(t, x, cur.value);
          }
        }
        if cur.Some? {
          AncestorTransitive(t, cur.value, c, s);
        }
      }
    }

    /**
     * `addChild`: a parentless scope created after p joins the end of p's
     * children; p's and its ancestors' cached ranges are cleared.
     */
    method AddChild(p: ScopeId, c: ScopeId)
      requires Valid() && p < c < |own| && parent[c].None?
      modifies this`parent, this`children, this`cachedRange
      ensures Valid()
      ensures children == old(children)[p := old(children[p]) + [c]] && parent == old(parent)[c := Some(p)]
      ensures own == old(own) && nodeRange == old(nodeRange) && ignored == old(ignored) && kind == old(kind) && generics == old(generics)
      ensures wasExpanded == old(wasExpanded) && ancestorCount == old(ancestorCount)
      ensures forall x :: 0 <= x < |own| && !AncestorOrSelf(Snapshot(), x, p) ==>
                RangeOf(Snapshot(), x) == RangeOf(old(Snapshot()), x) && cachedRange[x] == old(cachedRange[x])
      ensures forall x :: 0 <= x < |own| ==> CountDescendants(Snapshot(), x) >= CountDescendants(old(Snapshot()), x)
      ensures CountDescendants(Snapshot(), p) == CountDescendants(old(Snapshot()), p) + 1 + CountDescendants(old(Snapshot()), c)
      ensures old(ChildrenSorted(Snapshot(), p)) && old(AfterLastChild(Snapshot(), p, c)) ==> ChildrenSorted(Snapshot(), p)
    {
      ghost var t := Snapshot();
      children := children[p := children[p] + [c]];
      parent := parent[c := Some(p)];
      AddChildFacts(t, Snapshot(), p, c);
      ClearCachedSourceRangesOfMeAndAncestors(p);
      ClearedCoherent(t, Snapshot(), p, old(cachedRange), cachedRange);
      if ChildrenSorted(t, p) && AfterLastChild(t, p, c) {
        AddChildSorted(t, Snapshot(), p, c);
      }
    }

    /**
     * `disownDescendants` one level deep: every child is emancipated, then
     * `removeChildren` clears the cached ranges of p and its ancestors and
     * empties p's children.
     */
    method DisownChildren(p: ScopeId)
      requires Valid() && p < |own|
      modifies this`parent, this`children, this`cachedRange
      ensures Valid()
      ensures children == old(children)[p := []]
      ensures forall c :: 0 <= c < |own| ==> parent[c] == if c in old(children[p]) then None else old(parent[c])
      ensures own == old(own) && nodeRange == old(nodeRange) && ignored == old(ignored) && kind == old(kind) && generics == old(generics)
      ensures wasExpanded == old(wasExpanded) && ancestorCount == old(ancestorCount)
      ensures RangeOf(Snapshot(), p) == own[p]
      ensures forall x :: 0 <= x < |own| && !AncestorOrSelf(Snapshot(), x, p) ==>
                RangeOf(Snapshot(), x) == RangeOf(old(Snapshot()), x) && cachedRange[x] == old(cachedRange[x])
    {
      ghost var t := Snapshot();
      var kids := children[p];
      var i := 0;
      while i < |kids|
        invariant 0 <= i <= |kids| && |parent| == |own|
        invariant children == t.children && cachedRange == old(cachedRange)
        invariant forall c :: 0 <= c < |own| ==> parent[c] == if c in kids[..i] then None else t.parent[c]
      {
        assert kids[..i + 1] == kids[..i] + [kids[i]];
        parent := parent[kids[i] := None];
        i := i + 1;
      }
      assert kids[..i] == kids;
      ghost var t1 := Snapshot();
      DisownedParents(t, t1, p);
      ClearCachedSourceRangesOfMeAndAncestors(p);
      children := children[p := []];
      DisownedFacts(t, t1, Snapshot(), p);
      ClearedCoherent(t, Snapshot(), p, old(cachedRange), cachedRange);
    }

    /** `getSourceRangeOfScope`: the cached range if there is one, otherwise computed and cached. */
    method GetSourceRangeOfScope(s: ScopeId) returns (r: Range)
      requires Valid() && s < |own|
      modifies this`cachedRange
      ensures parent == old(parent) && children == old(children) && own == old(own) && nodeRange == old(nodeRange) && ignored == old(ignored) && kind == old(kind)
      ensures Valid() && r == RangeOf(Snapshot(), s)
      ensures r.Encloses(nodeRange[s]) && (ignored[s].Some? ==> r.Encloses(ignored[s].value))
      ensures forall i :: 0 <= i < |children[s]| ==> r.Encloses(RangeOf(Snapshot(), children[s][i]))
      ensures cachedRange == old(cachedRange)[s := Some(r)]
      ensures generics == old(generics) && wasExpanded == old(wasExpanded) && ancestorCount == old(ancestorCount)
    {
      WidenEncloses(Snapshot(), s, own[s], 0);
      if cachedRange[s].Some? {
        r := cachedRange[s].value;
        return;
      }
      r := RangeOf(Snapshot(), s);
      cachedRange := cachedRange[s := Some(r)];
    }

    /**
     * `widenSourceRangeForIgnoredAstNode`: a node that forms no scope of its
     * own still counts towards the scope's range. Its range joins the
     * ignored-node range, and the cached ranges of the scope and of its
     * ancestors, which may now be too small, are cleared.
     */
    method WidenSourceRangeForIgnoredAstNode(s: ScopeId, node: Range)
      requires Valid() && s < |own|
      modifies this`ignored, this`own, this`cachedRange
      ensures Valid()
      ensures ignored == old(ignored)[s := Some(if old(ignored[s]).Some? then Hull(old(ignored[s].value), node) else node)]
      ensures own == old(own)[s := Hull(old(own[s]), node)]
      ensures nodeRange == old(nodeRange) && parent == old(parent) && children == old(children) && kind == old(kind)
      ensures generics == old(generics) && wasExpanded == old(wasExpanded) && ancestorCount == old(ancestorCount)
      ensures forall a :: 0 <= a < |own| && AncestorOrSelf(Snapshot(), a, s) ==>
                RangeOf(Snapshot(), a).Encloses(node) && cachedRange[a] == None
      ensures forall x :: 0 <= x < |own| && !AncestorOrSelf(Snapshot(), x, s) ==>
                RangeOf(Snapshot(), x) == RangeOf(old(Snapshot()), x) && cachedRange[x] == old(cachedRange[x])
    {
      ghost var t := Snapshot();
      WidenOwnFacts(t, s, node);
      var widened := if ignored[s].Some? then Hull(ignored[s].value, node) else node;
      ignored := ignored[s := Some(widened)];
      own := own[s := WidenForIgnored(nodeRange[s], Some(widened))];
      assert own[s] == Hull(t.own[s], node);
      ClearCachedSourceRangesOfMeAndAncestors(s);
      ClearedCoherent(t, Snapshot(), s, old(cachedRange), cachedRange);
    }

    /**
     * `lookup`, iterated: look in each scope along the lookup-parent chain,
     * searching its generic parameters unless they are the list searched
     * last, and stop when a scope reports done, the chain ends, or the next
     * scope is the limit. `done` stands for the scopes whose
     * `lookupLocalsOrMembers` reports that lookup is done.
     */
    method Lookup(start: ScopeId, limit: Option<ScopeId>, done: set<ScopeId>, lastListSearched: Option<ListId>)
      returns (history: seq<ScopeId>, searched: seq<ListId>)
      requires Valid() && start < |own|
      ensures history == LookupPath(LookupParents(), start, limit, done)
      ensures forall k :: 0 <= k < |history| ==> history[k] < |generics|
      ensures searched == SearchedLists(generics, history, lastListSearched)
    {
      var lp := LookupParents();
      history, searched := LookupWalk(lp, generics, start, limit, done, lastListSearched);
    }
  }

  /** The loop behind `ScopeTree.Lookup`, over the lookup parents and generic lists of every scope. */
  method LookupWalk(lp: seq<Option<ScopeId>>, generics: seq<Option<ListId>>, start: ScopeId, limit: Option<ScopeId>,
                    done: set<ScopeId>, lastListSearched: Option<ListId>)
    returns (history: seq<ScopeId>, searched: seq<ListId>)
    requires start < |lp| == |generics|
    requires forall s :: 0 <= s < |lp| && lp[s].Some? ==> lp[s].value < s
    ensures history == LookupPath(lp, start, limit, done)
    ensures forall k :: 0 <= k < |history| ==> history[k] < |generics|
    ensures searched == SearchedLists(generics, history, lastListSearched)
  {
    ghost var whole := LookupPath(lp, start, limit, done);
    ghost var wholeSearched := SearchedLists(generics, whole, lastListSearched);
    history := [];
    searched := [];
    var last := lastListSearched;
    var cur: ScopeId := start;
    while true
      invariant cur < |lp| && WalkInv(lp, generics, limit, done, cur, last, history, searched, whole, wholeSearched)
      decreases cur
    {
      if limit == Some(cur) {
        assert history == whole;
        return;
      }
      WalkStep(lp, generics, limit, done, cur, last, history, searched, whole, wholeSearched);
      var g := generics[cur];
      history := history + [cur];
      if g.Some? && g != last {
        searched := searched + [g.value];
      }
      if g.Some? {
        last := g;
      }
      if cur in done || lp[cur].None? {
        return;
      }
      cur := lp[cur].value;
    }
  }

  /** What the lookup walk keeps: the visited scopes and searched lists so far, followed by the rest of the walk from cur, are the whole walk. */
  predicate WalkInv(lp: seq<Option<ScopeId>>, generics: seq<Option<ListId>>, limit: Option<ScopeId>, done: set<ScopeId>,
                    cur: ScopeId, last: Option<ListId>, history: seq<ScopeId>, searched: seq<ListId>,
                    whole: seq<ScopeId>, wholeSearched: seq<ListId>)
    requires cur < |lp| == |generics|
    requires forall s :: 0 <= s < |lp| && lp[s].Some? ==> lp[s].value < s
  {
    (forall k :: 0 <= k < |history| ==> history[k] < |generics|) &&
    history + LookupPath(lp, cur, limit, done) == whole &&
    searched + SearchedLists(generics, LookupPath(lp, cur, limit, done), last) == wholeSearched
  }

  lemma WalkStep(lp: seq<Option<ScopeId>>, generics: seq<Option<ListId>>, limit: Option<ScopeId>, done: set<ScopeId>,
                 cur: ScopeId, last: Option<ListId>, history: seq<ScopeId>, searched: seq<ListId>,
                 whole: seq<ScopeId>, wholeSearched: seq<ListId>)
    requires cur < |lp| == |generics|
    requires forall s :: 0 <= s < |lp| && lp[s].Some? ==> lp[s].value < s
    requires limit != Some(cur)
    requires WalkInv(lp, generics, limit, done, cur, last, history, searched, whole, wholeSearched)
    ensures var g := generics[cur];
      var history' := history + [cur];
      var searched' := if g.Some? && g != last then searched + [g.value] else searched;
      var last' := if g.Some? then g else last;
      if cur in done || lp[cur].None? then history' == whole && searched' == wholeSearched
      else WalkInv(lp, generics, limit, done, lp[cur].value, last', history', searched', whole, wholeSearched)
  {
    var rest := LookupPathUnfold(lp, cur, limit, done);
    SearchedListsCons(generics, cur, rest, last);
    ConcatAssoc(history, [cur], rest);
    var g := generics[cur];
    var pre := if g.Some? && g != last then [g.value] else [];
    ConcatAssoc(searched, pre, SearchedLists(generics, rest, if g.Some? then g else last));
  }

  /** One step of a lookup path that does not start at the limit. */
  lemma LookupPathUnfold(lp: seq<Option<ScopeId>>, cur: ScopeId, limit: Option<ScopeId>, done: set<ScopeId>)
    returns (rest: seq<ScopeId>)
    requires cur < |lp| && limit != Some(cur)
    requires forall s :: 0 <= s < |lp| && lp[s].Some? ==> lp[s].value < s
    ensures LookupPath(lp, cur, limit, done) == [cur] + rest
    ensures cur !in done && lp[cur].Some? ==> rest == LookupPath(lp, lp[cur].value, limit, done)
    ensures cur in done || lp[cur].None? ==> rest == []
    ensures forall k :: 0 <= k < |rest| ==> rest[k] < cur
  {
    if cur in done || lp[cur].None? {
      rest := [];
    } else {
      rest := LookupPath(lp, lp[cur].value, limit, done);
    }
  }

  lemma ConcatAssoc<T>(a: seq<T>, b: seq<T>, c: seq<T>)
    ensures a + b + c == a + (b + c)
  {
  }

  /** Searching along a path that starts at cur: cur's list first, unless it was the last one searched. */
  lemma SearchedListsCons(generics: seq<Option<ListId>>, cur: ScopeId, rest: seq<ScopeId>, last: Option<ListId>)
    requires cur < |generics| && forall k :: 0 <= k < |rest| ==> rest[k] < |generics|
    ensures var g := generics[cur];
      SearchedLists(generics, [cur] + rest, last) ==
        (if g.Some? && g != last then [g.value] else []) + SearchedLists(generics, rest, if g.Some? then g else last)
  {
    assert ([cur] + rest)[1..] == rest;
  }

  predicate Distinct(s: seq<ScopeId>)
  {
    forall i, j :: 0 <= i < j < |s| ==> s[i] != s[j]
  }

  // ---------------------------------------------------------------------
  // Facts the tree operations rely on
  // ---------------------------------------------------------------------

  lemma {:induction false} AncestorStepUp(t: Shape, x: ScopeId, c: ScopeId)
    requires ParentsBefore(t) && c < |t.own| && t.parent[c].Some?
    requires AncestorOrSelf(t, x, t.parent[c].value)
    ensures AncestorOrSelf(t, x, c)
  {
  }

  /** Ancestry is transitive. */
  lemma {:induction false} AncestorTransitive(t: Shape, a: ScopeId, b: ScopeId, d: ScopeId)
    requires ParentsBefore(t) && d < |t.own| && b < |t.own|
    requires AncestorOrSelf(t, b, d) && t.parent[b] == Some(a)
    ensures AncestorOrSelf(t, a, d) && a <= d
    decreases d
  {
    if d != b {
      AncestorTransitive(t, a, b, t.parent[d].value);
    }
  }

  /** Appending a parentless, childless scope keeps the tree well formed and every old range. */
  lemma NewScopeShape(t: Shape, range: Range)
    requires ChildrenAfter(t) && ParentsAgree(t)
    ensures var t' := Shape(t.parent + [None], t.children + [[]], t.own + [range]);
      ChildrenAfter(t') && ParentsAgree(t') &&
      forall x :: 0 <= x < |t.own| ==> RangeOf(t', x) == RangeOf(t, x)
  {
    var t' := Shape(t.parent + [None], t.children + [[]], t.own + [range]);
    assert t'.own[..|t.own|] == t.own && t'.children[..|t.own|] == t.children;
    forall x | 0 <= x < |t.own| ensures RangeOf(t', x) == RangeOf(t, x) {
      NewScopeFrame(t, t', x);
    }
  }

  /** A new scope has nothing cached, and every old cache stays right. */
  lemma NewScopeCoherent(t: Shape, range: Range, cache: seq<Option<Range>>)
    requires ChildrenAfter(t) && ParentsAgree(t) && CacheCoherent(t, cache)
    ensures var t' := Shape(t.parent + [None], t.children + [[]], t.own + [range]);
      ChildrenAfter(t') && ParentsAgree(t') && CacheCoherent(t', cache + [None]) &&
      RangeOf(t', |t.own|) == range &&
      forall x :: 0 <= x < |t.own| ==> RangeOf(t', x) == RangeOf(t, x)
  {
    NewScopeShape(t, range);
  }

  lemma NewScopeFrame(t: Shape, t': Shape, x: ScopeId)
    requires ChildrenAfter(t) && ChildrenAfter(t') && x < |t.own| <= |t'.own|
    requires t'.own[..|t.own|] == t.own && t'.children[..|t.own|] == t.children
    ensures RangeOf(t', x) == RangeOf(t, x)
    decreases |t.own| - x, 1
  {
    NewScopeFrameChildren(t, t', x, t.own[x], 0);
  }

  lemma {:induction false} NewScopeFrameChildren(t: Shape, t': Shape, x: ScopeId, r: Range, i: nat)
    requires ChildrenAfter(t) && ChildrenAfter(t') && x < |t.own| <= |t'.own|
    requires t'.own[..|t.own|] == t.own && t'.children[..|t.own|] == t.children
    requires i <= |t.children[x]|
    ensures WidenForChildren(t', x, r, i) == WidenForChildren(t, x, r, i)
    decreases |t.own| - x, 0, |t.children[x]| - i
  {
    assert t'.children[x] == t'.children[..|t.own|][x];
    assert t'.own[x] == t'.own[..|t.own|][x];
    if i < |t.children[x]| {
      NewScopeFrame(t, t', t.children[x][i]);
      NewScopeFrameChildren(t, t', x, Hull(r, RangeOf(t, t.children[x][i])), i + 1);
    }
  }

  /** What appending c to p's children does to ancestry, ranges and counts. */
  lemma AddChildFacts(t: Shape, t': Shape, p: ScopeId, c: ScopeId)
    requires ChildrenAfter(t) && ParentsAgree(t) && p < c < |t.own| && t.parent[c].None?
    requires forall s :: 0 <= s < |t.own| ==> Distinct(t.children[s])
    requires t' == Shape(t.parent[c := Some(p)], t.children[p := t.children[p] + [c]], t.own)
    ensures ChildrenAfter(t') && ParentsAgree(t') && forall s :: 0 <= s < |t.own| ==> Distinct(t'.children[s])
    ensures forall x :: 0 <= x < |t.own| ==> AncestorOrSelf(t', x, p) == AncestorOrSelf(t, x, p)
    ensures forall x :: 0 <= x < |t.own| && !AncestorOrSelf(t, x, p) ==>
              RangeOf(t', x) == RangeOf(t, x) && CountDescendants(t', x) == CountDescendants(t, x)
    ensures forall x :: 0 <= x < |t.own| ==> CountDescendants(t', x) >= CountDescendants(t, x)
    ensures CountDescendants(t', p) == CountDescendants(t, p) + 1 + CountDescendants(t, c)
  {
    assert c !in t.children[p];
    AddChildShape(t, t', p, c);
    forall x | 0 <= x < |t.own| ensures AncestorOrSelf(t', x, p) == AncestorOrSelf(t, x, p) {
      AncestryUpTo(t, t', x, p);
    }
    forall x | 0 <= x < |t.own| && !AncestorOrSelf(t, x, p)
      ensures RangeOf(t', x) == RangeOf(t, x) && CountDescendants(t', x) == CountDescendants(t, x)
    {
      FrameBelow(t, t', p, x);
    }
    forall x | 0 <= x < |t.own| ensures CountDescendants(t', x) >= CountDescendants(t, x) {
      CountGrows(t, t', x);
    }
    AddChildCount(t, t', p, c);
  }

  /** Appending a child that comes after the last one keeps the children sorted. */
  lemma AddChildSorted(t: Shape, t': Shape, p: ScopeId, c: ScopeId)
    requires ChildrenAfter(t) && ParentsAgree(t) && p < c < |t.own|
    requires t'.children == t.children[p := t.children[p] + [c]] && ChildrenAfter(t')
    requires forall x :: 0 <= x < |t.own| && !AncestorOrSelf(t, x, p) ==> RangeOf(t', x) == RangeOf(t, x)
    requires ChildrenSorted(t, p) && AfterLastChild(t, p, c)
    ensures ChildrenSorted(t', p)
  {
    if AncestorOrSelf(t, c, p) {
      AncestorBelow(t, c, p);
    }
    forall i | 0 <= i < |t.children[p]|
      ensures RangeOf(t', t.children[p][i]) == RangeOf(t, t.children[p][i])
    {
      if AncestorOrSelf(t, t.children[p][i], p) {
        AncestorBelow(t, t.children[p][i], p);
      }
    }
  }

  /** Appending c to p's children keeps the shape's invariants and changes only p's list. */
  lemma AddChildShape(t: Shape, t': Shape, p: ScopeId, c: ScopeId)
    requires ChildrenAfter(t) && ParentsAgree(t) && p < c < |t.own| && t.parent[c].None?
    requires t' == Shape(t.parent[c := Some(p)], t.children[p := t.children[p] + [c]], t.own)
    ensures ChildrenAfter(t') && ParentsAgree(t') && SameBelow(t, t', p)
    ensures ChildrenGrow(t, t')
  {
    assert AncestorOrSelf(t, p, p);
    forall y | 0 <= y < |t.own| ensures t'.children[y][..|t.children[y]|] == t.children[y] {
      if y == p { assert (t.children[p] + [c])[..|t.children[p]|] == t.children[p]; }
    }
    forall s, i | 0 <= s < |t'.children| && 0 <= i < |t'.children[s]| && t'.children[s][i] < |t'.parent|
      ensures t'.parent[t'.children[s][i]] == Some(s)
    {
      if s == p && i == |t.children[p]| {
      } else {
        assert t'.children[s][i] == t.children[s][i];
        assert t.children[s][i] != c;
      }
    }
  }

  lemma AddChildCount(t: Shape, t': Shape, p: ScopeId, c: ScopeId)
    requires ChildrenAfter(t) && ParentsAgree(t) && p < c < |t.own| && t.parent[c].None?
    requires t' == Shape(t.parent[c := Some(p)], t.children[p := t.children[p] + [c]], t.own)
    requires ChildrenAfter(t') && ParentsAgree(t') && SameBelow(t, t', p)
    requires forall x :: 0 <= x < |t.own| && !AncestorOrSelf(t, x, p) ==> CountDescendants(t', x) == CountDescendants(t, x)
    ensures CountDescendants(t', p) == CountDescendants(t, p) + 1 + CountDescendants(t, c)
  {
    var n := |t.children[p]|;
    CountFromAppend(t', p, 0, n);
    CountFromAppend(t, p, 0, n);
    assert CountFrom(t, p, n) == 0;
    assert t'.children[p][n] == c;
    assert CountFrom(t', p, n + 1) == 0;
    if AncestorOrSelf(t, c, p) {
      AncestorBelow(t, c, p);
    }
    assert CountFrom(t', p, n) == 1 + CountDescendants(t, c);
    CountRangeSame(t, t', p, 0, n);
  }

  /** An ancestor is never a later scope. */
  lemma {:induction false} AncestorBelow(t: Shape, a: ScopeId, d: ScopeId)
    requires ParentsBefore(t) && d < |t.own|
    requires AncestorOrSelf(t, a, d)
    ensures a <= d
    decreases d
  {
    if d != a {
      AncestorBelow(t, a, t.parent[d].value);
    }
  }

  lemma {:induction false} CountRangeSame(t: Shape, t': Shape, p: ScopeId, i: nat, n: nat)
    requires ChildrenAfter(t) && ChildrenAfter(t') && ParentsAgree(t) && p < |t.own| <= |t'.own|
    requires n == |t.children[p]| && n <= |t'.children[p]| && t'.children[p][..n] == t.children[p] && i <= n
    requires forall x :: 0 <= x < |t.own| && !AncestorOrSelf(t, x, p) ==> CountDescendants(t', x) == CountDescendants(t, x)
    ensures CountRange(t', p, i, n) == CountRange(t, p, i, n)
    decreases n - i
  {
    if i < n {
      var y := t.children[p][i];
      assert t'.children[p][i] == t'.children[p][..n][i];
      assert t.parent[y] == Some(p);
      if AncestorOrSelf(t, y, p) {
        AncestorBelow(t, y, p);
      }
      CountRangeSame(t, t', p, i + 1, n);
    }
  }

  /** Widening the own range of s moves the ranges of s and its ancestors only, and they all come to enclose the new range. */
  lemma WidenOwnFacts(t: Shape, s: ScopeId, node: Range)
    requires ChildrenAfter(t) && ParentsAgree(t) && s < |t.own|
    requires forall c :: 0 <= c < |t.own| && t.parent[c].Some? ==> c in t.children[t.parent[c].value]
    ensures var t' := Shape(t.parent, t.children, t.own[s := Hull(t.own[s], node)]);
      ChildrenAfter(t') && ParentsAgree(t') &&
      (forall x :: 0 <= x < |t.own| && !AncestorOrSelf(t', x, s) ==> RangeOf(t', x) == RangeOf(t, x)) &&
      (forall a :: 0 <= a < |t.own| && AncestorOrSelf(t', a, s) ==> RangeOf(t', a).Encloses(node))
  {
    var t' := Shape(t.parent, t.children, t.own[s := Hull(t.own[s], node)]);
    assert AncestorOrSelf(t, s, s);
    forall x | 0 <= x < |t.own| && !AncestorOrSelf(t', x, s)
      ensures RangeOf(t', x) == RangeOf(t, x)
    {
      AncestryUpTo(t, t', x, s);
      FrameBelow(t, t', s, x);
    }
    WidenEncloses(t', s, t'.own[s], 0);
    forall a | 0 <= a < |t.own| && AncestorOrSelf(t', a, s)
      ensures RangeOf(t', a).Encloses(node)
    {
      AncestorEncloses(t', a, s);
    }
  }

  /** Emancipating p's children leaves them parentless and everything else as it was. */
  lemma DisownedParents(t: Shape, t1: Shape, p: ScopeId)
    requires ChildrenAfter(t) && ParentsAgree(t) && p < |t.own|
    requires t1.children == t.children && t1.own == t.own && |t1.parent| == |t.parent|
    requires forall c :: 0 <= c < |t.own| ==> t1.parent[c] == if c in t.children[p] then None else t.parent[c]
    ensures ParentsAgree(Shape(t1.parent, t1.children[p := []], t1.own)) && ParentsBefore(t1)
    ensures t1.parent[..p + 1] == t.parent[..p + 1]
  {
    forall c | 0 <= c <= p ensures t1.parent[c] == t.parent[c] {
      assert c !in t.children[p];
    }
    var t' := Shape(t1.parent, t1.children[p := []], t1.own);
    forall s, i | 0 <= s < |t'.children| && 0 <= i < |t'.children[s]| && t'.children[s][i] < |t'.parent|
      ensures t'.parent[t'.children[s][i]] == Some(s)
    {
      var y := t.children[s][i];
      assert t.parent[y] == Some(s);
      assert y !in t.children[p];
    }
  }

  /** What emptying p's children, once they are parentless, does to the tree's shape, ancestry and ranges. */
  lemma DisownedFacts(t: Shape, t1: Shape, t': Shape, p: ScopeId)
    requires ChildrenAfter(t) && ParentsAgree(t) && p < |t.own|
    requires t1.children == t.children && t1.own == t.own && |t1.parent| == |t.parent|
    requires t1.parent[..p + 1] == t.parent[..p + 1] && ParentsBefore(t1)
    requires t' == Shape(t1.parent, t1.children[p := []], t1.own)
    requires ParentsAgree(t')
    ensures ChildrenAfter(t') && RangeOf(t', p) == t.own[p]
    ensures forall x :: 0 <= x < |t.own| ==> AncestorOrSelf(t', x, p) == AncestorOrSelf(t1, x, p)
    ensures forall x :: 0 <= x < |t.own| && !AncestorOrSelf(t1, x, p) ==> RangeOf(t', x) == RangeOf(t, x)
  {
    DisownedShape(t, t1, t', p);
    forall x | 0 <= x < |t.own| && !AncestorOrSelf(t1, x, p)
      ensures RangeOf(t', x) == RangeOf(t, x)
    {
      AncestryUpTo(t, t1, x, p);
      FrameBelow(t, t', p, x);
    }
    forall x | 0 <= x < |t.own| ensures AncestorOrSelf(t', x, p) == AncestorOrSelf(t1, x, p) {
      AncestryUpTo(t1, t', x, p);
    }
  }

  lemma DisownedShape(t: Shape, t1: Shape, t': Shape, p: ScopeId)
    requires ChildrenAfter(t) && ParentsAgree(t) && p < |t.own|
    requires t1.children == t.children && t1.own == t.own && |t1.parent| == |t.parent|
    requires t1.parent[..p + 1] == t.parent[..p + 1]
    requires t' == Shape(t1.parent, t1.children[p := []], t1.own)
    requires ParentsAgree(t')
    ensures ChildrenAfter(t') && SameBelow(t, t', p)
  {
    assert AncestorOrSelf(t, p, p);
  }
}
