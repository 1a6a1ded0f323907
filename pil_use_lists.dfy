/**
 * The intrusive use-lists of include/polarphp/pil/lang/PILValue.h.
 *
 * Every value keeps the head of a singly linked list of the operands that
 * use it (`FirstUse`); each operand keeps the value it uses, the next operand
 * on that list (`NextUse`) and a back pointer to whichever link points at it
 * (`Back`: the value's head or the previous operand's `NextUse`). Values and
 * operands are named by integers; the pointer fields become maps. A ghost map
 * records the list of each value, so that what the pointer surgery does can
 * be stated as a change to that list.
 */
module PilUseLists {
  import W = Wrappers

  type ValueId = nat
  type OpId = nat
  type InstId = nat

  /**
   * `Operand::Back`: where the link that points at this operand lives —
   * nowhere, the value's `FirstUse`, or another operand's `NextUse`.
   */
  datatype BackRef = NoBack | HeadOf(value: ValueId) | NextOf(op: OpId)

  // ---------------------------------------------------------------------
  // Lists of operands
  // ---------------------------------------------------------------------

  /** The list `s` with every occurrence of `o` taken out. */
  function Remove(s: seq<OpId>, o: OpId): (r: seq<OpId>)
    ensures forall x :: x in r <==> x in s && x != o
    ensures |r| <= |s|
  {
    if |s| == 0 then []
    else if s[0] == o then Remove(s[1..], o)
    else [s[0]] + Remove(s[1..], o)
  }

  predicate Distinct(s: seq<OpId>)
  {
    forall i, j :: 0 <= i < j < |s| ==> s[i] != s[j]
  }

  lemma {:induction false} RemoveAbsent(s: seq<OpId>, o: OpId)
    requires o !in s
    ensures Remove(s, o) == s
    decreases |s|
  {
    if |s| > 0 {
      assert s == [s[0]] + s[1..];
      RemoveAbsent(s[1..], o);
    }
  }

  /** In a list without repeats, removing an element cuts out its one position. */
  lemma {:induction false} RemoveAt(s: seq<OpId>, i: nat)
    requires i < |s| && Distinct(s)
    ensures Remove(s, s[i]) == s[..i] + s[i + 1..]
    decreases i
  {
    if i == 0 {
      RemoveAbsent(s[1..], s[0]);
    } else {
      assert s[1..][i - 1] == s[i];
      RemoveAt(s[1..], i - 1);
      assert s[1..][..i - 1] == s[1..i] && s[1..][i..] == s[i + 1..];
      assert s[..i] == [s[0]] + s[1..i];
    }
  }

  /** Every list with `o` taken out. */
  function RemoveAll(uses: map<ValueId, seq<OpId>>, o: OpId): (r: map<ValueId, seq<OpId>>)
    ensures r.Keys == uses.Keys
    ensures forall v :: v in r ==> o !in r[v] && forall x :: x in r[v] <==> x in uses[v] && x != o
  {
    map v | v in uses :: Remove(uses[v], o)
  }

  // ---------------------------------------------------------------------
  // The pointer fields and what they must spell out
  // ---------------------------------------------------------------------

  /** `FirstUse` of each value and `TheValue`, `NextUse`, `Back` of each operand. */
  datatype Links = Links(
    firstUse: map<ValueId, W.Option<OpId>>,
    theValue: map<OpId, W.Option<ValueId>>,
    nextUse: map<OpId, W.Option<OpId>>,
    back: map<OpId, BackRef>)

  function Head(s: seq<OpId>): W.Option<OpId>
  {
    if |s| == 0 then W.None else W.Some(s[0])
  }

  /** What `NextUse` of the i-th use must be. */
  function NextIn(s: seq<OpId>, i: nat): W.Option<OpId>
    requires i < |s|
  {
    if i + 1 < |s| then W.Some(s[i + 1]) else W.None
  }

  /** What `Back` of the i-th use of v must be. */
  function BackIn(v: ValueId, s: seq<OpId>, i: nat): BackRef
    requires i < |s|
  {
    if i == 0 then HeadOf(v) else NextOf(s[i - 1])
  }

  /** The i-th use on the list `s` of v has the fields its position demands and is not `detached`. */
  ghost predicate ElemOk(l: Links, v: ValueId, s: seq<OpId>, i: nat, detached: W.Option<OpId>)
    requires i < |s|
  {
    s[i] in l.theValue && s[i] in l.nextUse && s[i] in l.back && detached != W.Some(s[i]) &&
    l.theValue[s[i]] == W.Some(v) && l.nextUse[s[i]] == NextIn(s, i) && l.back[s[i]] == BackIn(v, s, i)
  }

  /** The pointers of value v spell out the list `s`. */
  ghost predicate Chain(l: Links, v: ValueId, s: seq<OpId>, detached: W.Option<OpId>)
  {
    v in l.firstUse && l.firstUse[v] == Head(s) && Distinct(s) &&
    forall i :: 0 <= i < |s| ==> ElemOk(l, v, s, i, detached)
  }

  /**
   * Operand o is where its fields say: on the list of its value, or, with a
   * null value, on no list with null links. The operand `detached` is exempt:
   * it has been taken off its list and its own links are stale.
   */
  ghost predicate Placed(l: Links, uses: map<ValueId, seq<OpId>>, o: OpId, detached: W.Option<OpId>)
    requires o in l.theValue && o in l.nextUse && o in l.back
  {
    detached == W.Some(o) ||
    match l.theValue[o]
    case None => l.back[o] == NoBack && l.nextUse[o] == W.None
    case Some(v) => v in uses && o in uses[v]
  }

  ghost predicate KeysAgree(l: Links, uses: map<ValueId, seq<OpId>>)
  {
    l.theValue.Keys == l.nextUse.Keys == l.back.Keys && uses.Keys == l.firstUse.Keys
  }

  /** Every list well linked, every operand placed, except possibly `detached`. */
  ghost predicate LinkedIn(l: Links, uses: map<ValueId, seq<OpId>>, detached: W.Option<OpId>)
  {
    KeysAgree(l, uses) &&
    (forall v {:trigger Chain(l, v, uses[v], detached)} :: v in uses ==> Chain(l, v, uses[v], detached)) &&
    (forall o {:trigger Placed(l, uses, o, detached)} :: o in l.theValue ==> Placed(l, uses, o, detached))
  }

  lemma ChainMember(l: Links, v: ValueId, s: seq<OpId>, d: W.Option<OpId>, x: OpId)
    requires Chain(l, v, s, d) && x in s
    ensures x in l.theValue && x in l.back && l.theValue[x] == W.Some(v) && d != W.Some(x)
    ensures l.back[x] != NoBack
  {
    var i :| 0 <= i < |s| && s[i] == x;
    assert ElemOk(l, v, s, i, d);
  }

  /**
   * A chain survives any change that leaves its head alone and touches only
   * the fields of operands in `changed`, none of which is on it.
   */
  lemma ChainFrame(l: Links, l': Links, v: ValueId, s: seq<OpId>, d: W.Option<OpId>, d': W.Option<OpId>, changed: set<OpId>)
    requires Chain(l, v, s, d)
    requires v in l'.firstUse && l'.firstUse[v] == l.firstUse[v]
    requires forall x :: x in s ==> x !in changed
    requires forall x :: x !in changed && x in l.theValue ==> x in l'.theValue && l'.theValue[x] == l.theValue[x]
    requires forall x :: x !in changed && x in l.nextUse ==> x in l'.nextUse && l'.nextUse[x] == l.nextUse[x]
    requires forall x :: x !in changed && x in l.back ==> x in l'.back && l'.back[x] == l.back[x]
    requires d'.Some? ==> d' == d || d'.value !in s
    ensures Chain(l', v, s, d')
  {
    forall i | 0 <= i < |s| ensures ElemOk(l', v, s, i, d') {
      assert ElemOk(l, v, s, i, d);
      assert s[i] in s;
    }
  }

  /** On well-linked lists, an operand is on the list of v exactly when it uses v. */
  lemma UsesAreHolders(l: Links, uses: map<ValueId, seq<OpId>>, v: ValueId, o: OpId)
    requires LinkedIn(l, uses, W.None) && v in uses
    ensures o in uses[v] <==> o in l.theValue && l.theValue[o] == W.Some(v)
  {
    if o in uses[v] {
      ChainMember(l, v, uses[v], W.None, o);
    }
    if o in l.theValue && l.theValue[o] == W.Some(v) {
      assert Placed(l, uses, o, W.None);
    }
  }

  /** An operand holding the null value is on no list. */
  lemma NullValueOnNoList(l: Links, uses: map<ValueId, seq<OpId>>, o: OpId)
    requires LinkedIn(l, uses, W.None) && o in l.theValue
    ensures l.theValue[o].None? ==> forall v :: v in uses ==> o !in uses[v]
  {
    forall v | v in uses && l.theValue[o].None? ensures o !in uses[v] {
      UsesAreHolders(l, uses, v, o);
    }
  }

  /** The value an operand holds is a live value. */
  lemma ValueOfPlacedIsLive(l: Links, uses: map<ValueId, seq<OpId>>, o: OpId)
    requires LinkedIn(l, uses, W.None) && o in l.theValue && l.theValue[o].Some?
    ensures l.theValue[o].value in l.firstUse
  {
    assert Placed(l, uses, o, W.None);
  }

  // ---------------------------------------------------------------------
  // removeFromCurrent
  // ---------------------------------------------------------------------

  /**
   * `removeFromCurrent`: unless `Back` is null, the link that points at o is
   * redirected to o's successor, and the successor's `Back` to o's own.
   * o's own links are left as they were.
   */
  function Removed(l: Links, o: OpId): Links
    requires o in l.nextUse && o in l.back
  {
    var link := l.back[o];
    var next := l.nextUse[o];
    if link == NoBack then l
    else
      var l1 := if link.HeadOf? then l.(firstUse := l.firstUse[link.value := next])
                else l.(nextUse := l.nextUse[link.op := next]);
      if next.Some? then l1.(back := l1.back[next.value := link]) else l1
  }

  /** After `removeFromCurrent`, o is on no list and every other list is intact. */
  lemma RemovedLinked(l: Links, uses: map<ValueId, seq<OpId>>, o: OpId)
    requires LinkedIn(l, uses, W.None) && o in l.theValue
    ensures LinkedIn(Removed(l, o), RemoveAll(uses, o), W.Some(o))
    ensures Removed(l, o).theValue == l.theValue
  {
    assert Placed(l, uses, o, W.None);
    if l.back[o] == NoBack {
      RemovedUnlinkedChains(l, uses, o);
    } else {
      RemovedChains(l, uses, o);
    }
    RemovedPlaced(l, uses, o);
  }

  lemma RemovedUnlinkedChains(l: Links, uses: map<ValueId, seq<OpId>>, o: OpId)
    requires LinkedIn(l, uses, W.None) && o in l.theValue && l.back[o] == NoBack
    ensures Removed(l, o) == l
    ensures forall v :: v in uses ==> Chain(l, v, RemoveAll(uses, o)[v], W.Some(o))
  {
    forall v | v in uses ensures Chain(l, v, RemoveAll(uses, o)[v], W.Some(o)) {
      if o in uses[v] {
        ChainMember(l, v, uses[v], W.None, o);
      }
      RemoveAbsent(uses[v], o);
      ChainFrame(l, l, v, uses[v], W.None, W.Some(o), {});
    }
  }

  /** The value of a linked operand, with the neighbours on its list. */
  lemma LinkedNeighbours(l: Links, uses: map<ValueId, seq<OpId>>, o: OpId) returns (v: ValueId, i: nat)
    requires LinkedIn(l, uses, W.None) && o in l.theValue && l.back[o] != NoBack
    ensures l.theValue[o] == W.Some(v) && v in uses && i < |uses[v]| && uses[v][i] == o
    ensures Chain(l, v, uses[v], W.None)
    ensures ElemOk(l, v, uses[v], i, W.None)
    ensures i > 0 ==> ElemOk(l, v, uses[v], i - 1, W.None)
    ensures i + 1 < |uses[v]| ==> ElemOk(l, v, uses[v], i + 1, W.None)
  {
    assert Placed(l, uses, o, W.None);
    v := l.theValue[o].value;
    assert Chain(l, v, uses[v], W.None);
    i :| 0 <= i < |uses[v]| && uses[v][i] == o;
  }

  lemma RemovedChains(l: Links, uses: map<ValueId, seq<OpId>>, o: OpId)
    requires LinkedIn(l, uses, W.None) && o in l.theValue && l.back[o] != NoBack
    ensures forall v :: v in uses ==> Chain(Removed(l, o), v, RemoveAll(uses, o)[v], W.Some(o))
  {
    var l' := Removed(l, o);
    var v, i := LinkedNeighbours(l, uses, o);
    var s := uses[v];
    RemoveAt(s, i);
    var changed := {o} + (if i > 0 then {s[i - 1]} else {}) + (if i + 1 < |s| then {s[i + 1]} else {});
    forall w | w in uses ensures Chain(l', w, RemoveAll(uses, o)[w], W.Some(o)) {
      if w == v {
        RemovedChain(l, v, s, i);
      } else {
        forall x | x in uses[w] ensures x !in changed {
          ChainMember(l, w, uses[w], W.None, x);
        }
        RemoveAbsent(uses[w], o);
        ChainFrame(l, l', w, uses[w], W.None, W.Some(o), changed);
      }
    }
  }

  lemma RemovedPlaced(l: Links, uses: map<ValueId, seq<OpId>>, o: OpId)
    requires LinkedIn(l, uses, W.None) && o in l.theValue
    ensures KeysAgree(Removed(l, o), RemoveAll(uses, o))
    ensures Removed(l, o).theValue == l.theValue
    ensures forall p :: p in l.theValue ==> Placed(Removed(l, o), RemoveAll(uses, o), p, W.Some(o))
  {
    var l' := Removed(l, o);
    var uses' := RemoveAll(uses, o);
    if l.back[o] != NoBack {
      var v, i := LinkedNeighbours(l, uses, o);
      assert l'.theValue.Keys == l'.nextUse.Keys == l'.back.Keys;
      forall p | p in l.theValue ensures Placed(l', uses', p, W.Some(o)) {
        assert Placed(l, uses, p, W.None);
      }
    } else {
      forall p | p in l.theValue ensures Placed(l', uses', p, W.Some(o)) {
        assert Placed(l, uses, p, W.None);
      }
    }
  }

  /** The list of o's own value after `removeFromCurrent`: o's position cut out. */
  lemma RemovedChain(l: Links, v: ValueId, s: seq<OpId>, i: nat)
    requires Chain(l, v, s, W.None) && i < |s| && s[i] in l.nextUse && s[i] in l.back
    requires l.back[s[i]] != NoBack
    ensures Chain(Removed(l, s[i]), v, s[..i] + s[i + 1..], W.Some(s[i]))
  {
    var o := s[i];
    var l' := Removed(l, o);
    var t := s[..i] + s[i + 1..];
    assert ElemOk(l, v, s, i, W.None);
    forall j | 0 <= j < |t| ensures ElemOk(l', v, t, j, W.Some(o)) {
      if j < i {
        assert t[j] == s[j];
        assert ElemOk(l, v, s, j, W.None);
        if j + 1 < i { assert t[j + 1] == s[j + 1]; }
        if j + 1 == i && i + 1 < |s| { assert t[j + 1] == s[i + 1]; }
        if j > 0 { assert t[j - 1] == s[j - 1]; }
      } else {
        assert t[j] == s[j + 1];
        assert ElemOk(l, v, s, j + 1, W.None);
        if j + 1 < |t| { assert t[j + 1] == s[j + 2]; }
        if j > i { assert t[j - 1] == s[j]; }
        if j == i && i > 0 { assert t[j - 1] == s[i - 1]; }
      }
    }
    forall a, b | 0 <= a < b < |t| ensures t[a] != t[b] {
      var a' := if a < i then a else a + 1;
      var b' := if b < i then b else b + 1;
      assert t[a] == s[a'] && t[b] == s[b'];
    }
  }

  // ---------------------------------------------------------------------
  // insertIntoCurrent
  // ---------------------------------------------------------------------

  /**
   * `insertIntoCurrent`: o becomes the first use of its value; the old first
   * use, if any, now hangs off o's `NextUse`.
   */
  function Inserted(l: Links, o: OpId): Links
    requires o in l.theValue && l.theValue[o].Some? && l.theValue[o].value in l.firstUse
  {
    var v := l.theValue[o].value;
    var head := l.firstUse[v];
    var back1 := l.back[o := HeadOf(v)];
    Links(l.firstUse[v := W.Some(o)], l.theValue, l.nextUse[o := head],
          if head.Some? then back1[head.value := NextOf(o)] else back1)
  }

  /** After `insertIntoCurrent`, o heads its value's list and every list is well linked. */
  lemma InsertedLinked(l: Links, uses: map<ValueId, seq<OpId>>, o: OpId)
    requires LinkedIn(l, uses, W.Some(o)) && o in l.theValue && l.theValue[o].Some?
    requires l.theValue[o].value in l.firstUse
    ensures LinkedIn(Inserted(l, o), uses[l.theValue[o].value := [o] + uses[l.theValue[o].value]], W.None)
    ensures Inserted(l, o).theValue == l.theValue
  {
    var v := l.theValue[o].value;
    var l' := Inserted(l, o);
    var s := uses[v];
    var uses' := uses[v := [o] + s];
    assert Chain(l, v, s, W.Some(o));
    if |s| > 0 { assert ElemOk(l, v, s, 0, W.Some(o)); }
    var changed := {o} + (if |s| > 0 then {s[0]} else {});
    forall w | w in uses' ensures Chain(l', w, uses'[w], W.None) {
      if w == v {
        InsertedChain(l, v, s, o);
      } else {
        forall x | x in uses[w] ensures x !in changed {
          ChainMember(l, w, uses[w], W.Some(o), x);
        }
        ChainFrame(l, l', w, uses[w], W.Some(o), W.None, changed);
      }
    }
    forall p | p in l'.theValue ensures Placed(l', uses', p, W.None) {
      if p != o {
        assert Placed(l, uses, p, W.Some(o));
      }
    }
  }

  lemma InsertedChain(l: Links, v: ValueId, s: seq<OpId>, o: OpId)
    requires Chain(l, v, s, W.Some(o)) && o in l.theValue && l.theValue[o] == W.Some(v)
    ensures Chain(Inserted(l, o), v, [o] + s, W.None)
  {
    var l' := Inserted(l, o);
    var t := [o] + s;
    forall j | 0 <= j < |t| ensures ElemOk(l', v, t, j, W.None) {
      if j > 0 {
        assert t[j] == s[j - 1];
        assert ElemOk(l, v, s, j - 1, W.Some(o));
        if j + 1 < |t| { assert t[j + 1] == s[j]; }
        if j > 1 { assert t[j - 1] == s[j - 2]; }
      } else if |s| > 0 {
        assert t[1] == s[0];
        assert ElemOk(l, v, s, 0, W.Some(o));
      }
    }
    forall a, b | 0 <= a < b < |t| ensures t[a] != t[b] {
      if a > 0 {
        assert t[a] == s[a - 1] && t[b] == s[b - 1];
      } else {
        assert t[b] == s[b - 1];
        assert ElemOk(l, v, s, b - 1, W.Some(o));
      }
    }
  }

  // ---------------------------------------------------------------------
  // Operands entering and leaving the arena
  // ---------------------------------------------------------------------

  /** A fresh operand starts detached: it is on no list. */
  lemma FreshDetached(l: Links, uses: map<ValueId, seq<OpId>>, o: OpId, value: W.Option<ValueId>)
    requires LinkedIn(l, uses, W.None) && o !in l.theValue
    ensures LinkedIn(Links(l.firstUse, l.theValue[o := value], l.nextUse[o := W.None], l.back[o := NoBack]), uses, W.Some(o))
  {
    var l' := Links(l.firstUse, l.theValue[o := value], l.nextUse[o := W.None], l.back[o := NoBack]);
    forall w | w in uses ensures Chain(l', w, uses[w], W.Some(o)) {
      forall x | x in uses[w] ensures x != o {
        ChainMember(l, w, uses[w], W.None, x);
      }
      ChainFrame(l, l', w, uses[w], W.None, W.Some(o), {o});
    }
    forall p | p in l'.theValue ensures Placed(l', uses, p, W.Some(o)) {
      if p != o { assert Placed(l, uses, p, W.None); }
    }
  }

  /** A detached operand may take another value before it is inserted again. */
  lemma RetargetDetached(l: Links, uses: map<ValueId, seq<OpId>>, o: OpId, value: W.Option<ValueId>)
    requires LinkedIn(l, uses, W.Some(o)) && o in l.theValue
    ensures LinkedIn(l.(theValue := l.theValue[o := value]), uses, W.Some(o))
  {
    var l' := l.(theValue := l.theValue[o := value]);
    forall w | w in uses ensures Chain(l', w, uses[w], W.Some(o)) {
      forall x | x in uses[w] ensures x != o {
        ChainMember(l, w, uses[w], W.Some(o), x);
      }
      ChainFrame(l, l', w, uses[w], W.Some(o), W.Some(o), {o});
    }
    forall p | p in l'.theValue ensures Placed(l', uses, p, W.Some(o)) {
      if p != o { assert Placed(l, uses, p, W.Some(o)); }
    }
  }

  /** What `drop` leaves: a detached operand with a null value and null links is placed again. */
  lemma ClearedDetached(l: Links, uses: map<ValueId, seq<OpId>>, o: OpId)
    requires LinkedIn(l, uses, W.Some(o)) && o in l.theValue
    ensures LinkedIn(Links(l.firstUse, l.theValue[o := W.None], l.nextUse[o := W.None], l.back[o := NoBack]), uses, W.None)
  {
    var l' := Links(l.firstUse, l.theValue[o := W.None], l.nextUse[o := W.None], l.back[o := NoBack]);
    forall w | w in uses ensures Chain(l', w, uses[w], W.None) {
      forall x | x in uses[w] ensures x != o {
        ChainMember(l, w, uses[w], W.Some(o), x);
      }
      ChainFrame(l, l', w, uses[w], W.Some(o), W.None, {o});
    }
    forall p | p in l'.theValue ensures Placed(l', uses, p, W.None) {
      if p != o { assert Placed(l, uses, p, W.Some(o)); }
    }
  }

  /** A detached operand can be deleted outright: nothing on any list refers to it. */
  lemma DeletedDetached(l: Links, uses: map<ValueId, seq<OpId>>, o: OpId)
    requires LinkedIn(l, uses, W.Some(o))
    ensures LinkedIn(Links(l.firstUse, l.theValue - {o}, l.nextUse - {o}, l.back - {o}), uses, W.None)
  {
    var l' := Links(l.firstUse, l.theValue - {o}, l.nextUse - {o}, l.back - {o});
    forall w | w in uses ensures Chain(l', w, uses[w], W.None) {
      forall x | x in uses[w] ensures x != o {
        ChainMember(l, w, uses[w], W.Some(o), x);
      }
      ChainFrame(l, l', w, uses[w], W.Some(o), W.None, {o});
    }
    forall p | p in l'.theValue ensures Placed(l', uses, p, W.None) {
      assert Placed(l, uses, p, W.Some(o));
    }
  }

  // ---------------------------------------------------------------------
  // Values entering and leaving the arena
  // ---------------------------------------------------------------------

  lemma AddedValueLinked(l: Links, uses: map<ValueId, seq<OpId>>, v: ValueId)
    requires LinkedIn(l, uses, W.None) && v !in l.firstUse
    ensures LinkedIn(l.(firstUse := l.firstUse[v := W.None]), uses[v := []], W.None)
  {
    var l' := l.(firstUse := l.firstUse[v := W.None]);
    forall w | w in uses && w != v ensures Chain(l', w, uses[w], W.None) {
      ChainFrame(l, l', w, uses[w], W.None, W.None, {});
    }
    forall p | p in l'.theValue ensures Placed(l', uses[v := []], p, W.None) {
      assert Placed(l, uses, p, W.None);
    }
  }

  /** A value with no uses can go: no operand refers to it. */
  lemma RemovedValueLinked(l: Links, uses: map<ValueId, seq<OpId>>, v: ValueId)
    requires LinkedIn(l, uses, W.None) && v in uses && uses[v] == []
    ensures LinkedIn(l.(firstUse := l.firstUse - {v}), uses - {v}, W.None)
  {
    var l' := l.(firstUse := l.firstUse - {v});
    forall w | w in uses - {v} ensures Chain(l', w, uses[w], W.None) {
      ChainFrame(l, l', w, uses[w], W.None, W.None, {});
    }
    forall p | p in l'.theValue ensures Placed(l', uses - {v}, p, W.None) {
      assert Placed(l, uses, p, W.None);
    }
  }

  // ---------------------------------------------------------------------
  // The arena
  // ---------------------------------------------------------------------

  class UseLists {
    /** `ValueBase::FirstUse`, for every live value. */
    var firstUse: map<ValueId, W.Option<OpId>>
    /** `Operand::TheValue`, for every live operand (None is the null value). */
    var theValue: map<OpId, W.Option<ValueId>>
    /** `Operand::NextUse`. */
    var nextUse: map<OpId, W.Option<OpId>>
    /** `Operand::Back`. */
    var back: map<OpId, BackRef>
    /** `Operand::Owner`. */
    var owner: map<OpId, W.Option<InstId>>
    /** The use-list of each value, first use first. */
    ghost var uses: map<ValueId, seq<OpId>>

    function Fields(): Links
      reads this
    {
      Links(firstUse, theValue, nextUse, back)
    }

    ghost predicate Linked(detached: W.Option<OpId>)
      reads this
    {
      owner.Keys == theValue.Keys && LinkedIn(Fields(), uses, detached)
    }

    ghost predicate Valid()
      reads this
    {
      Linked(W.None)
    }

    constructor ()
      ensures Valid() && firstUse == map[] && theValue == map[]
    {
      firstUse := map[];
      theValue := map[];
      nextUse := map[];
      back := map[];
      owner := map[];
      uses := map[];
    }

    /** `ValueBase::use_empty`. */
    function UseEmpty(v: ValueId): (r: bool)
      reads this
      requires Valid() && v in firstUse
      ensures r <==> uses[v] == []
    {
      assert Chain(Fields(), v, uses[v], W.None);
      firstUse[v].None?
    }

    /** `ValueBase::hasOneUse`: step the iterator once past the first use. */
    function HasOneUse(v: ValueId): (r: bool)
      reads this
      requires Valid() && v in firstUse
      ensures r <==> |uses[v]| == 1
    {
      assert Chain(Fields(), v, uses[v], W.None);
      assert |uses[v]| > 0 ==> ElemOk(Fields(), v, uses[v], 0, W.None);
      match firstUse[v]
      case None => false
      case Some(first) => nextUse[first] == W.None
    }

    /** `ValueBase::getSingleUse`. */
    function GetSingleUse(v: ValueId): (r: W.Option<OpId>)
      reads this
      requires Valid() && v in firstUse
      ensures r.Some? <==> |uses[v]| == 1
      ensures r.Some? ==> r.value == uses[v][0]
    {
      assert Chain(Fields(), v, uses[v], W.None);
      assert |uses[v]| > 0 ==> ElemOk(Fields(), v, uses[v], 0, W.None);
      match firstUse[v]
      case None => W.None
      case Some(first) => if nextUse[first] != W.None then W.None else W.Some(first)
    }

    /** Walking `ValueBase::getUses` from `FirstUse` along `NextUse` to null. */
    method CollectUses(v: ValueId) returns (s: seq<OpId>)
      requires Valid() && v in firstUse
      ensures s == uses[v]
    {
      ghost var all := uses[v];
      assert Chain(Fields(), v, all, W.None);
      var cur := firstUse[v];
      s := [];
      while cur.Some?
        invariant |s| <= |all| && s == all[..|s|]
        invariant cur == (if |s| < |all| then W.Some(all[|s|]) else W.None)
        decreases |all| - |s|
      {
        assert ElemOk(Fields(), v, all, |s|, W.None);
        s := s + [cur.value];
        cur := nextUse[cur.value];
      }
      assert all[..|all|] == all;
    }

    /** `ValueBase(...)`: a new value with no uses. */
    method AddValue(v: ValueId)
      requires Valid() && v !in firstUse
      modifies this
      ensures Valid()
      ensures firstUse == old(firstUse)[v := W.None] && uses == old(uses)[v := []]
      ensures theValue == old(theValue) && nextUse == old(nextUse) && back == old(back) && owner == old(owner)
    {
      AddedValueLinked(Fields(), uses, v);
      firstUse := firstUse[v := W.None];
      uses := uses[v := []];
    }

    /** `~ValueBase`: a value may only go once it has no uses. */
    method DestroyValue(v: ValueId)
      requires Valid() && v in firstUse && UseEmpty(v)
      modifies this
      ensures Valid()
      ensures firstUse == old(firstUse) - {v} && uses == old(uses) - {v}
      ensures theValue == old(theValue) && nextUse == old(nextUse) && back == old(back) && owner == old(owner)
    {
      RemovedValueLinked(Fields(), uses, v);
      firstUse := firstUse - {v};
      uses := uses - {v};
    }

    /** `Operand(owner)`: no value, no links. */
    method AddOperand(o: OpId, user: InstId)
      requires Valid() && o !in theValue
      modifies this
      ensures Valid()
      ensures theValue == old(theValue)[o := W.None] && owner == old(owner)[o := W.Some(user)]
      ensures nextUse == old(nextUse)[o := W.None] && back == old(back)[o := NoBack]
      ensures firstUse == old(firstUse) && uses == old(uses)
    {
      FreshDetached(Fields(), uses, o, W.None);
      theValue := theValue[o := W.None];
      nextUse := nextUse[o := W.None];
      back := back[o := NoBack];
      owner := owner[o := W.Some(user)];
      ClearedDetached(Fields(), uses, o);
      assert Fields().theValue[o := W.None] == theValue;
      assert Fields().nextUse[o := W.None] == nextUse;
      assert Fields().back[o := NoBack] == back;
    }

    /** `Operand(owner, value)`: the new operand becomes the value's first use. */
    method AddOperandWithValue(o: OpId, user: InstId, v: ValueId)
      requires Valid() && o !in theValue && v in firstUse
      modifies this
      ensures Valid()
      ensures theValue == old(theValue)[o := W.Some(v)] && owner == old(owner)[o := W.Some(user)]
      ensures uses == old(uses)[v := [o] + old(uses[v])]
      ensures Fields() == Inserted(old(Fields()).(theValue := old(theValue)[o := W.Some(v)],
                                                  nextUse := old(nextUse)[o := W.None],
                                                  back := old(back)[o := NoBack]), o)
    {
      FreshDetached(Fields(), uses, o, W.Some(v));
      theValue := theValue[o := W.Some(v)];
      nextUse := nextUse[o := W.None];
      back := back[o := NoBack];
      owner := owner[o := W.Some(user)];
      InsertIntoCurrent(o);
    }

    /** `removeFromCurrent`; o is left detached with stale links. */
    method RemoveFromCurrent(o: OpId)
      requires Valid() && o in theValue
      modifies this
      ensures Linked(W.Some(o))
      ensures theValue == old(theValue) && owner == old(owner)
      ensures Fields() == Removed(old(Fields()), o)
      ensures uses == RemoveAll(old(uses), o)
    {
      ghost var l := Fields();
      ghost var u := uses;
      var link := back[o];
      var next := nextUse[o];
      if link != NoBack {
        if link.HeadOf? {
          firstUse := firstUse[link.value := next];
        } else {
          nextUse := nextUse[link.op := next];
        }
        if next.Some? {
          back := back[next.value := link];
        }
      }
      assert Fields() == Removed(l, o);
      uses := RemoveAll(u, o);
      RemovedLinked(l, u, o);
    }

    /** `insertIntoCurrent`. */
    method InsertIntoCurrent(o: OpId)
      requires Linked(W.Some(o)) && o in theValue && theValue[o].Some? && theValue[o].value in firstUse
      modifies this
      ensures Valid()
      ensures Fields() == Inserted(old(Fields()), o)
      ensures uses == old(uses)[old(theValue[o].value) := [o] + old(uses[theValue[o].value])]
      ensures owner == old(owner)
    {
      InsertedLinked(Fields(), uses, o);
      var v := theValue[o].value;
      var head := firstUse[v];
      back := back[o := HeadOf(v)];
      nextUse := nextUse[o := head];
      if head.Some? {
        back := back[head.value := NextOf(o)];
      }
      firstUse := firstUse[v := W.Some(o)];
      uses := uses[v := [o] + uses[v]];
    }

    /** `Operand::set`: off the old value's list, onto the front of the new one's. */
    method Set(o: OpId, newValue: ValueId)
      requires Valid() && o in theValue && newValue in firstUse
      modifies this
      ensures Valid()
      ensures theValue == old(theValue)[o := W.Some(newValue)] && owner == old(owner)
      ensures firstUse.Keys == old(firstUse).Keys
      ensures uses == RemoveAll(old(uses), o)[newValue := [o] + Remove(old(uses)[newValue], o)]
    {
      RemoveFromCurrent(o);
      ghost var l := Fields();
      RetargetDetached(l, uses, o, W.Some(newValue));
      theValue := theValue[o := W.Some(newValue)];
      assert Fields() == l.(theValue := l.theValue[o := W.Some(newValue)]);
      InsertIntoCurrent(o);
    }

    /** `Operand::swap`: each operand takes the other's value. */
    method Swap(a: OpId, b: OpId)
      requires Valid() && a in theValue && b in theValue && theValue[a].Some? && theValue[b].Some?
      modifies this
      ensures Valid() && theValue.Keys == old(theValue).Keys
      ensures theValue[a] == old(theValue[b]) && theValue[b] == old(theValue[a])
      ensures forall p :: p in theValue && p != a && p != b ==> theValue[p] == old(theValue[p])
      ensures owner == old(owner)
    {
      var otherValue: ValueId := theValue[b].value;
      var value: ValueId := theValue[a].value;
      ValueOfPlacedIsLive(Fields(), uses, a);
      ValueOfPlacedIsLive(Fields(), uses, b);
      Set(b, value);
      Set(a, otherValue);
    }

    /** `Operand::drop`: off its list, then value, links and owner all null. */
    method Drop(o: OpId)
      requires Valid() && o in theValue
      modifies this
      ensures Valid()
      ensures theValue == old(theValue)[o := W.None] && owner == old(owner)[o := W.None]
      ensures nextUse[o] == W.None && back[o] == NoBack
      ensures uses == RemoveAll(old(uses), o)
    {
      RemoveFromCurrent(o);
      ghost var l := Fields();
      theValue := theValue[o := W.None];
      nextUse := nextUse[o := W.None];
      back := back[o := NoBack];
      owner := owner[o := W.None];
      assert Fields() == Links(l.firstUse, l.theValue[o := W.None], l.nextUse[o := W.None], l.back[o := NoBack]);
      ClearedDetached(l, uses, o);
    }

    /** `~Operand`: off its list, then gone. */
    method DestroyOperand(o: OpId)
      requires Valid() && o in theValue
      modifies this
      ensures Valid()
      ensures theValue == old(theValue) - {o} && owner == old(owner) - {o}
      ensures uses == RemoveAll(old(uses), o)
    {
      RemoveFromCurrent(o);
      ghost var l := Fields();
      theValue := theValue - {o};
      nextUse := nextUse - {o};
      back := back - {o};
      owner := owner - {o};
      assert Fields() == Links(l.firstUse, l.theValue - {o}, l.nextUse - {o}, l.back - {o});
      DeletedDetached(l, uses, o);
    }

    /** `Operand::get`. */
    function Get(o: OpId): (r: W.Option<ValueId>)
      reads this
      requires Valid() && o in theValue
      ensures r.Some? ==> r.value in uses && o in uses[r.value]
      ensures r.None? ==> forall v :: v in uses ==> o !in uses[v]
    {
      assert Placed(Fields(), uses, o, W.None);
      NullValueOnNoList(Fields(), uses, o);
      theValue[o]
    }

    /** `Operand::getUser`. */
    function GetUser(o: OpId): W.Option<InstId>
      reads this
      requires Valid() && o in theValue
    {
      owner[o]
    }
  }
}
