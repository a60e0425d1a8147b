/** The eight-level linked list itself: nodes relinked in place, proved against `SkiplistSpec`. */
module Skiplists {
  import opened Common
  import opened SkiplistSpec
  import opened Flattening

  class Node {
    const key: int32
    var value: Value
    var capacity: nat
    var next: seq<Node?>

    constructor (key: int32, value: Value, capacity: nat)
      ensures this.key == key && this.value == value && this.capacity == capacity
      ensures |next| == LEVELS && forall i :: 0 <= i < LEVELS ==> next[i] == null
    {
      this.key, this.value, this.capacity := key, value, capacity;
      next := seq(LEVELS, _ => null);
    }
  }

  /** The node at position j, or null past the end. */
  function At(s: seq<Node>, j: nat): Node? {
    if j < |s| then s[j] else null
  }

  /** The nodes of s, in order, are linked one to the next by their level-i pointers, the last one to null. */
  ghost predicate Chain(s: seq<Node>, i: nat)
    requires i < LEVELS
    reads s
  {
    && (forall j {:trigger s[j].next} :: 0 <= j < |s| ==> |s[j].next| == LEVELS)
    && (forall j {:trigger s[j].next} :: 0 <= j < |s| ==> s[j].next[i] == At(s, j + 1))
  }

  /** s is the head followed by one node for each of the keys. */
  ghost predicate Spine(s: seq<Node>, head: Node, keys: seq<int32>) {
    && |s| == |keys| + 1
    && s[0] == head
    && (forall j :: 1 <= j < |s| ==> s[j] != head)
    && (forall j :: 1 <= j < |s| ==> s[j].key == keys[j - 1])
  }

  function SpliceIn<T>(s: seq<T>, r: nat, x: T): seq<T>
    requires r <= |s|
  {
    s[..r] + [x] + s[r..]
  }

  function SpliceOut<T>(s: seq<T>, r: nat): seq<T>
    requires r < |s|
  {
    s[..r] + s[r + 1..]
  }

  /** The lowest h rows from a, the others from b. */
  ghost predicate IsMixed(rows: seq<seq<Node>>, a: seq<seq<Node>>, b: seq<seq<Node>>, h: nat) {
    && |rows| == |a| == |b| == LEVELS
    && forall l :: 0 <= l < LEVELS ==> rows[l] == if l < h then a[l] else b[l]
  }

  ghost function Mixed(a: seq<seq<Node>>, b: seq<seq<Node>>, h: nat): (rows: seq<seq<Node>>)
    requires |a| == |b| == LEVELS
    ensures IsMixed(rows, a, b, h)
  {
    seq(LEVELS, l requires 0 <= l < LEVELS => if l < h then a[l] else b[l])
  }

  /** Each row with the new node after its position rank[l]. */
  ghost function Grown(was: seq<seq<Node>>, rank: seq<nat>, node: Node): seq<seq<Node>>
    requires |was| == |rank| == LEVELS
    requires forall l :: 0 <= l < LEVELS ==> rank[l] < |was[l]|
  {
    seq(LEVELS, l requires 0 <= l < LEVELS => SpliceIn(was[l], rank[l] + 1, node))
  }

  /** Each row without the node after its position rank[l]. */
  ghost function Pruned(was: seq<seq<Node>>, rank: seq<nat>): seq<seq<Node>>
    requires |was| == |rank| == LEVELS
  {
    seq(LEVELS, l requires 0 <= l < LEVELS => if rank[l] + 1 < |was[l]| then SpliceOut(was[l], rank[l] + 1) else was[l])
  }

  /** The rows once the new node stands on the lowest h levels. */
  ghost function Towered(was: seq<seq<Node>>, rank: seq<nat>, node: Node, h: nat): seq<seq<Node>>
    requires |was| == |rank| == LEVELS && h <= LEVELS
    requires forall l :: 0 <= l < LEVELS ==> rank[l] < |was[l]|
  {
    Mixed(Grown(was, rank, node), was, h)
  }

  /** A node has no link on the levels above its tower. */
  ghost predicate NothingAbove(lev: seq<seq<Node>>, nodes: set<Node>)
    requires |lev| == LEVELS
    reads nodes
  {
    forall n {:trigger n.next} :: n in nodes ==> |n.next| == LEVELS && forall i :: 0 <= i < LEVELS && n !in lev[i] ==> n.next[i] == null
  }

  /** Single-list insertion on one level. */
  method LinkAfter(prev: Node, node: Node, i: nat, ghost s: seq<Node>, ghost r: nat)
    requires i < LEVELS && Chain(s, i) && |node.next| == LEVELS
    requires r < |s| && s[r] == prev && node !in s
    requires forall j :: 0 <= j < |s| && j != r ==> s[j] != prev
    modifies prev`next, node`next
    ensures Chain(SpliceIn(s, r + 1, node), i)
    ensures node.next == old(node.next)[i := old(prev.next[i])]
    ensures prev.next == old(prev.next)[i := node]
  {
    node.next := node.next[i := prev.next[i]];
    prev.next := prev.next[i := node];
    ghost var t := SpliceIn(s, r + 1, node);
    assert forall j :: 0 <= j < |s| && j != r ==> s[j].next == old(s[j].next);
    forall j | 0 <= j < |t| ensures t[j].next[i] == At(t, j + 1) {
      if j < r {
        assert t[j] == s[j] && At(t, j + 1) == At(s, j + 1);
      } else if j > r + 1 {
        assert t[j] == s[j - 1] && At(t, j + 1) == At(s, j);
      }
    }
    assert Chain(t, i);
  }

  /** Single-list deletion on one level. */
  method UnlinkAfter(prev: Node, p: Node, i: nat, ghost s: seq<Node>, ghost r: nat)
    requires i < LEVELS && Chain(s, i)
    requires r + 1 < |s| && s[r] == prev && s[r + 1] == p
    requires forall j :: 0 <= j < |s| && j != r ==> s[j] != prev
    requires forall j :: 0 <= j < |s| && j != r + 1 ==> s[j] != p
    modifies prev`next
    ensures Chain(SpliceOut(s, r + 1), i)
    ensures prev.next == old(prev.next)[i := old(p.next[i])]
  {
    prev.next := prev.next[i := p.next[i]];
    ghost var t := SpliceOut(s, r + 1);
    assert forall j :: 0 <= j < |s| && j != r ==> s[j].next == old(s[j].next);
    forall j | 0 <= j < |t| ensures t[j].next[i] == At(t, j + 1) {
      if j < r {
        assert t[j] == s[j] && At(t, j + 1) == At(s, j + 1);
      } else if j > r {
        assert t[j] == s[j + 1] && At(t, j + 1) == At(s, j + 2);
      }
    }
    assert Chain(t, i);
  }

  /** Every level is a chain of nodes from the given set. */
  ghost predicate Chains(rows: seq<seq<Node>>, nodes: set<Node>)
    reads nodes
  {
    |rows| == LEVELS && forall l :: 0 <= l < LEVELS ==> (forall n :: n in rows[l] ==> n in nodes) && Chain(rows[l], l)
  }

  /** s[r] is prev, and nothing else in s is. */
  ghost predicate OnlyAt(s: seq<Node>, r: nat, prev: Node) {
    r < |s| && s[r] == prev && forall j :: 0 <= j < |s| && j != r ==> s[j] != prev
  }

  /** One round of the linking loop: level i gains the node, the other levels keep their chains. */
  method LinkLevel(prev: Node, node: Node, i: nat, ghost was: seq<seq<Node>>, ghost nodes: set<Node>,
                   ghost rows: seq<seq<Node>>, ghost r: nat, ghost t: seq<Node>)
    requires |was| == LEVELS && NothingAbove(was, nodes) && node !in nodes
    requires i < LEVELS && Chains(rows, nodes + {node}) && rows[i] == was[i] && |node.next| == LEVELS
    requires OnlyAt(rows[i], r, prev) && node !in rows[i] && t == SpliceIn(rows[i], r + 1, node)
    modifies prev`next, node`next
    ensures Chains(rows[i := t], nodes + {node})
    ensures NothingAbove(was, nodes)
    ensures |node.next| == LEVELS && forall l :: 0 <= l < LEVELS && l != i ==> node.next[l] == old(node.next)[l]
  {
    assert prev in was[i];
    LinkAfter(prev, node, i, rows[i], r);
  }

  /** The linking loop of `add`: bottom up, one level at a time, until the coin stops it. */
  method LinkTower(pre: seq<Node>, node: Node, coin: nat -> bool,
                   ghost was: seq<seq<Node>>, ghost rank: seq<nat>, ghost nodes: set<Node>) returns (ghost rows: seq<seq<Node>>)
    requires |pre| == |rank| == |was| == LEVELS && Chains(was, nodes)
    requires |node.next| == LEVELS && forall l :: 0 <= l < LEVELS ==> node.next[l] == null
    requires forall l :: 0 <= l < LEVELS ==> rank[l] < |was[l]|
    requires forall l :: 0 <= l < LEVELS ==> OnlyAt(was[l], rank[l], pre[l])
    requires node !in nodes && NothingAbove(was, nodes)
    modifies nodes`next, node`next
    ensures IsMixed(rows, Grown(was, rank, node), was, Height(coin, 0)) && Chains(rows, nodes + {node})
    ensures forall l :: 0 <= l < LEVELS ==> rows[l] == if Reaches(coin, l) then Grown(was, rank, node)[l] else was[l]
    ensures |node.next| == LEVELS && forall l :: Height(coin, 0) <= l < LEVELS ==> node.next[l] == null
    ensures NothingAbove(was, nodes)
  {
    var i := 0;
    rows := was;
    ghost var grown := Grown(was, rank, node);
    while i < LEVELS
      modifies nodes`next, node`next
      invariant 0 <= i <= LEVELS && IsMixed(rows, grown, was, i) && Chains(rows, nodes + {node})
      invariant |node.next| == LEVELS && forall l :: i <= l < LEVELS ==> node.next[l] == null
      invariant NothingAbove(was, nodes)
      invariant Height(coin, 0) == if i == LEVELS then LEVELS else Height(coin, i)
    {
      LinkLevel(pre[i], node, i, was, nodes, rows, rank[i], grown[i]);
      rows := rows[i := grown[i]];
      assert IsMixed(rows, grown, was, i + 1);
      i := i + 1;
      if coin(i - 1) {
        assert Height(coin, 0) == i;
        break;
      }
    }
    assert Height(coin, 0) == i;
    TossesReach(coin);
  }

  /** p stands right after pre[l] on the lowest h levels, and on no other. */
  ghost predicate TowerAfter(was: seq<seq<Node>>, rank: seq<nat>, pre: seq<Node>, p: Node, h: nat) {
    && |was| == |rank| == |pre| == LEVELS && 1 <= h <= LEVELS
    && (forall l :: 0 <= l < LEVELS ==> OnlyAt(was[l], rank[l], pre[l]))
    && (forall l :: 0 <= l < h ==> OnlyAt(was[l], rank[l] + 1, p))
    && (forall l :: h <= l < LEVELS ==> p !in was[l])
  }

  /** One round of the unlinking loop: level i loses p, the other levels keep their chains. */
  method UnlinkLevel(prev: Node, p: Node, i: nat, ghost rows: seq<seq<Node>>, ghost r: nat, ghost t: seq<Node>, ghost nodes: set<Node>)
    requires i < LEVELS && Chains(rows, nodes)
    requires OnlyAt(rows[i], r, prev) && OnlyAt(rows[i], r + 1, p) && t == SpliceOut(rows[i], r + 1)
    modifies prev`next
    ensures Chains(rows[i := t], nodes)
    ensures |prev.next| == LEVELS == |old(prev.next)|
    ensures forall l :: 0 <= l < LEVELS && l != i ==> prev.next[l] == old(prev.next)[l]
  {
    SpliceOutMembers(rows[i], r + 1);
    UnlinkAfter(prev, p, i, rows[i], r);
  }

  /** The unlinking loop of `erase`: it stops at the first level p is not on, and by then p is on none. */
  method UnlinkTower(pre: seq<Node>, p: Node, ghost was: seq<seq<Node>>, ghost rank: seq<nat>, ghost h: nat, ghost nodes: set<Node>)
    returns (ghost rows: seq<seq<Node>>)
    requires TowerAfter(was, rank, pre, p, h) && Chains(was, nodes) && NothingAbove(was, nodes)
    modifies nodes`next
    ensures IsMixed(rows, Pruned(was, rank), was, h) && Chains(rows, nodes)
    ensures NothingAbove(was, nodes)
  {
    var i := 0;
    rows := was;
    ghost var pruned := Pruned(was, rank);
    while i < LEVELS && pre[i].next[i] == p
      modifies nodes`next
      invariant 0 <= i <= h && IsMixed(rows, pruned, was, i) && Chains(rows, nodes)
      invariant NothingAbove(was, nodes)
    {
      NextOnLevel(was, rows, rank, i, pre[i]);
      assert pre[i] in was[i];
      UnlinkLevel(pre[i], p, i, rows, rank[i], pruned[i], nodes);
      rows := rows[i := pruned[i]];
      i := i + 1;
    }
    if i < LEVELS {
      NextOnLevel(was, rows, rank, i, pre[i]);
    }
  }

  lemma NextOnLevel(was: seq<seq<Node>>, rows: seq<seq<Node>>, rank: seq<nat>, i: nat, prev: Node)
    requires |was| == |rank| == |rows| == LEVELS && i < LEVELS && rows[i] == was[i]
    requires OnlyAt(was[i], rank[i], prev) && Chain(rows[i], i)
    ensures |prev.next| == LEVELS
    ensures prev.next[i] == null || prev.next[i] in was[i]
    ensures rank[i] + 1 < |was[i]| ==> prev.next[i] == was[i][rank[i] + 1]
  {
    assert prev.next[i] == At(was[i], rank[i] + 1);
  }

  lemma SpliceMembers<T>(s: seq<T>, r: nat, x: T)
    requires r <= |s|
    ensures forall y :: y in SpliceIn(s, r, x) <==> y == x || y in s
  {
    assert s == s[..r] + s[r..];
  }

  lemma SpliceOutMembers<T>(s: seq<T>, r: nat)
    requires r < |s|
    requires forall j :: 0 <= j < |s| && j != r ==> s[j] != s[r]
    ensures forall y :: y in SpliceOut(s, r) <==> y != s[r] && y in s
  {
    assert s == s[..r] + [s[r]] + s[r + 1..];
  }

  lemma SpineInsert(s: seq<Node>, head: Node, keys: seq<int32>, node: Node)
    requires Spine(s, head, keys) && node != head
    ensures Spine(SpliceIn(s, Rank(keys, node.key) + 1, node), head, Insert(keys, node.key))
  {
    var r := Rank(keys, node.key);
    var t, k := SpliceIn(s, r + 1, node), Insert(keys, node.key);
    assert forall j :: 0 <= j < |t| ==> t[j] == if j <= r then s[j] else if j == r + 1 then node else s[j - 1];
    assert forall j :: 0 <= j < |k| ==> k[j] == if j < r then keys[j] else if j == r then node.key else keys[j - 1];
  }

  lemma SpineRemove(s: seq<Node>, head: Node, keys: seq<int32>, k: int32)
    requires Spine(s, head, keys)
    requires Rank(keys, k) < |keys| && keys[Rank(keys, k)] == k
    ensures Spine(SpliceOut(s, Rank(keys, k) + 1), head, Remove(keys, k))
  {
    var r := Rank(keys, k);
    var t, u := SpliceOut(s, r + 1), Remove(keys, k);
    forall j | 1 <= j < |t| ensures t[j] != head && t[j].key == u[j - 1] {
      assert t[j] == if j <= r then s[j] else s[j + 1];
      assert u[j - 1] == if j <= r then keys[j - 1] else keys[j];
    }
  }

  /** The part of the invariant that no field of a node can change: who stands where. */
  ghost predicate Arranged(lev: seq<seq<Node>>, head: Node, shape: Shape) {
    && |lev| == LEVELS
    && WellFormed(shape)
    && head.key == -1
    && (forall i :: 0 <= i < LEVELS ==> Spine(lev[i], head, shape.levels[i]))
    && (forall i, j, n :: 0 <= i <= j < LEVELS && n in lev[j] ==> n in lev[i])
  }

  /** The levels of an empty list. */
  ghost function HeadRows(head: Node): (rows: seq<seq<Node>>)
    ensures |rows| == LEVELS && forall i :: 0 <= i < LEVELS ==> rows[i] == [head]
  {
    seq(LEVELS, _ => [head])
  }

  lemma HeadAlone(head: Node)
    requires head.key == -1 && |head.next| == LEVELS && forall i :: 0 <= i < LEVELS ==> head.next[i] == null
    ensures Arranged(HeadRows(head), head, EMPTY) && Chains(HeadRows(head), {head}) && NothingAbove(HeadRows(head), {head})
  {
    EmptyWellFormed();
  }

  ghost function Ranks(shape: Shape, k: int32): (r: seq<nat>)
    requires |shape.levels| == LEVELS
    ensures |r| == LEVELS && forall l :: 0 <= l < LEVELS ==> r[l] == Rank(shape.levels[l], k)
  {
    seq(LEVELS, l requires 0 <= l < LEVELS => Rank(shape.levels[l], k))
  }

  lemma LevelAdd(lev: seq<seq<Node>>, head: Node, shape: Shape, node: Node, h: nat, l: nat)
    requires |lev| == |shape.levels| == LEVELS && l < LEVELS && Spine(lev[l], head, shape.levels[l])
    requires forall i :: 0 <= i < LEVELS ==> |lev[i]| == |shape.levels[i]| + 1
    requires h <= LEVELS && node != head
    ensures Spine(Towered(lev, Ranks(shape, node.key), node, h)[l], head, if l < h then Insert(shape.levels[l], node.key) else shape.levels[l])
    ensures forall n :: n in Towered(lev, Ranks(shape, node.key), node, h)[l] <==> (n == node && l < h) || n in lev[l]
  {
    if l < h {
      SpineInsert(lev[l], head, shape.levels[l], node);
      SpliceMembers(lev[l], Rank(shape.levels[l], node.key) + 1, node);
    }
  }

  lemma ArrangedAdd(lev: seq<seq<Node>>, head: Node, shape: Shape, node: Node, str: Str, h: nat)
    requires Arranged(lev, head, shape) && 1 <= h <= LEVELS && node !in lev[0] && node.key !in shape.vals
    ensures Arranged(Towered(lev, Ranks(shape, node.key), node, h), head, Added(shape, node.key, str, h))
    ensures forall l, n :: 0 <= l < LEVELS ==>
      (n in Towered(lev, Ranks(shape, node.key), node, h)[l] <==> (n == node && l < h) || n in lev[l])
  {
    var now, s := Towered(lev, Ranks(shape, node.key), node, h), Added(shape, node.key, str, h);
    AddedWellFormed(shape, node.key, str, h);
    assert head in lev[0] by {
      assert lev[0][0] == head;
    }
    forall l | 0 <= l < LEVELS
      ensures Spine(now[l], head, s.levels[l])
      ensures forall n :: n in now[l] <==> (n == node && l < h) || n in lev[l]
    {
      LevelAdd(lev, head, shape, node, h, l);
    }
  }

  lemma NothingAboveAdd(was: seq<seq<Node>>, nodes: set<Node>, rows: seq<seq<Node>>, node: Node, h: nat)
    requires |was| == |rows| == LEVELS && NothingAbove(was, nodes)
    requires forall l, n :: 0 <= l < LEVELS ==> (n in rows[l] <==> (n == node && l < h) || n in was[l])
    requires |node.next| == LEVELS && forall l :: h <= l < LEVELS ==> node.next[l] == null
    ensures NothingAbove(rows, nodes + {node})
  {
  }

  lemma LevelErase(lev: seq<seq<Node>>, head: Node, shape: Shape, pre: seq<Node>, p: Node, h: nat, l: nat)
    requires Arranged(lev, head, shape) && l < LEVELS && h <= LEVELS
    requires TowerAfter(lev, Ranks(shape, p.key), pre, p, h)
    requires p.key in shape.levels[l] <==> l < h
    ensures Spine(Mixed(Pruned(lev, Ranks(shape, p.key)), lev, h)[l], head, Remove(shape.levels[l], p.key))
    ensures forall n :: n in Mixed(Pruned(lev, Ranks(shape, p.key)), lev, h)[l] <==> n != p && n in lev[l]
  {
    RankFinds(shape.levels[l], p.key);
    if l < h {
      SpineRemove(lev[l], head, shape.levels[l], p.key);
      SpliceOutMembers(lev[l], Rank(shape.levels[l], p.key) + 1);
    }
  }

  lemma ArrangedErase(lev: seq<seq<Node>>, head: Node, shape: Shape, pre: seq<Node>, p: Node, h: nat)
    requires Arranged(lev, head, shape) && h <= LEVELS
    requires TowerAfter(lev, Ranks(shape, p.key), pre, p, h)
    requires forall l :: 0 <= l < LEVELS ==> (p.key in shape.levels[l] <==> l < h)
    ensures Arranged(Mixed(Pruned(lev, Ranks(shape, p.key)), lev, h), head, Erased(shape, p.key))
    ensures forall l, n :: 0 <= l < LEVELS ==> (n in Mixed(Pruned(lev, Ranks(shape, p.key)), lev, h)[l] <==> n != p && n in lev[l])
  {
    ErasedWellFormed(shape, p.key);
    var now, s := Mixed(Pruned(lev, Ranks(shape, p.key)), lev, h), Erased(shape, p.key);
    forall l | 0 <= l < LEVELS
      ensures Spine(now[l], head, s.levels[l])
      ensures forall n :: n in now[l] <==> n != p && n in lev[l]
    {
      LevelErase(lev, head, shape, pre, p, h, l);
    }
  }

  /** The node a link to key t is rebuilt as: `nodeMap[t]`, or null for -2 and for a key without a record. */
  function Target(m: map<int32, Node>, t: int32): Node? {
    if t != NULL && t in m then m[t] else null
  }

  /** The nodes created by the first pass over the records. */
  ghost predicate Created(m: map<int32, Node>, recs: seq<Rec>, capOf: Value -> nat)
    reads m.Values
  {
    && (forall k :: k in m <==> HasKey(recs, k))
    && (forall k :: k in m ==> m[k].key == k && m[k].value == ValueFrom(recs, k) && m[k].capacity == capOf(m[k].value))
  }

  /** The links made by the second pass over the records. */
  ghost predicate Linked(m: map<int32, Node>, head: Node, recs: seq<Rec>)
    reads m.Values, head
  {
    && |head.next| == LEVELS
    && (forall i :: 0 <= i < LEVELS ==> head.next[i] == Target(m, LinkFrom(recs, HEAD, i)))
    && (forall k {:trigger m[k].next} :: k in m ==> |m[k].next| == LEVELS)
    && (forall k, i {:trigger m[k].next[i]} :: k in m && 0 <= i < LEVELS ==> m[k].next[i] == Target(m, LinkFrom(recs, k, i)))
  }

  lemma NothingAboveErase(was: seq<seq<Node>>, nodes: set<Node>, rows: seq<seq<Node>>, p: Node)
    requires |was| == |rows| == LEVELS && NothingAbove(was, nodes)
    requires forall l, n :: 0 <= l < LEVELS ==> (n in rows[l] <==> n != p && n in was[l])
    ensures NothingAbove(rows, nodes - {p})
  {
  }

  class Skiplist {
    var head: Node
    ghost var lev: seq<seq<Node>>
    ghost var shape: Shape
    ghost var Repr: set<object>

    ghost predicate Layout()
      reads this
    {
      Arranged(lev, head, shape) && this in Repr && forall n :: n in lev[0] ==> n in Repr
    }

    ghost function Nodes(): set<Node>
      requires lev != []
      reads this
    {
      set n | n in lev[0]
    }

    /** The whole invariant: every level a chain, nothing linked above a tower, values as in the map. */
    ghost predicate Valid()
      reads this, Repr
    {
      && Layout()
      && Chains(lev, Nodes())
      && NothingAbove(lev, Nodes())
      && head.value == []
      && Holds()
    }

    constructor ()
      ensures Valid() && fresh(Repr)
      ensures shape == EMPTY
    {
      var h := new Node(-1, [], 0);
      head := h;
      HeadAlone(h);
      lev := HeadRows(h);
      shape := EMPTY;
      Repr := {this, h};
    }

    /** Two positions of one level never hold the same node. */
    lemma Distinct(i: nat, j: nat, k: nat)
      requires Layout() && i < LEVELS && j < |lev[i]| && k < |lev[i]| && j != k
      ensures lev[i][j] != lev[i][k]
    {
      SortedPairs(shape.levels[i]);
      if j != 0 && k != 0 {
        assert lev[i][j].key == shape.levels[i][j - 1] && lev[i][k].key == shape.levels[i][k - 1];
      }
    }

    /** Going one level down from a node below the target, its position is still at or before the target's. */
    lemma Descend(i: nat, p: Node, target: int32) returns (pos: nat)
      requires Layout() && i < LEVELS && p in lev[i] && (p == head || p.key < target)
      ensures pos <= Rank(shape.levels[i], target) && pos < |lev[i]| && lev[i][pos] == p
    {
      pos :| 0 <= pos < |lev[i]| && lev[i][pos] == p;
      if pos > 0 {
        RankFinds(shape.levels[i], target);
        assert shape.levels[i][pos - 1] < target;
      }
    }

    /** The walk along level i goes on exactly while the node after `pos` is below the target. */
    lemma WalkStep(i: nat, pos: nat, target: int32)
      requires Layout() && i < LEVELS && pos <= Rank(shape.levels[i], target)
      ensures pos + 1 < |lev[i]| && lev[i][pos + 1].key < target ==> pos + 1 <= Rank(shape.levels[i], target)
      ensures !(pos + 1 < |lev[i]| && lev[i][pos + 1].key < target) ==> pos == Rank(shape.levels[i], target)
    {
      var keys := shape.levels[i];
      assert pos < |keys| ==> lev[i][pos + 1].key == keys[pos];
      if pos < |keys| && keys[pos] < target {
        RankFinds(keys, target);
      } else {
        RankBounds(keys, target);
        RankIs(keys, target, pos);
      }
    }

    /** The inner loop of `find`: along one level to its last node below the target. */
    method Walk(start: Node, i: nat, target: int32) returns (p: Node)
      requires Layout() && i < LEVELS && Chain(lev[i], i)
      requires start in lev[i] && (start == head || start.key < target)
      ensures p == lev[i][Rank(shape.levels[i], target)]
      ensures p in lev[i] && (p == head || p.key < target)
    {
      p := start;
      ghost var pos := Descend(i, p, target);
      while p.next[i] != null && p.next[i].key < target
        invariant p == head || p.key < target
        invariant pos <= Rank(shape.levels[i], target) && pos < |lev[i]| && lev[i][pos] == p
        decreases |lev[i]| - pos
      {
        WalkStep(i, pos, target);
        p := p.next[i];
        pos := pos + 1;
      }
      WalkStep(i, pos, target);
    }

    lemma HeadEverywhere(i: nat)
      requires Layout() && i < LEVELS
      ensures head in lev[i] && head in Repr
    {
      assert lev[i][0] == head && lev[0][0] == head;
    }

    /** pre[i] is the last node of level i whose key is below the target, the head if there is none. */
    method Find(target: int32) returns (pre: seq<Node>)
      requires Valid()
      ensures |pre| == LEVELS
      ensures forall i :: 0 <= i < LEVELS ==> pre[i] == lev[i][Rank(shape.levels[i], target)]
    {
      var p: Node := head;
      pre := seq(LEVELS, _ => p);
      var i := LEVELS - 1;
      HeadEverywhere(i);
      while i >= 0
        invariant -1 <= i < LEVELS && |pre| == LEVELS
        invariant p == head || p.key < target
        invariant p in lev[if i < 0 then 0 else i]
        invariant forall l :: i < l < LEVELS ==> pre[l] == lev[l][Rank(shape.levels[l], target)]
      {
        p := Walk(p, i, target);
        pre := pre[i := p];
        i := i - 1;
      }
    }

    /** What `find` returns for a level stands, one level down, at or before what it returns there; the node after it
        is not below the target. */
    lemma FindDescends(i: nat, target: int32) returns (pos: nat)
      requires Layout() && i + 1 < LEVELS
      ensures var r := Rank(shape.levels[i + 1], target);
              && r < |lev[i + 1]| && pos <= Rank(shape.levels[i], target) < |lev[i]| && lev[i][pos] == lev[i + 1][r]
              && (lev[i + 1][r] == head || lev[i + 1][r].key < target)
              && (r + 1 < |lev[i + 1]| ==> lev[i + 1][r + 1].key >= target)
    {
      var r := Rank(shape.levels[i + 1], target);
      RankFinds(shape.levels[i + 1], target);
      var p := lev[i + 1][r];
      assert p in lev[i + 1];
      assert r > 0 ==> p.key == shape.levels[i + 1][r - 1];
      pos := Descend(i, p, target);
    }

    /** The node after the last one below k on level 0 carries k exactly when k is in the map. */
    lemma AtKey(k: int32)
      requires Valid()
      ensures Rank(shape.levels[0], k) < |lev[0]|
      ensures var p := lev[0][Rank(shape.levels[0], k)].next[0];
              && (k in shape.vals <==> p != null && p.key == k)
              && (p != null ==> p == lev[0][Rank(shape.levels[0], k) + 1] && p != head)
              && (k in shape.vals ==> shape.vals[k] == Str(p.value, p.capacity))
    {
      var r := Rank(shape.levels[0], k);
      RankFinds(shape.levels[0], k);
      assert Chain(lev[0], 0);
      var pre := lev[0][r];
      assert pre.next[0] == At(lev[0], r + 1);
      if r + 1 < |lev[0]| {
        var p := lev[0][r + 1];
        assert p != head && p.key == shape.levels[0][r] && p in lev[0];
      }
    }

    /** `search` answers the map, with the empty value for a key it does not hold. */
    method Search(target: int32) returns (r: Value)
      requires Valid()
      ensures r == Lookup(shape, target)
    {
      var pre := Find(target);
      var p := pre[0].next[0];
      AtKey(target);
      r := if p != null && p.key == target then p.value else [];
    }

    /** `add` overwrites the value in place or links a new tower, and returns the size it charges. */
    method Add(num: int32, value: Value, copyCap: nat, assignCap: nat, coin: nat -> bool) returns (nodeSize: nat)
      requires Valid()
      modifies Repr
      ensures Valid() && fresh(Repr - old(Repr))
      ensures shape == Added(old(shape), num, Str(value, if num in old(shape.vals) then assignCap else copyCap), Height(coin, 0))
      ensures num !in old(shape.vals) ==> forall l :: 0 <= l < LEVELS ==> (num in shape.levels[l] <==> Reaches(coin, l))
      ensures nodeSize == AddCharge(old(shape), num, copyCap)
    {
      var node: Node := new Node(num, value, copyCap);
      var pre := Find(num);
      var p := pre[0].next[0];
      nodeSize := SizeChange(num, copyCap, p);
      if p != null && p.key == num {
        Overwrite(p, value, assignCap);
      } else {
        AddedTower(shape, num, Str(value, copyCap), coin);
        AddTower(node, pre, coin);
      }
    }

    method SizeChange(num: int32, copyCap: nat, p: Node?) returns (nodeSize: nat)
      requires Valid() && p == lev[0][Rank(shape.levels[0], num)].next[0]
      ensures nodeSize == AddCharge(shape, num, copyCap)
      ensures p != null && p.key == num <==> num in shape.vals
      ensures p != null ==> p in lev[0] && p != head
    {
      AtKey(num);
      nodeSize := if p != null && p.key == num then Wrap(copyCap - p.capacity) else Wrap(4 + copyCap + 8 * LEVELS);
    }

    method AddTower(node: Node, pre: seq<Node>, coin: nat -> bool)
      requires Valid() && node !in Repr && node.key !in shape.vals
      requires |node.next| == LEVELS && forall l :: 0 <= l < LEVELS ==> node.next[l] == null
      requires |pre| == LEVELS && forall l :: 0 <= l < LEVELS ==> pre[l] == lev[l][Rank(shape.levels[l], node.key)]
      modifies this`lev, this`shape, this`Repr, Nodes()`next, node`next
      ensures Valid() && Repr == old(Repr) + {node}
      ensures shape == Added(old(shape), node.key, Str(node.value, node.capacity), Height(coin, 0))
    {
      PreOnly(node.key);
      ghost var rows := LinkTower(pre, node, coin, lev, Ranks(shape, node.key), Nodes());
      assert rows == Towered(lev, Ranks(shape, node.key), node, Height(coin, 0));
      AttachTower(node, Height(coin, 0));
    }

    /** On each level the node before k's place stands only there. */
    lemma PreOnly(k: int32)
      requires Layout()
      ensures forall l :: 0 <= l < LEVELS ==> OnlyAt(lev[l], Rank(shape.levels[l], k), lev[l][Rank(shape.levels[l], k)])
      ensures forall l :: 0 <= l < LEVELS ==> lev[l][Rank(shape.levels[l], k)] in lev[0]
    {
      forall l | 0 <= l < LEVELS
        ensures OnlyAt(lev[l], Rank(shape.levels[l], k), lev[l][Rank(shape.levels[l], k)])
        ensures lev[l][Rank(shape.levels[l], k)] in lev[0]
      {
        var r := Rank(shape.levels[l], k);
        assert lev[l][r] in lev[l];
        forall j | 0 <= j < |lev[l]| && j != r ensures lev[l][j] != lev[l][r] {
          Distinct(l, j, r);
        }
      }
    }

    /** The values the nodes hold are the ones in the map. */
    ghost predicate Holds()
      requires lev != []
      reads this, Nodes()
    {
      forall n :: n in Nodes() && n != head ==> n.key in shape.vals && shape.vals[n.key] == Str(n.value, n.capacity)
    }

    /** The new tower becomes part of the list. */
    ghost method AttachTower(node: Node, h: nat)
      requires Layout() && 1 <= h <= LEVELS && node !in Nodes() && node.key !in shape.vals
      requires Chains(Towered(lev, Ranks(shape, node.key), node, h), Nodes() + {node})
      requires |node.next| == LEVELS && forall l :: h <= l < LEVELS ==> node.next[l] == null
      requires NothingAbove(lev, Nodes()) && head.value == [] && Holds()
      modifies this`lev, this`shape, this`Repr
      ensures Valid() && Repr == old(Repr) + {node}
      ensures shape == Added(old(shape), node.key, Str(node.value, node.capacity), h)
    {
      AttachFacts(node, h);
      var nodes, rows := Nodes(), Towered(lev, Ranks(shape, node.key), node, h);
      shape := Added(shape, node.key, Str(node.value, node.capacity), h);
      lev := rows;
      Repr := Repr + {node};
      assert Nodes() == nodes + {node};
      assert Layout();
      assert Chains(lev, Nodes()) && NothingAbove(lev, Nodes());
    }

    /** The rows with the node are the levels of the list with its key. */
    lemma AttachFacts(node: Node, h: nat)
      requires Layout() && 1 <= h <= LEVELS && node !in Nodes() && node.key !in shape.vals
      requires |node.next| == LEVELS && forall l :: h <= l < LEVELS ==> node.next[l] == null
      requires NothingAbove(lev, Nodes())
      ensures var rows := Towered(lev, Ranks(shape, node.key), node, h);
              && Arranged(rows, head, Added(shape, node.key, Str(node.value, node.capacity), h))
              && NothingAbove(rows, Nodes() + {node}) && forall n :: n in rows[0] <==> n in Nodes() || n == node
    {
      ArrangedAdd(lev, head, shape, node, Str(node.value, node.capacity), h);
      NothingAboveAdd(lev, Nodes(), Towered(lev, Ranks(shape, node.key), node, h), node, h);
    }

    method Overwrite(p: Node, value: Value, capacity: nat)
      requires Valid() && p in lev[0] && p != head
      modifies this`shape, p`value, p`capacity
      ensures Valid()
      ensures shape == old(shape).(vals := old(shape).vals[p.key := Str(value, capacity)])
    {
      p.value := value;
      p.capacity := capacity;
      shape := shape.(vals := shape.vals[p.key := Str(value, capacity)]);
      forall n | n in lev[0] && n != head && n != p ensures n.key != p.key {
        SameKeySameNode(n, p);
      }
    }

    lemma SameKeySameNode(n: Node, p: Node)
      requires Layout() && n in lev[0] && p in lev[0] && n != head && p != head && n != p
      ensures n.key != p.key
    {
      var j :| 0 <= j < |lev[0]| && lev[0][j] == n;
      var k :| 0 <= k < |lev[0]| && lev[0][k] == p;
      SortedPairs(shape.levels[0]);
      assert n.key == shape.levels[0][j - 1] && p.key == shape.levels[0][k - 1];
    }

    lemma TowerStands(pre: seq<Node>, p: Node)
      requires Layout() && p in lev[0] && p != head
      requires |pre| == LEVELS && forall l :: 0 <= l < LEVELS ==> pre[l] == lev[l][Rank(shape.levels[l], p.key)]
      ensures p.key in shape.vals
      ensures TowerAfter(lev, Ranks(shape, p.key), pre, p, TowerOf(shape, p.key, 0))
      ensures forall l :: 0 <= l < LEVELS ==> (p.key in shape.levels[l] <==> l < TowerOf(shape, p.key, 0))
    {
      var h := TowerOf(shape, p.key, 0);
      KeyOfMember(0, p);
      TowerMeaning(shape, p.key, 0);
      PreOnly(p.key);
      forall l | 0 <= l < LEVELS
        ensures l < h ==> OnlyAt(lev[l], Rank(shape.levels[l], p.key) + 1, p)
        ensures p in lev[l] ==> l < h
      {
        if p in lev[l] {
          KeyOfMember(l, p);
        }
        if l < h {
          RankFinds(shape.levels[l], p.key);
          var r := Rank(shape.levels[l], p.key) + 1;
          assert lev[l][r] in lev[l] && lev[l][r].key == p.key;
          if lev[l][r] != p {
            SameKeySameNode(lev[l][r], p);
          }
          forall j | 0 <= j < |lev[l]| && j != r ensures lev[l][j] != lev[l][r] {
            Distinct(l, j, r);
          }
        }
      }
    }

    lemma KeyOfMember(l: nat, p: Node)
      requires Layout() && l < LEVELS && p in lev[l] && p != head
      ensures p.key in shape.levels[l]
    {
      var j :| 0 <= j < |lev[l]| && lev[l][j] == p;
      assert p.key == shape.levels[l][j - 1];
    }

    /** `erase` takes the node off every level it is on and leaves no link to it anywhere. */
    method Erase(num: int32, sizeIn: nat) returns (found: bool, nodeSize: nat, ghost gone: Node?)
      requires Valid()
      modifies Repr
      ensures Valid() && Repr == old(Repr)
      ensures found <==> num in old(shape.vals)
      ensures found ==> shape == Erased(old(shape), num) && nodeSize == EraseCharge(old(shape), num)
      ensures !found ==> shape == old(shape) && nodeSize == sizeIn && gone == null
      ensures found ==> gone in old(Nodes()) && gone.key == num && Nodes() == old(Nodes()) - {gone}
      ensures found ==> forall n, i :: n in Nodes() && 0 <= i < LEVELS ==> |n.next| == LEVELS && n.next[i] != gone
    {
      var pre := Find(num);
      AtKey(num);
      var p := pre[0].next[0];
      gone := null;
      if p == null || p.key != num {
        return false, sizeIn, null;
      }
      nodeSize := SizeOf(num, p);
      found := true;
      gone := p;
      RemoveTower(pre, p);
      forall n, i | n in Nodes() && 0 <= i < LEVELS ensures |n.next| == LEVELS && n.next[i] != gone {
        LinksStay(n, i);
      }
    }

    method SizeOf(num: int32, p: Node) returns (nodeSize: nat)
      requires Valid() && p == lev[0][Rank(shape.levels[0], num)].next[0] && p.key == num
      ensures num in shape.vals && nodeSize == EraseCharge(shape, num)
    {
      AtKey(num);
      nodeSize := Wrap(4 + p.capacity + 8 * LEVELS);
    }

    method RemoveTower(pre: seq<Node>, p: Node)
      requires Valid() && p in lev[0] && p != head
      requires |pre| == LEVELS && forall l :: 0 <= l < LEVELS ==> pre[l] == lev[l][Rank(shape.levels[l], p.key)]
      modifies this`lev, this`shape, Nodes()`next
      ensures Valid() && shape == Erased(old(shape), p.key)
      ensures Nodes() == old(Nodes()) - {p}
    {
      TowerStands(pre, p);
      ghost var h, rank, nodes := TowerOf(shape, p.key, 0), Ranks(shape, p.key), Nodes();
      ghost var rows := UnlinkTower(pre, p, lev, rank, h, nodes);
      assert rows == Mixed(Pruned(lev, rank), lev, h);
      DetachTower(pre, p, h, rows);
    }

    lemma HoldsErase(p: Node)
      requires Layout() && Holds() && p in lev[0] && p != head
      ensures forall n :: n in Nodes() && n != head && n != p ==>
        n.key in shape.vals && n.key != p.key && shape.vals[n.key] == Str(n.value, n.capacity)
    {
      forall n | n in Nodes() && n != head && n != p ensures n.key != p.key {
        SameKeySameNode(n, p);
      }
    }

    ghost method DetachTower(pre: seq<Node>, p: Node, h: nat, rows: seq<seq<Node>>)
      requires Layout() && p in lev[0] && p != head
      requires TowerAfter(lev, Ranks(shape, p.key), pre, p, h) && h <= LEVELS
      requires forall l :: 0 <= l < LEVELS ==> (p.key in shape.levels[l] <==> l < h)
      requires rows == Mixed(Pruned(lev, Ranks(shape, p.key)), lev, h) && Chains(rows, Nodes())
      requires NothingAbove(lev, Nodes()) && head.value == [] && Holds()
      modifies this`lev, this`shape
      ensures Valid() && shape == Erased(old(shape), p.key)
      ensures Nodes() == old(Nodes()) - {p}
    {
      DetachFacts(pre, p, h, rows);
      HoldsErase(p);
      var nodes := Nodes();
      lev := rows;
      shape := Erased(shape, p.key);
      assert Nodes() == nodes - {p};
      assert Layout();
    }

    /** The rows without the node are the levels of the list without its key. */
    lemma DetachFacts(pre: seq<Node>, p: Node, h: nat, rows: seq<seq<Node>>)
      requires Layout() && p in lev[0] && p != head
      requires TowerAfter(lev, Ranks(shape, p.key), pre, p, h) && h <= LEVELS
      requires forall l :: 0 <= l < LEVELS ==> (p.key in shape.levels[l] <==> l < h)
      requires rows == Mixed(Pruned(lev, Ranks(shape, p.key)), lev, h) && Chains(rows, Nodes())
      requires NothingAbove(lev, Nodes())
      ensures Arranged(rows, head, Erased(shape, p.key)) && (forall n :: n in rows[0] <==> n in Nodes() && n != p)
      ensures Chains(rows, Nodes() - {p}) && NothingAbove(rows, Nodes() - {p})
    {
      ArrangedErase(lev, head, shape, pre, p, h);
      NothingAboveErase(lev, Nodes(), rows, p);
    }

    /** Every link of a listed node leads to a listed node or nowhere. */
    lemma LinksStay(n: Node, i: nat)
      requires Valid() && n in Nodes() && i < LEVELS
      ensures |n.next| == LEVELS
      ensures n.next[i] == null || n.next[i] in Nodes()
    {
      if n in lev[i] {
        var j :| 0 <= j < |lev[i]| && lev[i][j] == n;
        assert n.next[i] == At(lev[i], j + 1);
        assert n.next[i] != null ==> n.next[i] in lev[i];
      }
    }

    /** `~Skiplist`, called to empty the list: every node but the head is deleted exactly once. */
    method Clear() returns (ghost deleted: seq<Node>)
      requires Valid()
      modifies Repr
      ensures Valid() && shape == EMPTY && Repr == old(Repr) && head == old(head)
      ensures head.value == [] && |head.next| == LEVELS && forall i :: 0 <= i < LEVELS ==> head.next[i] == null
      ensures deleted == old(lev)[0][1..]
      ensures forall j, k :: 0 <= j < k < |deleted| ==> deleted[j] != deleted[k]
    {
      deleted := DeleteNodes();
      HeadEverywhere(0);
      head.next := seq(LEVELS, _ => null);
      ghost var h := head;
      HeadAlone(h);
      lev := HeadRows(h);
      shape := EMPTY;
      assert Nodes() == {head};
    }

    /** The loop that deletes the nodes, reading each one's link before the node goes. */
    method DeleteNodes() returns (ghost deleted: seq<Node>)
      requires Valid()
      ensures deleted == lev[0][1..]
      ensures forall j, k :: 0 <= j < k < |deleted| ==> deleted[j] != deleted[k]
    {
      assert Chain(lev[0], 0) && lev[0][0] == head;
      var p := head.next[0];
      deleted := [];
      ghost var j := 1;
      while p != null
        invariant 1 <= j <= |lev[0]| && p == At(lev[0], j) && deleted == lev[0][1..j]
        decreases |lev[0]| - j
      {
        var nextNode := p.next[0];
        deleted := deleted + [p];
        p := nextNode;
        j := j + 1;
      }
      forall a, b | 0 <= a < b < |deleted| ensures deleted[a] != deleted[b] {
        Distinct(0, a + 1, b + 1);
      }
    }

    /** The records that `serialize` writes are exactly the flattened shape. */
    method Serialize() returns (recs: seq<Rec>)
      requires Valid()
      ensures recs == Flatten(shape)
    {
      assert Chain(lev[0], 0) && lev[0][0] == head;
      var p: Node? := head;
      recs := [];
      ghost var j, all := 0, Flatten(shape);
      while p != null
        invariant 0 <= j <= |lev[0]| && p == At(lev[0], j)
        invariant recs == all[..j]
        decreases |lev[0]| - j
      {
        var rec := WriteRecord(p, j, all);
        PrefixGrows(all, j);
        recs := recs + [rec];
        p := p.next[0];
        j := j + 1;
      }
    }

    static lemma PrefixGrows(all: seq<Rec>, j: nat)
      requires j < |all|
      ensures all[..j] + [all[j]] == all[..j + 1]
    {
    }

    method WriteRecord(p: Node, ghost j: nat, ghost all: seq<Rec>) returns (rec: Rec)
      requires Valid() && j < |lev[0]| && p == lev[0][j] && all == Flatten(shape)
      ensures rec == all[j]
    {
      var links: seq<int32> := [];
      NodeAsRecord(j);
      for i := 0 to LEVELS
        invariant |links| == i && forall l :: 0 <= l < i ==> links[l] == Flatten(shape)[j].next[l]
      {
        LinkAsRecord(j, i);
        links := links + [if p.next[i] != null then p.next[i].key else NULL];
      }
      rec := Rec(p.key, p.value, links);
    }

    lemma NodeAsRecord(j: nat)
      requires Valid() && j < |lev[0]|
      ensures |lev[0][j].next| == LEVELS
      ensures Flatten(shape)[j].key == lev[0][j].key && Flatten(shape)[j].value == lev[0][j].value && |Flatten(shape)[j].next| == LEVELS
    {
      FlattenKeys(shape);
      assert lev[0][j] in Nodes();
    }

    lemma LinkAsRecord(j: nat, i: nat)
      requires Valid() && j < |lev[0]| && i < LEVELS
      ensures |lev[0][j].next| == LEVELS && |Flatten(shape)[j].next| == LEVELS
      ensures Flatten(shape)[j].next[i] == var q := lev[0][j].next[i]; if q != null then q.key else NULL
    {
      FlattenKeys(shape);
      var n := lev[0][j];
      assert n in Nodes() && n in lev[0];
      if n in lev[i] {
        LinkInside(n, i);
      } else {
        NotOnLevel(n, i);
        RankFinds(shape.levels[i], n.key);
      }
    }

    lemma LinkInside(n: Node, i: nat)
      requires Valid() && i < LEVELS && n in lev[i]
      ensures |n.next| == LEVELS
      ensures LinkCode(if n == head then First(shape.levels[i]) else After(shape.levels[i], n.key)) == var q := n.next[i]; if q != null then q.key else NULL
    {
      var q :| 0 <= q < |lev[i]| && lev[i][q] == n;
      assert n.next[i] == At(lev[i], q + 1);
      if q > 0 {
        RankOf(shape.levels[i], q - 1);
      }
    }

    lemma NotOnLevel(n: Node, i: nat)
      requires Layout() && i < LEVELS && n in lev[0] && n !in lev[i]
      ensures n != head && n.key !in shape.levels[i]
    {
      HeadEverywhere(i);
      RankFinds(shape.levels[i], n.key);
      if n.key in shape.levels[i] {
        var q := Rank(shape.levels[i], n.key) + 1;
        assert lev[i][q] in lev[i] && lev[i][q].key == n.key;
        SameKeySameNode(lev[i][q], n);
      }
    }

    /** The rebuilt nodes of level i, in list order, after the head. */
    static ghost function Row(head: Node, m: map<int32, Node>, keys: seq<int32>): (r: seq<Node>)
      requires forall k :: k in keys ==> k in m
      ensures |r| == |keys| + 1 && r[0] == head
      ensures forall j :: 1 <= j < |r| ==> r[j] == m[keys[j - 1]]
    {
      [head] + seq(|keys|, j requires 0 <= j < |keys| => m[keys[j]])
    }

    static ghost function Rows(head: Node, m: map<int32, Node>, s: Shape): (r: seq<seq<Node>>)
      requires |s.levels| == LEVELS && forall i, k :: 0 <= i < LEVELS && k in s.levels[i] ==> k in m
      ensures |r| == LEVELS && forall i :: 0 <= i < LEVELS ==> r[i] == Row(head, m, s.levels[i])
    {
      seq(LEVELS, i requires 0 <= i < LEVELS => Row(head, m, s.levels[i]))
    }

    /** `deserialize`: the nodes are created record by record, then linked record by record. Whatever the
        records are, the links are the ones they name; if they describe a shape, the list has that shape. */
    method Deserialize(recs: seq<Rec>, capOf: Value -> nat, ghost target: Shape) returns (total: nat, ghost m: map<int32, Node>)
      requires Valid()
      requires forall j :: 0 <= j < |recs| ==> |recs[j].next| <= LEVELS
      modifies Repr
      ensures fresh(Repr - old(Repr)) && head == old(head)
      ensures total == RecCharges(recs, capOf)
      ensures Created(m, recs, capOf) && Linked(m, head, recs)
      ensures WellFormed(target) && Represents(recs, target) ==> Valid() && shape == Recapped(target, capOf)
    {
      ghost var deleted := Clear();
      HeadEverywhere(0);
      total, m := Rebuild(recs, capOf, target);
    }

    /** Both passes: the nodes, then their links. */
    method CreateAndLink(recs: seq<Rec>, capOf: Value -> nat) returns (nodeMap: map<int32, Node>, total: nat)
      requires |head.next| == LEVELS && forall i :: 0 <= i < LEVELS ==> head.next[i] == null
      requires forall j :: 0 <= j < |recs| ==> |recs[j].next| <= LEVELS
      modifies head`next
      ensures total == RecCharges(recs, capOf) && Created(nodeMap, recs, capOf) && Linked(nodeMap, head, recs)
      ensures forall k :: k in nodeMap ==> fresh(nodeMap[k])
    {
      nodeMap, total := CreateNodes(recs, capOf);
      forall j | 0 <= j < |recs| ensures recs[j].key in nodeMap {
        assert HasKey(recs, recs[j].key);
      }
      LinkNodes(nodeMap, head, recs);
    }

    method Rebuild(recs: seq<Rec>, capOf: Value -> nat, ghost target: Shape) returns (total: nat, ghost m: map<int32, Node>)
      requires head.key == HEAD && head.value == []
      requires |head.next| == LEVELS && forall i :: 0 <= i < LEVELS ==> head.next[i] == null
      requires forall j :: 0 <= j < |recs| ==> |recs[j].next| <= LEVELS
      modifies this`lev, this`shape, this`Repr, head`next
      ensures total == RecCharges(recs, capOf)
      ensures Created(m, recs, capOf) && Linked(m, head, recs)
      ensures Repr == old(Repr) + {this, head} + m.Values && forall k :: k in m ==> fresh(m[k])
      ensures WellFormed(target) && Represents(recs, target) ==> Valid() && shape == Recapped(target, capOf)
    {
      var nodeMap: map<int32, Node>;
      nodeMap, total := CreateAndLink(recs, capOf);
      m := nodeMap;
      assert head !in m.Values;
      Repr := Repr + {this, head} + m.Values;
      if WellFormed(target) && Represents(recs, target) {
        Adopt(m, recs, capOf, target);
      }
    }

    /** The rebuilt nodes become the list. */
    ghost method Adopt(m: map<int32, Node>, recs: seq<Rec>, capOf: Value -> nat, s: Shape)
      requires Created(m, recs, capOf) && Linked(m, head, recs) && WellFormed(s) && Represents(recs, s)
      requires head.key == HEAD && head.value == [] && head !in m.Values
      requires {this, head} + m.Values <= Repr
      modifies this`lev, this`shape
      ensures Valid() && shape == Recapped(s, capOf)
    {
      RowsArranged(m, head, recs, capOf, s);
      var rows, nodes := Rows(head, m, s), {head} + m.Values;
      RowsLinked(m, head, recs, capOf, s);
      RowsHold(m, head, recs, capOf, s);
      lev := rows;
      shape := Recapped(s, capOf);
      assert Nodes() <= nodes;
    }
  }

  lemma RowsLinked(m: map<int32, Node>, head: Node, recs: seq<Rec>, capOf: Value -> nat, s: Shape)
    requires Created(m, recs, capOf) && Linked(m, head, recs) && WellFormed(s) && Represents(recs, s)
    requires head.key == HEAD && head !in m.Values
    ensures forall i, k :: 0 <= i < LEVELS && k in s.levels[i] ==> k in m
    ensures var rows := Skiplist.Rows(head, m, s); var nodes := set n | n in rows[0];
            Chains(rows, nodes) && NothingAbove(rows, nodes)
  {
    RowsArranged(m, head, recs, capOf, s);
    var rows := Skiplist.Rows(head, m, s);
    var nodes := set n | n in rows[0];
    forall i | 0 <= i < LEVELS ensures Chain(rows[i], i) && forall n :: n in rows[i] ==> n in nodes {
      RowChain(m, head, recs, capOf, s, i);
    }
    assert Chains(rows, nodes);
    forall n: Node, i | n in nodes && 0 <= i < LEVELS && n !in rows[i] ensures |n.next| == LEVELS && n.next[i] == null {
      RowMembers(head, m, s.levels[0]);
      RowMembers(head, m, s.levels[i]);
      OffRow(m, head, recs, capOf, s, n.key, i);
    }
  }

  lemma RowsHold(m: map<int32, Node>, head: Node, recs: seq<Rec>, capOf: Value -> nat, s: Shape)
    requires Created(m, recs, capOf) && WellFormed(s) && Represents(recs, s) && head !in m.Values
    requires forall i, k :: 0 <= i < LEVELS && k in s.levels[i] ==> k in m
    ensures forall n :: n in Skiplist.Rows(head, m, s)[0] && n != head ==> n.key in s.vals && n.value == s.vals[n.key].text && n.capacity == capOf(n.value)
  {
    RowMembers(head, m, s.levels[0]);
  }

  lemma OffRow(m: map<int32, Node>, head: Node, recs: seq<Rec>, capOf: Value -> nat, s: Shape, k: int32, i: nat)
    requires Created(m, recs, capOf) && Linked(m, head, recs) && WellFormed(s) && Represents(recs, s)
    requires i < LEVELS && k in s.vals && k in m && k !in s.levels[i]
    ensures |m[k].next| == LEVELS && m[k].next[i] == null
  {
    RankFinds(s.levels[i], k);
    assert Rebuilt(recs, k, i) == After(s.levels[i], k) == None;
    TargetOf(m, recs, capOf, k, i);
    assert m[k].next[i] == Target(m, LinkFrom(recs, k, i));
  }

  /** Nodes rebuilt from records that describe s form the rows of s. */
  lemma RowsArranged(m: map<int32, Node>, head: Node, recs: seq<Rec>, capOf: Value -> nat, s: Shape)
    requires Created(m, recs, capOf) && WellFormed(s) && Represents(recs, s)
    requires head.key == HEAD && head !in m.Values
    ensures forall i, k :: 0 <= i < LEVELS && k in s.levels[i] ==> k in m
    ensures Arranged(Skiplist.Rows(head, m, s), head, Recapped(s, capOf))
  {
    forall i, k | 0 <= i < LEVELS && k in s.levels[i] ensures k in m {
      assert k in s.levels[0];
    }
    var rows := Skiplist.Rows(head, m, s);
    forall i | 0 <= i < LEVELS
      ensures Spine(rows[i], head, s.levels[i])
      ensures forall n :: n in rows[i] <==> n == head || (n.key in s.levels[i] && n.key in m && n == m[n.key])
    {
      RowMembers(head, m, s.levels[i]);
    }
  }

  lemma RowMembers(head: Node, m: map<int32, Node>, keys: seq<int32>)
    requires (forall k :: k in keys ==> k in m) && (forall k :: k in m ==> m[k].key == k) && head !in m.Values
    ensures Spine(Skiplist.Row(head, m, keys), head, keys)
    ensures forall n :: n in Skiplist.Row(head, m, keys) <==> n == head || (n.key in keys && n.key in m && n == m[n.key])
  {
    var row := Skiplist.Row(head, m, keys);
    forall j | 1 <= j < |row| ensures row[j] != head && row[j].key == keys[j - 1] {
      assert keys[j - 1] in keys && m[keys[j - 1]] in m.Values;
    }
    assert row[0] == head;
    forall k | k in keys ensures m[k] in row {
      var j :| 0 <= j < |keys| && keys[j] == k;
      assert row[j + 1] == m[k];
    }
  }

  /** The links rebuilt from records that describe s chain up the rows of s. */
  lemma RowChain(m: map<int32, Node>, head: Node, recs: seq<Rec>, capOf: Value -> nat, s: Shape, i: nat)
    requires Created(m, recs, capOf) && Linked(m, head, recs) && WellFormed(s) && Represents(recs, s) && i < LEVELS
    requires forall k :: k in s.levels[i] ==> k in m
    ensures Chain(Skiplist.Row(head, m, s.levels[i]), i)
  {
    var keys := s.levels[i];
    var row := Skiplist.Row(head, m, keys);
    forall j | 0 <= j < |row| ensures |row[j].next| == LEVELS && row[j].next[i] == At(row, j + 1) {
      if j == 0 {
        TargetOf(m, recs, capOf, HEAD, i);
        assert Rebuilt(recs, HEAD, i) == First(keys);
      } else {
        var k := keys[j - 1];
        assert k in keys && k in s.levels[0] && m[k].next[i] == Target(m, LinkFrom(recs, k, i));
        TargetOf(m, recs, capOf, k, i);
        RankOf(keys, j - 1);
        assert Rebuilt(recs, k, i) == After(keys, k);
      }
    }
  }

  lemma TargetOf(m: map<int32, Node>, recs: seq<Rec>, capOf: Value -> nat, k: int32, i: nat)
    requires Created(m, recs, capOf)
    ensures Target(m, LinkFrom(recs, k, i)) == var o := Rebuilt(recs, k, i); if o.Some? && o.value in m then m[o.value] else null
  {
  }

  /** First pass of `deserialize`: a later record with the same key replaces the earlier node. */
  method CreateNodes(recs: seq<Rec>, capOf: Value -> nat) returns (m: map<int32, Node>, total: nat)
    ensures Created(m, recs, capOf) && forall k :: k in m ==> fresh(m[k])
    ensures Linked0(m)
    ensures total == RecCharges(recs, capOf)
  {
    m, total := map[], 0;
    for j := 0 to |recs|
      invariant Created(m, recs[..j], capOf) && forall k :: k in m ==> fresh(m[k])
      invariant Linked0(m)
      invariant total == RecCharges(recs[..j], capOf)
    {
      var r := recs[j];
      var node: Node := new Node(r.key, r.value, capOf(r.value));
      CreateStep(m, recs, j, node, capOf);
      m := m[r.key := node];
      total := total + (4 + capOf(r.value) + 8 * LEVELS);
      assert recs[..j + 1][..j] == recs[..j];
    }
    assert recs[..|recs|] == recs;
  }

  ghost predicate Linked0(m: map<int32, Node>)
    reads m.Values
  {
    forall k {:trigger m[k].next} :: k in m ==> |m[k].next| == LEVELS && forall i :: 0 <= i < LEVELS ==> m[k].next[i] == null
  }

  lemma CreateStep(m: map<int32, Node>, recs: seq<Rec>, j: nat, node: Node, capOf: Value -> nat)
    requires j < |recs| && Created(m, recs[..j], capOf)
    requires node.key == recs[j].key && node.value == recs[j].value && node.capacity == capOf(node.value)
    ensures Created(m[node.key := node], recs[..j + 1], capOf)
  {
    assert recs[..j + 1][..j] == recs[..j];
    forall k ensures HasKey(recs[..j + 1], k) <==> k == node.key || HasKey(recs[..j], k) {
      if HasKey(recs[..j], k) {
        var a :| 0 <= a < j && recs[..j][a].key == k;
        assert recs[..j + 1][a].key == k;
      }
      assert recs[..j + 1][j].key == node.key;
      if HasKey(recs[..j + 1], k) {
        var a :| 0 <= a < j + 1 && recs[..j + 1][a].key == k;
        assert a < j ==> recs[..j][a].key == k;
      }
    }
  }

  /** Second pass of `deserialize`: a record with the head's key sets the head's links as well. */
  method LinkNodes(m: map<int32, Node>, head: Node, recs: seq<Rec>)
    requires Linked0(m) && head !in m.Values && (forall k :: k in m ==> m[k].key == k)
    requires |head.next| == LEVELS && forall i :: 0 <= i < LEVELS ==> head.next[i] == null
    requires forall j :: 0 <= j < |recs| ==> recs[j].key in m && |recs[j].next| <= LEVELS
    modifies m.Values`next, head`next
    ensures Linked(m, head, recs)
  {
    for j := 0 to |recs|
      invariant Linked(m, head, recs[..j])
    {
      LinkRecord(m, head, recs[..j], recs[j]);
      assert recs[..j + 1] == recs[..j] + [recs[j]];
    }
    assert recs[..|recs|] == recs;
  }

  method LinkRecord(m: map<int32, Node>, head: Node, ghost done: seq<Rec>, r: Rec)
    requires Linked(m, head, done) && head !in m.Values && (forall k :: k in m ==> m[k].key == k)
    requires r.key in m && |r.next| <= LEVELS
    modifies m.Values`next, head`next
    ensures Linked(m, head, done + [r])
  {
    LinkedStarts(m, head, done, r);
    for i := 0 to |r.next|
      invariant Linked(m, head, done + [Cut(r, i)])
    {
      LinkOne(m, head, done, r, i);
    }
    assert Cut(r, |r.next|) == r;
  }

  lemma LinkedStarts(m: map<int32, Node>, head: Node, done: seq<Rec>, r: Rec)
    requires Linked(m, head, done)
    ensures Linked(m, head, done + [Cut(r, 0)])
  {
    forall k, l ensures LinkFrom(done + [Cut(r, 0)], k, l) == LinkFrom(done, k, l) {
      LinkStarts(done, r, k, l);
    }
  }

  method LinkOne(m: map<int32, Node>, head: Node, ghost done: seq<Rec>, r: Rec, i: nat)
    requires i < |r.next| <= LEVELS && r.key in m
    requires Linked(m, head, done + [Cut(r, i)]) && head !in m.Values && (forall k :: k in m ==> m[k].key == k)
    modifies m.Values`next, head`next
    ensures Linked(m, head, done + [Cut(r, i + 1)])
  {
    var nextKey := r.next[i];
    forall k, l ensures LinkFrom(done + [Cut(r, i + 1)], k, l) ==
                        if k == r.key && l == i && r.next[i] != NULL then r.next[i] else LinkFrom(done + [Cut(r, i)], k, l) {
      LinkExtends(done, r, i, k, l);
    }
    if nextKey != NULL {
      var target := Target(m, nextKey);
      if r.key == HEAD {
        head.next := head.next[i := target];
      }
      m[r.key].next := m[r.key].next[i := target];
    }
  }
}
