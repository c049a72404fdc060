/** The skip list of the memtable (db/skiplist.h).  A reader loads one pointer at a time and the
    writer stores one pointer at a time; every step is a method of its own, so that any
    interleaving of loads and stores is a sequence of calls. */
module SkipLists {
  const MAX_HEIGHT := 12

  /** A key, as its rank under the comparator. */
  type Rank = real

  class Node {
    const key: Rank
    var next: seq<Node?>

    constructor (key: Rank, height: nat)
      ensures this.key == key && next == seq(height, _ => null)
    {
      this.key := key;
      next := seq(height, _ => null);
    }
  }

  // ----- One level -----

  ghost predicate Ascending(nodes: seq<Node>) {
    forall j, k :: 0 <= j < k < |nodes| ==> nodes[j].key < nodes[k].key
  }

  ghost function NodeOrNull(nodes: seq<Node>, j: nat): Node?
    requires j <= |nodes|
  {
    if j < |nodes| then nodes[j] else null
  }

  /** The pointers of level `i` run through `nodes` from the head on. */
  ghost predicate Linked(head: Node, nodes: seq<Node>, i: nat)
    reads head, nodes
  {
    && i < |head.next| && head.next[i] == NodeOrNull(nodes, 0)
    && forall j {:trigger nodes[j].next} :: 0 <= j < |nodes| ==> i < |nodes[j].next| && nodes[j].next[i] == NodeOrNull(nodes, j + 1)
  }

  /** `x` is the node `j` of a level, the head being at -1. */
  ghost predicate IsAt(head: Node, nodes: seq<Node>, j: int, x: Node) {
    -1 <= j < |nodes| && x == if j < 0 then head else nodes[j]
  }

  /** `j` counts the nodes with a key before `key`. */
  ghost predicate IsFirstFrom(nodes: seq<Node>, key: Rank, j: nat) {
    && j <= |nodes| && (forall k :: 0 <= k < j ==> nodes[k].key < key)
    && (j < |nodes| ==> nodes[j].key >= key)
  }

  /** Level `i` is of known nodes, and a part of the level below. */
  ghost predicate Part(levels: seq<seq<Node>>, nodes: set<Node>, i: nat)
    requires i < |levels|
  {
    forall n :: n in levels[i] ==> n in nodes && (i > 0 ==> n in levels[i - 1])
  }

  lemma PartsKeep(levels: seq<seq<Node>>, nodes: set<Node>, i: nat, r: seq<Node>, x: Node)
    requires forall k :: 0 <= k < |levels| ==> Part(levels, nodes, k)
    requires i < |levels| && (i > 0 ==> x in levels[i - 1])
    requires forall n :: n in r <==> n == x || n in levels[i]
    ensures var levels', nodes' := levels[i := r], nodes + {x};
      forall k :: 0 <= k < |levels| ==> Part(levels', nodes', k)
  {
    var levels', nodes' := levels[i := r], nodes + {x};
    forall k | 0 <= k < |levels|
      ensures Part(levels', nodes', k)
    {
      assert Part(levels, nodes, k);
      forall n | n in levels'[k]
        ensures n in nodes' && (k > 0 ==> n in levels'[k - 1])
      {
        assert n in levels[k] || (k == i && n == x);
      }
    }
  }

  /** A level after the stores that link `x` behind `p`. */
  lemma Relinked(head: Node, nodes: seq<Node>, i: nat, x: Node, j: nat, p: Node)
    requires j <= |nodes| && IsAt(head, nodes, j - 1, p) && head !in nodes
    requires p != head ==> i < |head.next| && head.next[i] == NodeOrNull(nodes, 0)
    requires forall k {:trigger nodes[k].next} :: 0 <= k < |nodes| && k != j - 1 ==>
               i < |nodes[k].next| && nodes[k].next[i] == NodeOrNull(nodes, k + 1)
    requires i < |p.next| && p.next[i] == x && i < |x.next| && x.next[i] == NodeOrNull(nodes, j)
    ensures Linked(head, Inserted(nodes, j, x), i)
  {
    hide Inserted;
    var r := Inserted(nodes, j, x);
    InsertedLength(nodes, j, x);
    InsertedAt(nodes, j, x, 0);
    forall k | 0 <= k < |r|
      ensures i < |r[k].next| && r[k].next[i] == NodeOrNull(r, k + 1)
    {
      InsertedAt(nodes, j, x, k);
      if k < |nodes| {
        InsertedAt(nodes, j, x, k + 1);
      }
    }
  }

  function Inserted(nodes: seq<Node>, j: nat, x: Node): seq<Node>
    requires j <= |nodes|
  {
    nodes[..j] + [x] + nodes[j..]
  }

  lemma InsertedAt(nodes: seq<Node>, j: nat, x: Node, k: nat)
    requires j <= |nodes| && k <= |nodes|
    ensures Inserted(nodes, j, x)[k] == if k < j then nodes[k] else if k == j then x else nodes[k - 1]
  {
  }

  lemma InsertedHas(nodes: seq<Node>, j: nat, x: Node)
    requires j <= |nodes|
    ensures forall n :: n in Inserted(nodes, j, x) <==> n == x || n in nodes
  {
  }

  lemma InsertedAscends(nodes: seq<Node>, j: nat, x: Node)
    requires Ascending(nodes) && IsFirstFrom(nodes, x.key, j) && forall n :: n in nodes ==> n.key != x.key
    ensures Ascending(Inserted(nodes, j, x))
  {
    hide Inserted;
    var r := Inserted(nodes, j, x);
    assert |r| == |nodes| + 1 by { InsertedLength(nodes, j, x); }
    forall k, l | 0 <= k < l < |r|
      ensures r[k].key < r[l].key
    {
      InsertedAt(nodes, j, x, k);
      InsertedAt(nodes, j, x, l);
      assert j < |nodes| ==> nodes[j] in nodes;
      assert j < l - 1 ==> nodes[j].key < nodes[l - 1].key;
    }
  }

  lemma InsertedLength(nodes: seq<Node>, j: nat, x: Node)
    requires j <= |nodes|
    ensures |Inserted(nodes, j, x)| == |nodes| + 1
  {
  }

  ghost function Keys(nodes: seq<Node>): set<Rank> {
    set n | n in nodes :: n.key
  }

  class SkipList {
    const head: Node
    var maxHeight: nat
    ghost var levels: seq<seq<Node>>
    ghost var nodes: set<Node>

    /** Each level is a sorted list, and a part of the level below it. */
    ghost predicate Inv()
      reads this, head, nodes
    {
      && |levels| == MAX_HEIGHT && 1 <= maxHeight <= MAX_HEIGHT && head !in nodes
      && (forall i :: 0 <= i < MAX_HEIGHT ==> Level(i))
      && (forall i :: maxHeight <= i < MAX_HEIGHT ==> levels[i] == [])
    }

    /** Level `i` is a sorted list, and a part of the level below. */
    ghost predicate Level(i: nat)
      requires i < |levels|
      reads `levels, `nodes, head, nodes
    {
      Part(levels, nodes, i) && Ascending(levels[i]) && Linked(head, levels[i], i)
    }

    /** The keys of the list. */
    ghost function Contents(): set<Rank>
      requires |levels| > 0
      reads this
    {
      Keys(levels[0])
    }

    constructor ()
      ensures Inv() && Contents() == {} && fresh(head) && maxHeight == 1
    {
      head := new Node(0.0, MAX_HEIGHT);
      maxHeight := 1;
      levels := seq(MAX_HEIGHT, _ => []);
      nodes := {};
    }

    /** `x` is the head, or a node of level `i` with a key before `key`. */
    ghost predicate Before(x: Node, i: nat, key: Rank)
      reads this
    {
      i < |levels| && (x == head || (x in levels[i] && x.key < key))
    }

    /** `x` is the last node of level `i` with a key before `key`, or the head. */
    ghost predicate IsLastBefore(x: Node, i: nat, key: Rank)
      reads `levels
    {
      i < |levels| && exists j: nat :: IsFirstFrom(levels[i], key, j) && IsAt(head, levels[i], j - 1, x)
    }

    /** `next` is the first node of level 0 with a key not before `key`; there is none when it is null. */
    ghost predicate IsFirstNotBefore(next: Node?, key: Rank)
      reads this
    {
      |levels| > 0 && exists j: nat :: IsFirstFrom(levels[0], key, j) && next == NodeOrNull(levels[0], j)
    }

    /** What a load at `x` may find. */
    lemma NextOf(x: Node, i: nat, key: Rank)
      requires Inv() && Before(x, i, key)
      ensures i < |x.next|
      ensures if x.next[i] != null && x.next[i].key < key then Before(x.next[i], i, key)
              else IsLastBefore(x, i, key) && (i == 0 ==> IsFirstNotBefore(x.next[i], key))
    {
      assert Level(i);
      var j := if x == head then -1 else var j :| 0 <= j < |levels[i]| && levels[i][j] == x; j;
      assert IsAt(head, levels[i], j, x);
      if x.next[i] == null || x.next[i].key >= key {
        assert IsFirstFrom(levels[i], key, j + 1);
      }
    }

    lemma LastHasNext(x: Node, i: nat, key: Rank)
      requires Inv() && IsLastBefore(x, i, key)
      ensures i < |x.next| && (x == head || x in nodes)
    {
      assert Level(i);
    }

    lemma Lower(x: Node, i: nat, key: Rank)
      requires Inv() && Before(x, i, key) && i > 0
      ensures Before(x, i - 1, key)
    {
      assert Level(i);
    }

    /** How many nodes of level `i` are after `x`. */
    ghost function After(x: Node, i: nat): (n: nat)
      requires i < |levels|
      reads this
    {
      if j: int :| 0 <= j < |levels[i]| && levels[i][j] == x then |levels[i]| - j else |levels[i]| + 1
    }

    /** FindGreaterOrEqual, with the nodes before `key` on every level. */
    method FindGreaterOrEqual(key: Rank) returns (next: Node?, prev: seq<Node>)
      requires Inv()
      ensures |prev| == MAX_HEIGHT && forall i :: 0 <= i < maxHeight ==> IsLastBefore(prev[i], i, key)
      ensures IsFirstNotBefore(next, key)
    {
      prev := seq(MAX_HEIGHT, _ => head);
      var x: Node := head;
      var level := maxHeight - 1;
      while true
        invariant 0 <= level < maxHeight && |prev| == MAX_HEIGHT && Before(x, level, key)
        invariant forall i :: level < i < maxHeight ==> IsLastBefore(prev[i], i, key)
        decreases level, After(x, level)
      {
        NextOf(x, level, key);
        next := x.next[level];
        if next != null && next.key < key {
          AfterNext(x, level, key);
          x := next;
        } else {
          prev := prev[level := x];
          if level == 0 {
            return;
          }
          Lower(x, level, key);
          level := level - 1;
        }
      }
    }

    lemma AfterNext(x: Node, i: nat, key: Rank)
      requires Inv() && Before(x, i, key) && i < |x.next| && x.next[i] != null && x.next[i].key < key
      ensures After(x.next[i], i) < After(x, i)
    {
      assert Level(i);
    }

    /** The last node with a key before `key`, or the head. */
    method FindLessThan(key: Rank) returns (x: Node)
      requires Inv()
      ensures IsLastBefore(x, 0, key)
    {
      x := head;
      var level := maxHeight - 1;
      while true
        invariant 0 <= level < maxHeight && Before(x, level, key)
        decreases level, After(x, level)
      {
        NextOf(x, level, key);
        var next := x.next[level];
        if next == null || next.key >= key {
          if level == 0 {
            return;
          }
          Lower(x, level, key);
          level := level - 1;
        } else {
          AfterNext(x, level, key);
          x := next;
        }
      }
    }

    /** A store into a node that is not on level `i` yet. */
    method NoBarrierSetNext(x: Node, i: nat, n: Node?)
      requires Inv() && i < MAX_HEIGHT && x != head && x !in levels[i] && i < |x.next|
      modifies x
      ensures Inv() && x.next == old(x.next)[i := n]
    {
      x.next := x.next[i := n];
      forall k | 0 <= k < MAX_HEIGHT
        ensures Level(k)
      {
        assert old(Level(k));
      }
    }

    /** The store that publishes `x` on level `i`, after its predecessor `p`. */
    method SetNext(p: Node, i: nat, x: Node, ghost j: nat)
      requires Inv() && i < maxHeight && x != head && i < |x.next| && i < |p.next| && x.next[i] == p.next[i]
      requires IsFirstFrom(levels[i], x.key, j) && IsAt(head, levels[i], j - 1, p)
      requires forall n :: n in levels[i] ==> n.key != x.key
      requires i > 0 ==> x in levels[i - 1]
      modifies this`levels, this`nodes, p
      ensures Inv() && levels == old(levels)[i := Inserted(old(levels[i]), j, x)] && nodes == old(nodes) + {x}
      ensures p.next == old(p.next)[i := x]
    {
      hide Inserted, Part, Linked, Ascending;
      ghost var level, r := levels[i], Inserted(levels[i], j, x);
      AllLevels();
      InsertedHas(level, j, x);
      PartsKeep(levels, nodes, i, r, x);
      InsertedAscends(level, j, x);
      assert Level(i);
      NotTheHead(i);
      Relink(p, i, x, levels, j);
      levels := levels[i := r];
      nodes := nodes + {x};
    }

    lemma AllLevels()
      requires Inv()
      ensures forall k :: 0 <= k < MAX_HEIGHT ==> Part(levels, nodes, k) && Ascending(levels[k]) && Linked(head, levels[k], k)
    {
      hide Part, Linked, Ascending;
      forall k | 0 <= k < MAX_HEIGHT
        ensures Part(levels, nodes, k) && Ascending(levels[k]) && Linked(head, levels[k], k)
      {
        assert Level(k);
      }
    }

    lemma NotTheHead(i: nat)
      requires Inv() && i < MAX_HEIGHT
      ensures head !in levels[i]
    {
      hide Linked, Ascending;
      assert Level(i);
    }

    /** The store itself: level `i` runs through `x`, the others are as they were. */
    method Relink(p: Node, i: nat, x: Node, ghost levels: seq<seq<Node>>, ghost j: nat)
      requires i < |levels| && j <= |levels[i]| && IsAt(head, levels[i], j - 1, p) && Ascending(levels[i])
      requires head !in levels[i] && x != head && i < |x.next| && i < |p.next| && x.next[i] == p.next[i] && x !in levels[i]
      requires forall k :: 0 <= k < |levels| ==> Linked(head, levels[k], k)
      modifies p
      ensures forall k :: 0 <= k < |levels| && k != i ==> Linked(head, levels[k], k)
      ensures Linked(head, Inserted(levels[i], j, x), i) && p.next == old(p.next)[i := x]
    {
      hide Inserted;
      ghost var level := levels[i];
      assert forall k :: 0 <= k < |level| && k != j - 1 ==> level[k] != p;
      hide Ascending, NodeOrNull;
      label before:
      p.next := p.next[i := x];
      assert Linked(head, Inserted(level, j, x), i) by {
        assert old@before(Linked(head, level, i));
        Relinked(head, level, i, x, j, p);
      }
      forall k | 0 <= k < |levels| && k != i
        ensures Linked(head, levels[k], k)
      {
        assert old@before(Linked(head, levels[k], k));
      }
    }

    /** The last node, or the head of an empty list. */
    method FindLast() returns (x: Node)
      requires Inv()
      ensures IsAt(head, levels[0], |levels[0]| - 1, x)
    {
      x := head;
      var level := maxHeight - 1;
      while true
        invariant 0 <= level < maxHeight && (x == head || x in levels[level])
        decreases level, After(x, level)
      {
        var j := OnLevel(x, level);
        assert Level(level);
        var next := x.next[level];
        if next == null {
          if level == 0 {
            return;
          }
          level := level - 1;
        } else {
          AfterNext(x, level, next.key + 1.0);
          x := next;
        }
      }
    }

    lemma OnLevel(x: Node, i: nat) returns (j: int)
      requires Inv() && i < MAX_HEIGHT && (x == head || x in levels[i])
      ensures IsAt(head, levels[i], j, x) && i < |x.next| && x.next[i] == NodeOrNull(levels[i], j + 1)
    {
      assert Level(i);
      j := if x == head then -1 else var j :| 0 <= j < |levels[i]| && levels[i][j] == x; j;
    }
  }

  // ----- A reader, one load at a time -----

  /** FindGreaterOrEqual as a reader runs it while the writer may store. */
  class Reader {
    const list: SkipList
    const key: Rank
    var x: Node
    var level: nat
    var done: bool
    var result: Node?
    ghost const before: seq<Node>  // level 0 when the search started
    ghost var seen: seq<Node>  // level 0 at the last load

    ghost predicate Inv()
      reads this, list
    {
      && |list.levels| == MAX_HEIGHT && level < MAX_HEIGHT
      && (!done ==> list.Before(x, level, key))
      && (forall n :: n in before ==> n in list.levels[0])
      && (done ==> Answers(seen) && forall n :: n in before ==> n in seen)
    }

    /** The result is right for a list of these nodes. */
    ghost predicate Answers(nodes: seq<Node>)
      reads this
    {
      exists j: nat :: IsFirstFrom(nodes, key, j) && result == NodeOrNull(nodes, j)
    }

    constructor (list: SkipList, key: Rank)
      requires list.Inv()
      ensures Inv() && !done && this.list == list && this.key == key && before == list.levels[0]
    {
      this.list, this.key, before := list, key, list.levels[0];
      x, level, done, result, seen := list.head, list.maxHeight - 1, false, null, [];
    }

    /** One load; the search ends with what level 0 holds at this load. */
    method Step()
      requires list.Inv() && Inv() && !done
      modifies this
      ensures Inv() && (done ==> seen == list.levels[0])
      ensures done || level < old(level) || (level == old(level) && list.After(x, level) < old(list.After(x, level)))
    {
      list.NextOf(x, level, key);
      var next := x.next[level];
      if next != null && next.key < key {
        list.AfterNext(x, level, key);
        x := next;
      } else if level == 0 {
        result, done, seen := next, true, list.levels[0];
      } else {
        list.Lower(x, level, key);
        level := level - 1;
      }
    }
  }

  /** A search that the writer leaves alone comes to its end. */
  method RunToEnd(reader: Reader)
    requires reader.list.Inv() && reader.Inv()
    modifies reader
    ensures reader.Inv() && reader.done
  {
    hide SkipList.Inv, SkipList.Before, SkipList.After, Reader.Answers;
    while !reader.done
      invariant reader.Inv() && reader.list.Inv()
      decreases !reader.done, reader.level, reader.list.After(reader.x, reader.level)
    {
      reader.Step();
    }
  }

  // ----- The writer, one store at a time -----

  /** Insert, once the place has been found. */
  class Inserter {
    const list: SkipList
    const x: Node
    const height: nat
    var prev: seq<Node>
    var level: nat  // the next level to be linked
    var filled: bool  // the new node's own pointer on that level is stored

    ghost predicate Inv()
      reads this, list, list.head, list.nodes, x
    {
      && list.Inv() && 1 <= height == |x.next| <= MAX_HEIGHT && x != list.head
      && level <= height && |prev| == MAX_HEIGHT
      && (level > 0 ==> height <= list.maxHeight)
      && (forall i :: 0 <= i < level ==> x in list.levels[i])
      && (forall i :: level <= i < MAX_HEIGHT ==> forall n :: n in list.levels[i] ==> n.key != x.key)
      && (forall i :: level <= i < height ==> list.IsLastBefore(prev[i], i, x.key))
      && (filled ==> level < height <= list.maxHeight && (prev[level] == list.head || prev[level] in list.nodes))
      && (filled ==> level < |prev[level].next| && x.next[level] == prev[level].next[level])
    }

    predicate Done()
      reads this
    {
      level == height
    }

    constructor (list: SkipList, key: Rank, height: nat)
      requires list.Inv() && 1 <= height <= MAX_HEIGHT && key !in list.Contents()
      ensures Inv() && !Done() && level == 0 && x.key == key && fresh(x) && this.list == list && this.height == height
    {
      this.list, this.height := list, height;
      var next: Node?, before: seq<Node> := list.FindGreaterOrEqual(key);
      if height > list.maxHeight {
        for i := list.maxHeight to height
          invariant |before| == MAX_HEIGHT
          invariant forall k :: 0 <= k < i ==> list.IsLastBefore(before[k], k, key)
        {
          before := before[i := list.head];
          assert IsFirstFrom(list.levels[i], key, 0) && IsAt(list.head, list.levels[i], -1, list.head);
        }
      }
      x := new Node(key, height);
      prev, level, filled := before, 0, false;
      new;
      AbsentEverywhere(list, key);
    }

    /** One store. */
    method Step()
      requires Inv() && !Done()
      modifies `level, `filled, x, list, prev[level]
      ensures Inv()
      ensures forall i, n :: 0 <= i < MAX_HEIGHT && n in old(list.levels[i]) ==> n in list.levels[i]
      ensures level == old(level) || level == old(level) + 1
      ensures level == old(level) ==> list.Contents() == old(list.Contents())
      ensures level > old(level) ==> list.Contents() == old(list.Contents()) + {x.key}
      ensures Remaining() < old(Remaining()) && list.nodes <= old(list.nodes) + {x}
    {
      hide Keys;
      if height > list.maxHeight {
        list.maxHeight := height;
      } else if !filled {
        list.LastHasNext(prev[level], level, x.key);
        list.NoBarrierSetNext(x, level, prev[level].next[level]);
        filled := true;
      } else {
        Publish();
      }
    }

    lemma PrevIsKnown()
      requires Inv() && !Done()
      ensures prev[level] == list.head || prev[level] in list.nodes
    {
      list.LastHasNext(prev[level], level, x.key);
    }

    /** How many stores are left. */
    ghost function Remaining(): nat
      requires Inv()
      reads this, list, list.head, list.nodes, x
    {
      2 * (height - level) + (if filled then 0 else 1) + if height > list.maxHeight then 1 else 0
    }

    method Publish()
      requires Inv() && !Done() && filled
      modifies `level, `filled, list`levels, list`nodes, prev[level]
      ensures Inv() && level == old(level) + 1 && !filled
      ensures forall i, n :: 0 <= i < MAX_HEIGHT && n in old(list.levels[i]) ==> n in list.levels[i]
      ensures list.Contents() == old(list.Contents()) + {x.key} && list.nodes == old(list.nodes) + {x}
    {
      hide NodeOrNull, Linked, Ascending, Part, Inserted;
      ghost var i, was := level, list.levels[level];
      ghost var bottom := list.levels[0];
      ghost var j: nat :| IsFirstFrom(was, x.key, j) && IsAt(list.head, was, j - 1, prev[i]);
      label before:
      list.SetNext(prev[level], level, x, j);
      level, filled := level + 1, false;
      InsertedHas(was, j, x);
      forall k | level <= k < height
        ensures list.IsLastBefore(prev[k], k, x.key)
      {
        assert old@before(list.IsLastBefore(prev[k], k, x.key));
        assert list.levels[k] == old@before(list.levels[k]);
      }
      KeysGrow(bottom, list.levels[0], x);
    }
  }

  lemma KeysGrow(nodes: seq<Node>, more: seq<Node>, x: Node)
    requires forall n :: n in more <==> n == x || n in nodes
    ensures Keys(more) == Keys(nodes) + {x.key}
  {
    assert x in more;
    assert forall n :: n in nodes ==> n in more;
  }

  lemma AbsentEverywhere(list: SkipList, key: Rank)
    requires list.Inv() && key !in list.Contents()
    ensures forall i, n :: 0 <= i < MAX_HEIGHT && n in list.levels[i] ==> n.key != key
  {
    forall i, n | 0 <= i < MAX_HEIGHT && n in list.levels[i]
      ensures n.key != key
    {
      InLower(list, i, n);
    }
  }

  lemma InLower(list: SkipList, i: nat, n: Node)
    requires list.Inv() && i < MAX_HEIGHT && n in list.levels[i]
    ensures n in list.levels[0]
  {
    if i > 0 {
      assert list.Level(i);
      InLower(list, i - 1, n);
    }
  }

  // ----- Runs -----

  /** Insert, with nobody else at work: exactly one key more. */
  method Insert(list: SkipList, key: Rank, height: nat)
    requires list.Inv() && 1 <= height <= MAX_HEIGHT && key !in list.Contents()
    modifies list, list.head, list.nodes
    ensures list.Inv() && list.Contents() == old(list.Contents()) + {key}
    ensures fresh(list.nodes - old(list.nodes))
  {
    hide Keys;
    var inserter := new Inserter(list, key, height);
    while !inserter.Done()
      invariant inserter.Inv() && list.nodes <= old(list.nodes) + {inserter.x}
      invariant list.Contents() == old(list.Contents()) + if inserter.level > 0 then {key} else {}
      decreases inserter.Remaining()
    {
      inserter.PrevIsKnown();
      inserter.Step();
    }
  }

  method Contains(list: SkipList, key: Rank) returns (r: bool)
    requires list.Inv()
    ensures r <==> key in list.Contents()
  {
    var x, prev := list.FindGreaterOrEqual(key);
    r := x != null && x.key == key;
    assert list.Level(0);
    ghost var j: nat :| IsFirstFrom(list.levels[0], key, j) && x == NodeOrNull(list.levels[0], j);
    if key in list.Contents() {
      var n :| n in list.levels[0] && n.key == key;
      var k :| 0 <= k < |list.levels[0]| && list.levels[0][k] == n;
      assert list.levels[0][j].key <= n.key;
    }
  }

  /** The searches of all readers go on in this list. */
  ghost predicate Reading(list: SkipList, readers: seq<Reader>)
    reads readers, list
  {
    forall i :: 0 <= i < |readers| ==> readers[i].list == list && readers[i].Inv()
  }

  /** Keys that may be inserted one after the other. */
  ghost predicate CanInsert(list: SkipList, keys: seq<Rank>, heights: seq<nat>)
    requires |list.levels| > 0
    reads list
  {
    && |keys| == |heights| && (forall i :: 0 <= i < |heights| ==> 1 <= heights[i] <= MAX_HEIGHT)
    && (forall i :: 0 <= i < |keys| ==> keys[i] !in list.Contents())
    && forall i, j :: 0 <= i < j < |keys| ==> keys[i] != keys[j]
  }

  ghost function Ranks(keys: seq<Rank>): set<Rank> {
    set k | k in keys
  }

  lemma RanksGrow(keys: seq<Rank>, n: nat)
    requires 0 < n <= |keys|
    ensures Ranks(keys[..n]) == Ranks(keys[..n - 1]) + {keys[n - 1]}
  {
    assert keys[..n] == keys[..n - 1] + [keys[n - 1]];
  }

  lemma NextIsNew(keys: seq<Rank>, next: nat, before: set<Rank>)
    requires next < |keys| && (forall i :: 0 <= i < |keys| ==> keys[i] !in before)
    requires forall i, j :: 0 <= i < j < |keys| ==> keys[i] != keys[j]
    ensures keys[next] !in before + Ranks(keys[..next])
  {
  }

  /** The writer finds the place of its next key. */
  method StartInsertion(list: SkipList, key: Rank, height: nat, readers: seq<Reader>) returns (inserter: Inserter)
    requires list.Inv() && 1 <= height <= MAX_HEIGHT && key !in list.Contents() && Reading(list, readers)
    ensures fresh(inserter) && fresh(inserter.x) && inserter.Inv() && inserter.list == list && inserter.x.key == key
    ensures inserter.level == 0 && list.Inv() && Reading(list, readers)
  {
    inserter := new Inserter(list, key, height);
  }

  /** One store of the writer leaves every search as good as it was. */
  method WriterMoves(list: SkipList, inserter: Inserter, readers: seq<Reader>)
    requires inserter.list == list && inserter.Inv() && !inserter.Done() && Reading(list, readers)
    modifies list, list.head, list.nodes, inserter, inserter.x
    ensures inserter.Inv() && Reading(list, readers) && list.nodes <= old(list.nodes) + {inserter.x}
    ensures inserter.level == old(inserter.level) || inserter.level == old(inserter.level) + 1
    ensures inserter.level == old(inserter.level) ==> list.Contents() == old(list.Contents())
    ensures inserter.Remaining() < old(inserter.Remaining())
    ensures inserter.level > old(inserter.level) ==> list.Contents() == old(list.Contents()) + {inserter.x.key}
  {
    hide Keys, Linked, Ascending, Part;
    inserter.PrevIsKnown();
    label before:
    inserter.Step();
    forall i | 0 <= i < |readers|
      ensures readers[i].Inv()
    {
      assert old@before(readers[i].Inv());
    }
  }

  /** One load of a reader; the others are not concerned. */
  method ReaderMoves(list: SkipList, readers: seq<Reader>, i: nat)
    requires list.Inv() && Reading(list, readers) && i < |readers|
    modifies readers[i]
    ensures Reading(list, readers)
  {
    hide SkipList.Inv;
    if !readers[i].done {
      readers[i].Step();
    }
  }

  /** Any number of searches and a series of insertions, in any interleaving of their loads and
      stores; `schedule` says which reader moves next, or that the writer does.  Whatever it is,
      the levels stay sorted lists within each other after every store; a search that ended
      answers what level 0 held at its last load, which has every node that was there when it
      started; and the list has what was inserted so far. */
  method Interleave(list: SkipList, keys: seq<Rank>, heights: seq<nat>, readers: seq<Reader>, schedule: seq<nat>)
      returns (ghost n: nat)
    requires list.Inv() && CanInsert(list, keys, heights) && Reading(list, readers)
    modifies list, list.head, list.nodes, readers
    ensures list.Inv() && n <= |keys| && list.Contents() == old(list.Contents()) + Ranks(keys[..n])
    ensures forall i :: 0 <= i < |readers| ==> readers[i].Inv()
    ensures forall i :: 0 <= i < |readers| && readers[i].done ==>
      readers[i].Answers(readers[i].seen) && forall x :: x in readers[i].before ==> x in readers[i].seen
  {
    hide SkipList.Level, Reader.Answers, Keys;
    var inserter: Inserter?, next: nat := null, 0;
    n := 0;
    assert keys[..0] == [] && Ranks([]) == {};
    for s := 0 to |schedule|
      invariant list.Inv() && Reading(list, readers) && n <= next <= |keys|
      invariant |list.levels| > 0 && list.Contents() == old(list.Contents()) + Ranks(keys[..n])
      invariant fresh(list.nodes - old(list.nodes))
      invariant if inserter == null then next == n
        else next > 0 && fresh(inserter) && fresh(inserter.x) && inserter.list == list && inserter.Inv()
             && inserter.x.key == keys[next - 1] && next == if inserter.level > 0 then n else n + 1
    {
      if schedule[s] < |readers| {
        ReaderMoves(list, readers, schedule[s]);
      } else if inserter != null && !inserter.Done() {
        ghost var was := inserter.level;
        WriterMoves(list, inserter, readers);
        RanksGrow(keys, next);
        n := if inserter.level > 0 then next else n;
      } else if next < |keys| {
        NextIsNew(keys, next, old(list.Contents()));
        inserter := StartInsertion(list, keys[next], heights[next], readers);
        next := next + 1;
      }
    }
  }

  // ----- The iterator -----

  /** A position in level 0; not valid when `node` is null. */
  class Iterator {
    const list: SkipList
    var node: Node?

    constructor (list: SkipList)
      ensures node == null && this.list == list
    {
      this.list, node := list, null;
    }

    /** The iterator is at node `j` of the list, or at its end. */
    ghost predicate At(j: nat)
      reads this, list
    {
      |list.levels| > 0 && j <= |list.levels[0]| && node == NodeOrNull(list.levels[0], j)
    }

    method Seek(target: Rank) returns (ghost j: nat)
      requires list.Inv()
      modifies this
      ensures At(j) && IsFirstFrom(list.levels[0], target, j)
    {
      var next, prev := list.FindGreaterOrEqual(target);
      j :| IsFirstFrom(list.levels[0], target, j) && next == NodeOrNull(list.levels[0], j);
      node := next;
    }

    method SeekToFirst()
      requires list.Inv()
      modifies this
      ensures At(0)
    {
      assert list.Level(0);
      node := list.head.next[0];
    }

    method SeekToLast()
      requires list.Inv()
      modifies this
      ensures At(if list.levels[0] == [] then 0 else |list.levels[0]| - 1)
    {
      var last := list.FindLast();
      node := if last == list.head then null else last;
      assert list.Level(0);
    }

    method Next(ghost j: nat)
      requires list.Inv() && At(j) && node != null
      modifies this
      ensures At(j + 1)
    {
      assert list.Level(0);
      node := node.next[0];
    }

    /** There are no links back: the node before is searched for. */
    method Prev(ghost j: nat)
      requires list.Inv() && At(j) && node != null
      modifies this
      ensures At(if j == 0 then |list.levels[0]| else j - 1)
    {
      assert list.Level(0);
      var last := list.FindLessThan(node.key);
      ghost var k: nat :| IsFirstFrom(list.levels[0], node.key, k) && IsAt(list.head, list.levels[0], k - 1, last);
      assert k == j;
      node := if last == list.head then null else last;
    }
  }
}
