/** db/skiplist.h, instantiated as in the memtable: keys are entries in internal-key order. One writer
    inserts by single link stores while readers search without locks; every class below advances by
    one atomic load or store per step, so runs can be interleaved in any way. */
module SkipLists {
  import opened DbFormat

  const MAX_HEIGHT: nat := 12

  class Node {
    const key: Entry
    var next: seq<Node?>  // one link per level of the node's height

    constructor (key: Entry, height: nat)
      ensures this.key == key && next == seq(height, _ => null)
    {
      this.key := key;
      this.next := seq(height, _ => null);
    }
  }

  // ----- sorted lists of nodes -----

  ghost predicate SortedNodes(ns: seq<Node>) {
    forall i, j :: 0 <= i < j < |ns| ==> Before(ns[i].key, ns[j].key)
  }

  predicate SameKey(a: Entry, b: Entry) {
    a.user == b.user && a.Tag() == b.Tag()
  }

  /** How many nodes of a sorted list come before the target. */
  ghost function Split(ns: seq<Node>, target: Entry): (p: nat)
    ensures p <= |ns|
    ensures SortedNodes(ns) ==> forall i :: 0 <= i < |ns| ==> (Before(ns[i].key, target) <==> i < p)
  {
    if ns == [] then 0
    else
      var last := |ns| - 1;
      if Before(ns[last].key, target) then |ns| else Split(ns[..last], target)
  }

  /** The last node that comes before the target, the head if none does. */
  ghost function LastBefore(head: Node, ns: seq<Node>, target: Entry): Node {
    var p := Split(ns, target);
    if p == 0 then head else ns[p - 1]
  }

  /** The node at a position, or the null that ends the list. */
  ghost function At(ns: seq<Node>, i: nat): Node? {
    if i < |ns| then ns[i] else null
  }

  ghost function Inserted(ns: seq<Node>, x: Node): seq<Node> {
    var p := Split(ns, x.key);
    ns[..p] + [x] + ns[p..]
  }

  lemma InsertedAt(ns: seq<Node>, x: Node)
    ensures var ms, p := Inserted(ns, x), Split(ns, x.key);
            && |ms| == |ns| + 1
            && forall i {:trigger ms[i]} :: 0 <= i < |ms| ==>
                 ms[i] == if i < p then ns[i] else if i == p then x else ns[i - 1]
    ensures forall n :: n in Inserted(ns, x) <==> n in ns || n == x
  {
    assert ns == ns[..Split(ns, x.key)] + ns[Split(ns, x.key)..];
  }

  lemma SplitIs(ns: seq<Node>, target: Entry, p: nat)
    requires SortedNodes(ns) && p <= |ns|
    requires p > 0 ==> Before(ns[p - 1].key, target)
    requires p < |ns| ==> !Before(ns[p].key, target)
    ensures Split(ns, target) == p
  {
  }

  lemma OnlyOnce(ns: seq<Node>, i: nat)
    requires SortedNodes(ns) && i < |ns|
    ensures forall j :: 0 <= j < |ns| && ns[j] == ns[i] ==> j == i
  {
  }

  lemma InsertedIsSorted(ns: seq<Node>, x: Node)
    requires SortedNodes(ns) && forall n :: n in ns ==> !SameKey(n.key, x.key)
    ensures SortedNodes(Inserted(ns, x))
  {
    InsertedAt(ns, x);
    assert forall i :: 0 <= i < |ns| ==> ns[i] in ns;
  }

  // ----- the links of the whole list -----

  type Links = map<Node, seq<Node?>>

  /** From the head, the links of level l lead through exactly 'ns', which is sorted. */
  ghost predicate LevelOk(links: Links, head: Node, ns: seq<Node>, l: nat) {
    && SortedNodes(ns) && head !in ns
    && head in links && l < |links[head]| && links[head][l] == At(ns, 0)
    && (forall i :: 0 <= i < |ns| ==> ns[i] in links)
    && (forall i {:trigger links[ns[i]]} :: 0 <= i < |ns| ==> l < |links[ns[i]]| && links[ns[i]][l] == At(ns, i + 1))
  }

  ghost predicate Sublist(levels: seq<seq<Node>>, l: nat)
    requires 1 <= l < |levels|
  {
    forall n :: n in levels[l] ==> n in levels[l - 1]
  }

  /** Each level is sorted and properly linked, level l + 1 is a sublist of level l, and nothing is
      linked above the current height. */
  ghost predicate ListOk(links: Links, head: Node, levels: seq<seq<Node>>, maxHeight: nat) {
    && |levels| == MAX_HEIGHT && 1 <= maxHeight <= MAX_HEIGHT
    && (forall l {:trigger LevelOk(links, head, levels[l], l)} :: 0 <= l < MAX_HEIGHT ==>
          LevelOk(links, head, levels[l], l))
    && (forall l {:trigger Sublist(levels, l)} :: 1 <= l < MAX_HEIGHT ==> Sublist(levels, l))
    && (forall l :: maxHeight <= l < MAX_HEIGHT ==> levels[l] == [])
  }

  lemma {:induction false} InContents(levels: seq<seq<Node>>, l: nat, n: Node)
    requires l < |levels| && n in levels[l]
    requires forall m :: 1 <= m < |levels| ==> Sublist(levels, m)
    ensures n in levels[0]
  {
    if l > 0 {
      assert Sublist(levels, l);
      InContents(levels, l - 1, n);
    }
  }

  /** Storing into a node that is not linked at the level stored to leaves the list in order. */
  lemma PrivateStoreOk(links: Links, head: Node, levels: seq<seq<Node>>, maxHeight: nat, x: Node, after: seq<Node?>)
    requires ListOk(links, head, levels, maxHeight) && x != head
    requires x in links ==> |after| == |links[x]|
    requires forall l :: 0 <= l < MAX_HEIGHT && x in levels[l] ==>
               x in links && l < |links[x]| && l < |after| && after[l] == links[x][l]
    ensures ListOk(links[x := after], head, levels, maxHeight)
  {
    forall l | 0 <= l < MAX_HEIGHT ensures LevelOk(links[x := after], head, levels[l], l) {
      assert LevelOk(links, head, levels[l], l);
    }
  }

  lemma OtherLevelOk(links: Links, head: Node, ns: seq<Node>, m: nat, pred: Node, l: nat, x: Node)
    requires LevelOk(links, head, ns, m) && pred in links && l < |links[pred]| && l != m
    ensures LevelOk(links[pred := links[pred][l := x]], head, ns, m)
  {
  }

  lemma SublistsKept(levels: seq<seq<Node>>, l: nat, x: Node, after: seq<seq<Node>>)
    requires l < |levels| && forall m :: 1 <= m < |levels| ==> Sublist(levels, m)
    requires |after| == |levels| && forall m :: 0 <= m < |levels| && m != l ==> after[m] == levels[m]
    requires forall n :: n in after[l] <==> n in levels[l] || n == x
    requires l > 0 ==> x in levels[l - 1]
    ensures forall m :: 1 <= m < |levels| ==> Sublist(after, m)
  {
    forall m | 1 <= m < |levels| ensures Sublist(after, m) {
      assert Sublist(levels, m);
    }
  }

  /** The predecessor of x at a level is a linked node, and its link there leads to x's successor. */
  lemma PredecessorLink(links: Links, head: Node, ns: seq<Node>, l: nat, x: Node)
    requires LevelOk(links, head, ns, l) && x != head && x !in ns
    ensures var pred, p := LastBefore(head, ns, x.key), Split(ns, x.key);
            && pred != x && pred in links && l < |links[pred]| && links[pred][l] == At(ns, p)
            && forall i :: 0 <= i < |ns| ==> (ns[i] == pred <==> i + 1 == p)
  {
    var p := Split(ns, x.key);
    assert p > 0 ==> links[ns[p - 1]] == links[LastBefore(head, ns, x.key)];
  }

  /** One store into the link of x's predecessor puts x in its place at level l. */
  lemma LinkStoreOk(links: Links, head: Node, levels: seq<seq<Node>>, maxHeight: nat, l: nat, x: Node)
    requires ListOk(links, head, levels, maxHeight) && l < maxHeight && x != head
    requires x in links && l < |links[x]| && links[x][l] == At(levels[l], Split(levels[l], x.key))
    requires forall n :: n in levels[l] ==> n != x && !SameKey(n.key, x.key)
    requires l > 0 ==> x in levels[l - 1]
    ensures var pred := LastBefore(head, levels[l], x.key);
            && pred != x && pred in links && l < |links[pred]|
            && ListOk(links[pred := links[pred][l := x]], head, levels[l := Inserted(levels[l], x)], maxHeight)
  {
    var ns, pred, ms := levels[l], LastBefore(head, levels[l], x.key), Inserted(levels[l], x);
    assert LevelOk(links, head, ns, l);
    PredecessorLink(links, head, ns, l, x);
    InsertedLevelOk(links, head, ns, l, x, ms);
    InsertedAt(ns, x);
    LevelsOk(links, head, levels, maxHeight, pred, l, x, ms);
  }

  lemma LevelsOk(links: Links, head: Node, levels: seq<seq<Node>>, maxHeight: nat, pred: Node, l: nat, x: Node,
                 ms: seq<Node>)
    requires ListOk(links, head, levels, maxHeight) && l < maxHeight
    requires pred in links && l < |links[pred]| && LevelOk(links[pred := links[pred][l := x]], head, ms, l)
    requires forall n :: n in ms <==> n in levels[l] || n == x
    requires l > 0 ==> x in levels[l - 1]
    ensures ListOk(links[pred := links[pred][l := x]], head, levels[l := ms], maxHeight)
  {
    var after := levels[l := ms];
    SublistsKept(levels, l, x, after);
    forall m | 0 <= m < MAX_HEIGHT ensures LevelOk(links[pred := links[pred][l := x]], head, after[m], m) {
      if m != l {
        OtherLevelOk(links, head, levels[m], m, pred, l, x);
      }
    }
  }

  lemma InsertedLevelOk(links: Links, head: Node, ns: seq<Node>, l: nat, x: Node, ms: seq<Node>)
    requires LevelOk(links, head, ns, l) && x != head && ms == Inserted(ns, x)
    requires x in links && l < |links[x]| && links[x][l] == At(ns, Split(ns, x.key))
    requires forall n :: n in ns ==> n != x && !SameKey(n.key, x.key)
    requires LastBefore(head, ns, x.key) in links && l < |links[LastBefore(head, ns, x.key)]|
    ensures var pred := LastBefore(head, ns, x.key);
            LevelOk(links[pred := links[pred][l := x]], head, ms, l)
  {
    var p, pred := Split(ns, x.key), LastBefore(head, ns, x.key);
    hide LevelOk, SortedNodes, Split, Inserted, LastBefore, At;
    InsertedAt(ns, x);
    LevelParts(links, head, ns, l);
    InsertedIsSorted(ns, x);
    PredecessorLink(links, head, ns, l, x);
    PredecessorIs(head, ns, x.key);
    LinksAfterStore(links, head, ns, l, x, p, pred);
    InsertedLinks(links, links[pred := links[pred][l := x]], head, ns, l, x, p, ms);
  }

  lemma LevelParts(links: Links, head: Node, ns: seq<Node>, l: nat)
    requires LevelOk(links, head, ns, l)
    ensures SortedNodes(ns)
  {
  }

  /** What the links of the level are after the store, by position. */
  lemma LinksAfterStore(links: Links, head: Node, ns: seq<Node>, l: nat, x: Node, p: nat, pred: Node)
    requires LevelOk(links, head, ns, l) && p <= |ns| && pred == if p == 0 then head else ns[p - 1]
    requires pred != x && pred in links && l < |links[pred]|
    requires forall i :: 0 <= i < |ns| ==> (ns[i] == pred <==> i + 1 == p)
    requires x in links && l < |links[x]| && links[x][l] == At(ns, p)
    ensures var after := links[pred := links[pred][l := x]];
            && after.Keys == links.Keys && l < |after[x]| && after[x][l] == At(ns, p)
            && l < |after[head]| && after[head][l] == (if p == 0 then x else At(ns, 0))
            && forall i {:trigger after[ns[i]]} :: 0 <= i < |ns| ==>
                 l < |after[ns[i]]| && after[ns[i]][l] == if i + 1 == p then x else At(ns, i + 1)
  {
    hide SortedNodes, At;
  }

  lemma PredecessorIs(head: Node, ns: seq<Node>, target: Entry)
    ensures var (p, pred) := (Split(ns, target), LastBefore(head, ns, target));
            p <= |ns| && pred == if p == 0 then head else ns[p - 1]
  {
  }

  /** The same by position, free of how the lists were computed. */
  lemma InsertedLinks(links: Links, after: Links, head: Node, ns: seq<Node>, l: nat, x: Node, p: nat, ms: seq<Node>)
    requires LevelOk(links, head, ns, l) && x != head && p <= |ns|
    requires SortedNodes(ms) && |ms| == |ns| + 1
    requires forall i {:trigger ms[i]} :: 0 <= i < |ms| ==>
               ms[i] == if i < p then ns[i] else if i == p then x else ns[i - 1]
    requires after.Keys == links.Keys && x in after && l < |after[x]| && after[x][l] == At(ns, p)
    requires l < |after[head]| && after[head][l] == if p == 0 then x else At(ns, 0)
    requires forall i {:trigger after[ns[i]]} :: 0 <= i < |ns| ==>
               l < |after[ns[i]]| && after[ns[i]][l] == if i + 1 == p then x else At(ns, i + 1)
    ensures LevelOk(after, head, ms, l)
  {
    hide SortedNodes;
    assert ms[0] == if p == 0 then x else ns[0];
    forall i | 0 <= i < |ms|
      ensures ms[i] in after && l < |after[ms[i]]| && after[ms[i]][l] == At(ms, i + 1)
    {
      assert i != p ==> ms[i] == ns[if i < p then i else i - 1];
    }
  }

  class SkipList {
    const head: Node
    var maxHeight: nat
    ghost var levels: seq<seq<Node>>  // the nodes linked after the head, level by level
    ghost var nodes: set<Node>  // every node, the head included

    ghost function AllLinks(): Links
      reads this, nodes
    {
      map n | n in nodes :: n.next
    }

    /** Holds after every single store of an insertion, not only between insertions. */
    ghost predicate Valid()
      reads this, nodes
      ensures Valid() ==> |levels| == MAX_HEIGHT && 1 <= maxHeight <= MAX_HEIGHT
    {
      head in nodes && |head.next| == MAX_HEIGHT && ListOk(AllLinks(), head, levels, maxHeight)
    }

    /** The set of keys, in order: the bottom level. */
    ghost function Contents(): seq<Node>
      requires |levels| == MAX_HEIGHT
      reads this
    {
      levels[0]
    }

    /** The earliest node that comes at or after the target, as of now. */
    ghost function AtOrAfter(target: Entry): Node?
      requires |levels| == MAX_HEIGHT
      reads this
    {
      At(Contents(), Split(Contents(), target))
    }

    /** The position of a node in its level, counting the head as 0. */
    ghost function Position(x: Node, level: nat): (i: nat)
      requires Valid() && level < maxHeight && (x == head || x in levels[level])
      reads this, nodes
      ensures i <= |levels[level]| && x == if i == 0 then head else levels[level][i - 1]
    {
      if x == head then 0
      else
        var i :| 0 <= i < |levels[level]| && levels[level][i] == x;
        i + 1
    }

    /** x->Next(level) finds the node that follows x in the level as it is now. */
    method Load(x: Node, level: nat) returns (next: Node?)
      requires Valid() && level < maxHeight && (x == head || x in levels[level])
      ensures next == At(levels[level], Position(x, level))
      ensures next == null || next in levels[level]
    {
      ghost var ns, i := levels[level], Position(x, level);
      assert LevelOk(AllLinks(), head, ns, level);
      assert AllLinks()[if i == 0 then head else ns[i - 1]] == x.next;
      next := x.next[level];
    }

    lemma LevelFacts(level: nat)
      requires Valid() && level < maxHeight
      ensures SortedNodes(levels[level]) && head !in levels[level]
      ensures level > 0 ==> Sublist(levels, level)
    {
      assert LevelOk(AllLinks(), head, levels[level], level);
    }

    lemma NotLinked(n: Node)
      requires Valid() && n !in nodes
      ensures forall l :: 0 <= l < MAX_HEIGHT ==> n !in levels[l]
    {
      forall l | 0 <= l < MAX_HEIGHT ensures n !in levels[l] {
        assert LevelOk(AllLinks(), head, levels[l], l);
      }
    }

    lemma UnusedLevels(key: Entry)
      requires Valid()
      ensures forall l :: maxHeight <= l < MAX_HEIGHT ==> LastBefore(head, levels[l], key) == head
    {
    }

    lemma OnBottomToo(level: nat)
      requires Valid() && level < MAX_HEIGHT
      ensures forall n :: n in levels[level] ==> n in levels[0]
    {
      forall n | n in levels[level] ensures n in levels[0] {
        InContents(levels, level, n);
      }
    }

    constructor (anyKey: Entry)
      ensures Valid() && Contents() == [] && maxHeight == 1 && fresh(nodes)
    {
      head := new Node(anyKey, MAX_HEIGHT);
      maxHeight := 1;
      new;
      levels := seq(MAX_HEIGHT, _ => []);
      nodes := {head};
    }

    /** Memory for a node is taken from the arena; nothing links to it yet. */
    ghost method Allocate(x: Node)
      requires Valid() && x !in nodes
      modifies this`nodes
      ensures Valid() && nodes == old(nodes) + {x}
    {
      nodes := nodes + {x};
      forall l | 0 <= l < MAX_HEIGHT ensures x !in levels[l] {
        assert LevelOk(old(AllLinks()), head, levels[l], l);
      }
      PrivateStoreOk(old(AllLinks()), head, levels, maxHeight, x, x.next);
      assert AllLinks() == old(AllLinks())[x := x.next];
    }

    /** x->NoBarrier_SetNext(l, v), where x is not linked at level l yet. */
    method StorePrivate(x: Node, l: nat, v: Node?)
      requires Valid() && x in nodes && x != head && l < |x.next|
      requires forall m :: l <= m < MAX_HEIGHT ==> x !in levels[m]
      modifies x
      ensures Valid() && x.next == old(x.next)[l := v]
    {
      x.next := x.next[l := v];
      forall m | 0 <= m < MAX_HEIGHT && x in levels[m] ensures m < |x.next| {
        assert LevelOk(old(AllLinks()), head, levels[m], m);
        var i :| 0 <= i < |levels[m]| && levels[m][i] == x;
        assert old(AllLinks())[levels[m][i]] == old(x.next);
      }
      PrivateStoreOk(old(AllLinks()), head, levels, maxHeight, x, x.next);
      assert AllLinks() == old(AllLinks())[x := x.next];
    }

    /** prev->SetNext(l, x): the store that makes x reachable at level l. */
    method StoreLink(pred: Node, l: nat, x: Node)
      requires Valid() && l < maxHeight && x in nodes && x != head
      requires pred == LastBefore(head, levels[l], x.key)
      requires forall n :: n in levels[l] ==> n != x && !SameKey(n.key, x.key)
      requires l > 0 ==> x in levels[l - 1]
      requires l < |x.next| && x.next[l] == At(levels[l], Split(levels[l], x.key))
      modifies this`levels, nodes
      ensures Valid() && levels == old(levels)[l := Inserted(old(levels)[l], x)]
      ensures unchanged(x)
    {
      LinkStoreOk(AllLinks(), head, levels, maxHeight, l, x);
      pred.next := pred.next[l := x];
      levels := levels[l := Inserted(levels[l], x)];
      assert AllLinks() == old(AllLinks())[pred := pred.next];
    }
  }

  // ----- a reader -----

  /** The frame of FindGreaterOrEqual: its locals x, level and prev. */
  class Search {
    const list: SkipList
    const target: Entry
    var x: Node
    var level: nat
    var prev: seq<Node?>
    var done: bool
    var result: Node?

    /** What a suspended search may rely on while the writer keeps storing links. */
    ghost predicate Inv()
      reads this, list, list.nodes
    {
      && list.Valid() && |prev| == MAX_HEIGHT && level < list.maxHeight
      && (x != list.head ==> x in list.levels[level] && Before(x.key, target))
    }

    /** The load of max_height_ is relaxed: it finds the current height or an older, lower one. */
    constructor (list: SkipList, target: Entry, height: nat)
      requires list.Valid() && 1 <= height <= list.maxHeight
      ensures this.list == list && this.target == target
      ensures Inv() && !done && level == height - 1 && x == list.head
    {
      this.list := list;
      this.target := target;
      x := list.head;
      level := height - 1;
      prev := seq(MAX_HEIGHT, _ => null);
      done, result := false, null;
    }

    /** The position of x in its level, counting the head as 0. */
    ghost function Index(): nat
      requires Inv()
      reads this, list, list.nodes
    {
      list.Position(x, level)
    }

    /** One turn of the loop: a single load of x->Next(level). If it ends the search, the result is the
        right node for the list as it is at this load. */
    method Step()
      requires Inv() && !done
      modifies this
      ensures Inv()
      ensures done ==> result == list.AtOrAfter(target)
      ensures done ==> level == old(level) == 0
      ensures level == old(level) || level == old(level) - 1
      ensures done || level < old(level) ==>
                x == LastBefore(list.head, list.levels[old(level)], target) && prev == old(prev)[old(level) := x]
      ensures !done && level == old(level) ==> prev == old(prev) && Index() == old(Index()) + 1
    {
      hide ListOk, SortedNodes, Split;
      var next := list.Load(x, level);
      ghost var ns, i := list.levels[level], Index();
      list.LevelFacts(level);
      if next != null && Before(next.key, target) {
        OnlyOnce(ns, i);
        x := next;
      } else {
        SplitIs(ns, target, i);
        prev := prev[level := x];
        if level == 0 {
          done, result := true, next;
        } else {
          level := level - 1;
        }
      }
    }
  }

  /** FindGreaterOrEqual without interference: the loop ends, and 'prev' holds the predecessor at every
      level in use. */
  method FindGreaterOrEqual(list: SkipList, target: Entry) returns (result: Node?, prev: seq<Node?>)
    requires list.Valid()
    ensures result == list.AtOrAfter(target) && |prev| == MAX_HEIGHT
    ensures forall l :: 0 <= l < list.maxHeight ==> prev[l] == LastBefore(list.head, list.levels[l], target)
  {
    var search := new Search(list, target, list.maxHeight);
    while !search.done
      invariant search.Inv() && search.list == list && search.target == target && fresh(search)
      invariant forall l :: (if search.done then 0 else search.level + 1) <= l < list.maxHeight ==>
                              search.prev[l] == LastBefore(list.head, list.levels[l], target)
      invariant search.done ==> search.result == list.AtOrAfter(target) && search.level == 0
      decreases !search.done, search.level, |list.levels[search.level]| - search.Index()
    {
      search.Step();
    }
    result, prev := search.result, search.prev;
  }

  /** The last node of a list, the head if there is none. */
  ghost function LastOf(head: Node, ns: seq<Node>): Node {
    if ns == [] then head else ns[|ns| - 1]
  }

  /** The frame of FindLast: its locals x and level. */
  class LastSearch {
    const list: SkipList
    var x: Node
    var level: nat
    var done: bool

    ghost predicate Inv()
      reads this, list, list.nodes
    {
      list.Valid() && level < list.maxHeight && (x != list.head ==> x in list.levels[level])
    }

    constructor (list: SkipList, height: nat)
      requires list.Valid() && 1 <= height <= list.maxHeight
      ensures this.list == list && Inv() && !done
    {
      this.list := list;
      x := list.head;
      level := height - 1;
      done := false;
    }

    ghost function Index(): nat
      requires Inv()
      reads this, list, list.nodes
    {
      list.Position(x, level)
    }

    /** One turn of the loop: a single load of x->Next(level). If it ends the search, x is the last node
        of the list as it is at this load. */
    method Step()
      requires Inv() && !done
      modifies this
      ensures Inv()
      ensures done ==> x == LastOf(list.head, list.Contents()) && level == old(level)
      ensures !done ==> level < old(level) || (level == old(level) && Index() == old(Index()) + 1)
    {
      var next := list.Load(x, level);
      ghost var ns, i := list.levels[level], Index();
      list.LevelFacts(level);
      if next != null {
        OnlyOnce(ns, i);
        x := next;
      } else if level == 0 {
        done := true;
      } else {
        level := level - 1;
      }
    }
  }

  // ----- the writer -----

  /** The frame of Insert after its search: its locals x, height, prev and i. */
  class Insertion {
    const list: SkipList
    const x: Node
    const height: nat
    var prev: seq<Node?>
    var raised: bool  // max_height_ has been dealt with
    var i: nat  // levels linked so far
    var staged: bool  // x's own link at level i has been set
    ghost const before: seq<Node>  // the contents when the insertion began

    ghost predicate Inv()
      reads this, list, list.nodes
    {
      && list.Valid()
      && 1 <= height <= MAX_HEIGHT && |prev| == MAX_HEIGHT && i <= height
      && x in list.nodes && x != list.head && |x.next| == height
      && (i > 0 || staged ==> raised) && (raised ==> height <= list.maxHeight) && (staged ==> i < height)
      && (forall l :: 0 <= l < MAX_HEIGHT ==> (x in list.levels[l] <==> l < i))
      && (forall l :: i <= l < height ==> prev[l] == LastBefore(list.head, list.levels[l], x.key))
      && (forall n :: n in list.levels[0] ==> n == x || !SameKey(n.key, x.key))
      && (staged ==> x.next[i] == At(list.levels[i], Split(list.levels[i], x.key)))
      && list.Contents() == if i == 0 then before else Inserted(before, x)
    }

    /** Insert up to NewNode: the search, and the head as predecessor on levels not in use yet. */
    constructor (list: SkipList, key: Entry, height: nat)
      requires list.Valid() && 1 <= height <= MAX_HEIGHT
      requires forall n :: n in list.Contents() ==> !SameKey(n.key, key)
      modifies list`nodes
      ensures Inv() && this.list == list && x.key == key && this.height == height
      ensures i == 0 && !raised && !staged && before == list.Contents() && fresh(x)
      ensures list.nodes == old(list.nodes) + {x}
    {
      hide ListOk, SortedNodes, Split, At, Inserted;
      var found, prev := FindGreaterOrEqual(list, key);
      list.UnusedLevels(key);
      var node := new Node(key, height);
      var l := list.maxHeight;
      while l < height
        invariant list.maxHeight <= l && |prev| == MAX_HEIGHT
        invariant forall m :: 0 <= m < l && m < MAX_HEIGHT && (m < list.maxHeight || m < height) ==>
                                prev[m] == LastBefore(list.head, list.levels[m], key)
      {
        prev := prev[l := list.head];
        l := l + 1;
      }
      this.list := list;
      this.x := node;
      this.height := height;
      this.prev := prev;
      raised, i, staged := false, 0, false;
      before := list.Contents();
      list.NotLinked(node);
      new;
      list.Allocate(x);
    }

    /** max_height_.store(height), before any link at the new levels exists. */
    method RaiseHeight()
      requires Inv() && !raised
      modifies this`raised, list`maxHeight
      ensures Inv() && raised && list.maxHeight >= old(list.maxHeight)
    {
      if height > list.maxHeight {
        list.maxHeight := height;
      }
      raised := true;
      assert list.AllLinks() == old(list.AllLinks());
    }

    /** x->NoBarrier_SetNext(i, prev[i]->NoBarrier_Next(i)): x is not linked at level i yet. */
    method Stage()
      requires Inv() && raised && !staged && i < height
      modifies this`staged, x
      ensures Inv() && raised && staged
    {
      assert LevelOk(list.AllLinks(), list.head, list.levels[i], i);
      PredecessorLink(list.AllLinks(), list.head, list.levels[i], i, x);
      assert prev[i].next == list.AllLinks()[prev[i]];
      list.StorePrivate(x, i, prev[i].next[i]);
      staged := true;
    }

    /** prev[i]->SetNext(i, x): the store that makes x reachable at level i. */
    method Link()
      requires Inv() && raised && staged
      modifies this`staged, this`i, list`levels, list.nodes
      ensures Inv() && raised && !staged && i == old(i) + 1
      ensures forall l, n :: 0 <= l < MAX_HEIGHT && n in old(list.levels[l]) ==> n in list.levels[l]
    {
      hide ListOk, SortedNodes, Split, At;
      list.OnBottomToo(i);
      list.StoreLink(prev[i], i, x);
      InsertedAt(old(list.levels[i]), x);
      i, staged := i + 1, false;
    }

    /** The next store of the insertion. */
    method Step()
      requires Inv() && i < height
      modifies this`raised, this`staged, this`i, list`maxHeight, list`levels, list.nodes
      ensures Inv()
      ensures Remaining() < old(Remaining())
      ensures list.maxHeight >= old(list.maxHeight)
      ensures forall l, n :: 0 <= l < MAX_HEIGHT && n in old(list.levels[l]) ==> n in list.levels[l]
      ensures list.Contents() == old(list.Contents()) || list.Contents() == Inserted(old(list.Contents()), x)
    {
      if !raised {
        RaiseHeight();
      } else if !staged {
        Stage();
      } else {
        Link();
      }
    }

    ghost function Remaining(): nat
      requires i <= height
      reads this
    {
      2 * (height - i) + (if raised then 0 else 1) + (if staged then 0 else 1)
    }
  }

  /** Insert without interference. The height is whatever RandomHeight drew. */
  method Insert(list: SkipList, key: Entry, height: nat) returns (x: Node)
    requires list.Valid() && 1 <= height <= MAX_HEIGHT
    requires forall n :: n in list.Contents() ==> !SameKey(n.key, key)
    modifies list, list.nodes
    ensures list.Valid() && fresh(x) && x.key == key && list.nodes == old(list.nodes) + {x}
    ensures list.Contents() == Inserted(old(list.Contents()), x)
    ensures forall l :: 0 <= l < MAX_HEIGHT ==> (x in list.levels[l] <==> l < height)
  {
    var insertion := new Insertion(list, key, height);
    x := insertion.x;
    while insertion.i < height
      invariant insertion.Inv() && insertion.list == list && insertion.x == x && insertion.height == height
      invariant fresh(insertion) && list.nodes == old(list.nodes) + {x}
      decreases insertion.Remaining()
    {
      insertion.Step();
    }
  }

  // ----- membership and iteration -----

  lemma ContentsSorted(list: SkipList)
    requires list.Valid()
    ensures SortedNodes(list.Contents())
  {
    assert LevelOk(list.AllLinks(), list.head, list.levels[0], 0);
  }

  method Contains(list: SkipList, key: Entry) returns (found: bool)
    requires list.Valid()
    ensures found <==> exists n :: n in list.Contents() && SameKey(n.key, key)
  {
    var x, _ := FindGreaterOrEqual(list, key);
    ContentsSorted(list);
    found := x != null && SameKey(x.key, key);
  }

  method FindLessThan(list: SkipList, target: Entry) returns (x: Node)
    requires list.Valid()
    ensures x == LastBefore(list.head, list.Contents(), target)
  {
    var search := new Search(list, target, list.maxHeight);
    while !search.done
      invariant search.Inv() && search.list == list && search.target == target && fresh(search)
      invariant search.done ==> search.x == LastBefore(list.head, list.Contents(), target)
      decreases !search.done, search.level, |list.levels[search.level]| - search.Index()
    {
      search.Step();
    }
    x := search.x;
  }

  method FindLast(list: SkipList) returns (x: Node)
    requires list.Valid()
    ensures x == LastOf(list.head, list.Contents())
  {
    var search := new LastSearch(list, list.maxHeight);
    while !search.done
      invariant search.Inv() && search.list == list && fresh(search)
      invariant search.done ==> search.x == LastOf(list.head, list.Contents())
      decreases !search.done, search.level, |list.levels[search.level]| - search.Index()
    {
      search.Step();
    }
    x := search.x;
  }

  /** An iterator position is a node of the list or null; nodes are never removed, so a position stays
      good while the list grows. */
  class Iterator {
    const list: SkipList
    var node: Node?

    ghost predicate Inv()
      reads this, list, list.nodes
    {
      list.Valid() && (node != null ==> node in list.Contents())
    }

    constructor (list: SkipList)
      requires list.Valid()
      ensures Inv() && this.list == list && node == null
    {
      this.list := list;
      node := null;
    }

    method Seek(target: Entry)
      requires Inv()
      modifies this
      ensures Inv() && node == list.AtOrAfter(target)
    {
      var x, _ := FindGreaterOrEqual(list, target);
      node := x;
    }

    method SeekToFirst()
      requires Inv()
      modifies this
      ensures Inv() && node == At(list.Contents(), 0)
    {
      assert LevelOk(list.AllLinks(), list.head, list.levels[0], 0);
      node := list.head.next[0];
    }

    method SeekToLast()
      requires Inv()
      modifies this
      ensures Inv() && var ns := list.Contents(); node == if ns == [] then null else ns[|ns| - 1]
    {
      ContentsSorted(list);
      assert LevelOk(list.AllLinks(), list.head, list.levels[0], 0);
      var last := FindLast(list);
      node := last;
      if last == list.head {
        node := null;
      }
    }

    method Next(ghost i: nat)
      requires Inv() && i < |list.Contents()| && node == list.Contents()[i]
      modifies this
      ensures Inv() && node == At(list.Contents(), i + 1)
    {
      ghost var ns := list.Contents();
      assert LevelOk(list.AllLinks(), list.head, list.levels[0], 0);
      assert list.AllLinks()[ns[i]] == node.next;
      node := node.next[0];
    }

    method Prev(ghost i: nat)
      requires Inv() && i < |list.Contents()| && node == list.Contents()[i]
      modifies this
      ensures Inv() && node == if i == 0 then null else list.Contents()[i - 1]
    {
      ghost var ns := list.Contents();
      ContentsSorted(list);
      assert LevelOk(list.AllLinks(), list.head, list.levels[0], 0);
      SplitIs(ns, node.key, i);
      var x := FindLessThan(list, node.key);
      node := x;
      if x == list.head {
        node := null;
      }
    }
  }

  // ----- every interleaving of one writer and its readers -----

  /** Whose turn it is: the writer's next store, or the next load of one of the readers. A reader's
      first turn is its load of max_height_. */
  datatype Turn = Store | SearchLoad | LastLoad

  ghost predicate Within(ms: seq<Node>, ns: seq<Node>) {
    forall n :: n in ms ==> n in ns
  }

  /** What one turn does to the contents: at most the writer's store links one more node, in its place. */
  ghost predicate OneTurn(turn: Turn, ms: seq<Node>, ns: seq<Node>) {
    ns == ms || (turn == Store && exists x :: x in ns && ns == Inserted(ms, x))
  }

  /** The contents before each turn of a run. */
  ghost predicate History(states: seq<seq<Node>>, turns: seq<Turn>) {
    && |states| == |turns| + 1
    && (forall t :: 0 <= t < |states| ==> SortedNodes(states[t]))
    && (forall t :: 0 <= t < |turns| ==> OneTurn(turns[t], states[t], states[t + 1]))
  }

  lemma HistoryExtends(states: seq<seq<Node>>, turns: seq<Turn>, turn: Turn, ns: seq<Node>)
    requires History(states, turns) && SortedNodes(ns) && OneTurn(turn, states[|turns|], ns)
    ensures History(states + [ns], turns + [turn])
  {
  }

  /** Nothing leaves the list: all that was in it before one turn is in it before every later turn. */
  lemma {:induction false} HistoryGrows(states: seq<seq<Node>>, turns: seq<Turn>, t: nat, u: nat)
    requires History(states, turns) && t <= u <= |turns|
    ensures Within(states[t], states[u])
    decreases u
  {
    if t < u {
      HistoryGrows(states, turns, t, u - 1);
      assert OneTurn(turns[u - 1], states[u - 1], states[u]);
      if states[u] != states[u - 1] {
        var x :| x in states[u] && states[u] == Inserted(states[u - 1], x);
        InsertedAt(states[u - 1], x);
      }
    }
  }

  /** A reader's first and last turn. */
  ghost predicate StartsAt(turns: seq<Turn>, turn: Turn, start: nat) {
    start < |turns| && turns[start] == turn && turn !in turns[..start]
  }

  ghost predicate Lasts(turns: seq<Turn>, turn: Turn, start: nat, end: nat) {
    StartsAt(turns, turn, start) && start < end < |turns| && turns[end] == turn
  }

  lemma TurnTaken(turns: seq<Turn>, next: Turn, turn: Turn, start: nat)
    ensures StartsAt(turns, turn, start) ==> StartsAt(turns + [next], turn, start)
    ensures turn !in turns && next == turn ==> StartsAt(turns + [next], turn, |turns|)
    ensures turn in turns + [next] <==> turn in turns || turn == next
  {
    var after := turns + [next];
    assert start < |turns| ==> after[..start] == turns[..start];
    assert after[..|turns|] == turns;
  }

  /** The writer performs the jobs in order while one reader runs FindGreaterOrEqual or FindLessThan,
      which differ only in what they return, and another runs FindLast. Turns may come in any order, so
      a search may start at any time, also in the middle of an insertion. */
  class Run {
    const list: SkipList
    const target: Entry
    const jobs: seq<(Entry, nat)>
    var nextJob: nat
    var insertion: Insertion?
    var search: Search?
    var last: LastSearch?
    ghost var turns: seq<Turn>  // the turns taken so far
    ghost var states: seq<seq<Node>>  // the contents before each of them, and now
    ghost var start: nat
    ghost var end: nat
    ghost var lastStart: nat
    ghost var lastEnd: nat

    ghost predicate WriterOk()
      reads this, list, list.nodes, insertion
    {
      && list.Valid() && nextJob <= |jobs| && (forall job :: job in jobs ==> 1 <= job.1 <= MAX_HEIGHT)
      && (insertion != null ==> insertion.list == list && insertion.Inv())
      && History(states, turns) && states[|turns|] == list.Contents()
    }

    /** A search that ended found the right node of the list as it was at the last load. */
    ghost predicate SearchOk(turns: seq<Turn>, states: seq<seq<Node>>)
      reads this`search, this`start, this`end, search, list, list.nodes
    {
      && |states| == |turns| + 1
      && (search == null <==> SearchLoad !in turns)
      && (search != null ==>
            search.list == list && search.target == target && search.Inv() && StartsAt(turns, SearchLoad, start))
      && (search != null && search.done ==>
            && Lasts(turns, SearchLoad, start, end)
            && search.result == At(states[end], Split(states[end], target))
            && search.x == LastBefore(list.head, states[end], target))
    }

    ghost predicate LastOk(turns: seq<Turn>, states: seq<seq<Node>>)
      reads this`last, this`lastStart, this`lastEnd, last, list, list.nodes
    {
      && |states| == |turns| + 1
      && (last == null <==> LastLoad !in turns)
      && (last != null ==> last.list == list && last.Inv() && StartsAt(turns, LastLoad, lastStart))
      && (last != null && last.done ==>
            && Lasts(turns, LastLoad, lastStart, lastEnd)
            && last.x == LastOf(list.head, states[lastEnd]))
    }

    ghost predicate Inv()
      reads this, list, list.nodes, insertion, search, last
    {
      WriterOk() && SearchOk(turns, states) && LastOk(turns, states)
    }

    constructor (list: SkipList, target: Entry, jobs: seq<(Entry, nat)>)
      requires list.Valid() && forall job :: job in jobs ==> 1 <= job.1 <= MAX_HEIGHT
      ensures Inv() && this.list == list && this.target == target && this.jobs == jobs
      ensures turns == [] && states == [list.Contents()]
      ensures insertion == null && search == null && last == null
    {
      ContentsSorted(list);
      this.list, this.target, this.jobs := list, target, jobs;
      nextJob, insertion, search, last := 0, null, null, null;
      turns, states, start, end, lastStart, lastEnd := [], [list.Contents()], 0, 0, 0, 0;
    }

    /** The load of max_height_, which finds the current height or an older one, or a load of a link. */
    method AdvanceSearch()
      requires list.Valid() && SearchOk(turns, states) && states[|turns|] == list.Contents()
      modifies this`search, this`start, this`end, search
      ensures SearchOk(turns + [SearchLoad], states + [list.Contents()])
      ensures search != null && (old(search) == null ==> fresh(search))
      ensures old(search) != null ==> search == old(search)
    {
      hide StartsAt, Split, LastBefore, At, SkipList.Valid;
      TurnTaken(turns, SearchLoad, SearchLoad, start);
      if search == null {
        var height :| 1 <= height <= list.maxHeight;
        start := |turns|;
        search := new Search(list, target, height);
      } else if !search.done {
        search.Step();
        end := |turns|;
      }
    }

    method AdvanceLast()
      requires list.Valid() && LastOk(turns, states) && states[|turns|] == list.Contents()
      modifies this`last, this`lastStart, this`lastEnd, last
      ensures LastOk(turns + [LastLoad], states + [list.Contents()])
      ensures last != null && (old(last) == null ==> fresh(last))
      ensures old(last) != null ==> last == old(last)
    {
      hide StartsAt, LastOf, SkipList.Valid;
      TurnTaken(turns, LastLoad, LastLoad, lastStart);
      if last == null {
        var height :| 1 <= height <= list.maxHeight;
        lastStart := |turns|;
        last := new LastSearch(list, height);
      } else if !last.done {
        last.Step();
        lastEnd := |turns|;
      }
    }

    method LoadForSearch()
      requires Inv()
      modifies this, search
      ensures Inv() && search != null && (old(search) == null ==> fresh(search))
      ensures old(search) != null ==> search == old(search)
      ensures unchanged(this`last) && unchanged(this`insertion)
      ensures turns == old(turns) + [SearchLoad] && states == old(states) + [list.Contents()]
    {
      hide History, OneTurn, StartsAt, Split, LastBefore, SortedNodes, Inserted, At, LastOf, SkipList.Valid;
      hide Insertion.Inv;
      TurnTaken(turns, SearchLoad, LastLoad, lastStart);
      ContentsSorted(list);
      HistoryExtends(states, turns, SearchLoad, list.Contents());
      AdvanceSearch();
      turns, states := turns + [SearchLoad], states + [list.Contents()];
    }

    method LoadForLast()
      requires Inv()
      modifies this, last
      ensures Inv() && last != null && (old(last) == null ==> fresh(last))
      ensures old(last) != null ==> last == old(last)
      ensures unchanged(this`search) && unchanged(this`insertion)
      ensures turns == old(turns) + [LastLoad] && states == old(states) + [list.Contents()]
    {
      hide History, OneTurn, StartsAt, Split, LastBefore, SortedNodes, Inserted, At, LastOf, SkipList.Valid;
      hide Insertion.Inv;
      TurnTaken(turns, LastLoad, SearchLoad, start);
      ContentsSorted(list);
      HistoryExtends(states, turns, LastLoad, list.Contents());
      AdvanceLast();
      turns, states := turns + [LastLoad], states + [list.Contents()];
    }

    /** The next store of the insertion in progress, or the search and allocation of the next one. */
    method Advance()
      requires WriterOk()
      modifies this`nextJob, this`insertion, list, list.nodes, insertion
      ensures list.Valid() && nextJob <= |jobs|
      ensures insertion != null ==> insertion.list == list && insertion.Inv()
      ensures insertion != null && insertion != old(insertion) ==> fresh(insertion)
      ensures old(list.nodes) <= list.nodes && fresh(list.nodes - old(list.nodes))
      ensures list.maxHeight >= old(list.maxHeight)
      ensures forall l, n :: 0 <= l < MAX_HEIGHT && n in old(list.levels[l]) ==> n in list.levels[l]
      ensures OneTurn(Store, old(list.Contents()), list.Contents())
    {
      hide History, SortedNodes, Split, At, LastBefore, ListOk;
      if insertion != null && insertion.i < insertion.height {
        insertion.Step();
        InsertedAt(old(list.Contents()), insertion.x);
      } else if nextJob < |jobs| {
        var (key, height) := jobs[nextJob];
        var present := Contains(list, key);
        if !present {
          insertion := new Insertion(list, key, height);
        }
        nextJob := nextJob + 1;
      }
    }

    method StoreNext()
      requires Inv()
      modifies this, list, list.nodes, insertion
      ensures Inv() && unchanged(this`search) && unchanged(this`last)
      ensures insertion != null && insertion != old(insertion) ==> fresh(insertion)
      ensures old(list.nodes) <= list.nodes && fresh(list.nodes - old(list.nodes))
      ensures turns == old(turns) + [Store] && states == old(states) + [list.Contents()]
    {
      hide History, OneTurn, StartsAt, Split, LastBefore, SortedNodes, Inserted, At, LastOf, SkipList.Valid;
      hide Insertion.Inv;
      TurnTaken(turns, Store, SearchLoad, start);
      TurnTaken(turns, Store, LastLoad, lastStart);
      Advance();
      ContentsSorted(list);
      HistoryExtends(states, turns, Store, list.Contents());
      turns, states := turns + [Store], states + [list.Contents()];
    }

    /** What was in the list when a search began is in the list that the search answers for. */
    lemma SearchesMissNothing()
      requires Inv()
      ensures search != null && search.done ==> Within(states[start], states[end])
      ensures last != null && last.done ==> Within(states[lastStart], states[lastEnd])
      ensures states[|turns|] == list.Contents()
    {
      if search != null && search.done {
        HistoryGrows(states, turns, start, end);
      }
      if last != null && last.done {
        HistoryGrows(states, turns, lastStart, lastEnd);
      }
    }
  }

  /** Every schedule: a search that ends finds the right node of the list as it is at its last load, and
      that list holds all that was in it when the search began. */
  method RunInterleaved(list: SkipList, target: Entry, jobs: seq<(Entry, nat)>, schedule: seq<Turn>)
    returns (run: Run)
    requires list.Valid() && forall job :: job in jobs ==> 1 <= job.1 <= MAX_HEIGHT
    modifies list, list.nodes
    ensures run.Inv() && run.list == list && run.target == target && run.turns == schedule
    ensures run.states[0] == old(list.Contents()) && run.states[|schedule|] == list.Contents()
    ensures run.search != null && run.search.done ==>
              && Lasts(schedule, SearchLoad, run.start, run.end)
              && Within(run.states[run.start], run.states[run.end])
              && run.search.result == At(run.states[run.end], Split(run.states[run.end], target))
              && run.search.x == LastBefore(list.head, run.states[run.end], target)
    ensures run.last != null && run.last.done ==>
              && Lasts(schedule, LastLoad, run.lastStart, run.lastEnd)
              && Within(run.states[run.lastStart], run.states[run.lastEnd])
              && run.last.x == LastOf(list.head, run.states[run.lastEnd])
  {
    hide History, StartsAt, Split, LastBefore, At, LastOf, ListOk, Insertion.Inv, Run.WriterOk;
    run := new Run(list, target, jobs);
    ghost var nodes0 := list.nodes;
    for t := 0 to |schedule|
      invariant run.Inv() && run.list == list && run.target == target && fresh(run)
      invariant nodes0 <= list.nodes && fresh(list.nodes - nodes0)
      invariant run.insertion != null ==> fresh(run.insertion)
      invariant run.search != null ==> fresh(run.search)
      invariant run.last != null ==> fresh(run.last)
      invariant run.turns == schedule[..t] && run.states[0] == old(list.Contents())
    {
      match schedule[t] {
        case SearchLoad => run.LoadForSearch();
        case LastLoad => run.LoadForLast();
        case Store => run.StoreNext();
      }
      assert schedule[..t + 1] == schedule[..t] + [schedule[t]];
    }
    run.SearchesMissNothing();
  }
}
