/** The linked history that the search edits. Its nodes are a call or return each; position 0 is the head
    node, position i + 1 the i-th entry of the history. A set of positions says which nodes are linked in. */
module PorcupineList {

  import opened PorcupineSearch
  import opened PorcupineHistory

  /** `mate` is the return node of a call node, and null for a return node and the head. */
  class Node<I, O> {
    const entry: Option<Entry<I, O>>
    const mate: Node?<I, O>
    var next: Node?<I, O>
    var prev: Node?<I, O>

    constructor (entry: Option<Entry<I, O>>, mate: Node?<I, O>)
      ensures this.entry == entry && this.mate == mate && next == null && prev == null
    {
      this.entry, this.mate, next, prev := entry, mate, null, null;
    }
  }

  ghost predicate Distinct<T>(s: seq<T>)
  {
    forall i, j :: 0 <= i < j < |s| ==> s[i] != s[j]
  }

  /** q is the next position after p that is linked in. */
  ghost predicate Adjacent(linked: set<int>, p: int, q: int)
  {
    p < q && p in linked && q in linked && forall r :: p < r < q ==> r !in linked
  }

  ghost predicate Last(linked: set<int>, p: int)
  {
    p in linked && forall r :: r > p ==> r !in linked
  }

  /** The list is exactly the nodes at the positions in `linked`, in order. */
  ghost predicate Linked<I(!new), O(!new)>(nodes: seq<Node<I, O>>, linked: set<int>)
    reads nodes
  {
    && Distinct(nodes)
    && (forall p :: p in linked ==> 0 <= p < |nodes|)
    && 0 in linked
    && (forall p, q :: Adjacent(linked, p, q) ==> nodes[p].next == nodes[q] && nodes[q].prev == nodes[p])
    && (forall p :: Last(linked, p) ==> nodes[p].next == null)
  }

  /** The node at a, out of the list, still points at its neighbours in `linked`, which contains a. */
  ghost predicate Remembers<I(!new), O(!new)>(nodes: seq<Node<I, O>>, linked: set<int>, a: int)
    requires 0 < a < |nodes| && forall p :: p in linked ==> 0 <= p < |nodes|
    reads nodes
  {
    && (forall p :: Adjacent(linked, p, a) ==> nodes[a].prev == nodes[p])
    && (forall q :: Adjacent(linked, a, q) ==> nodes[a].next == nodes[q])
    && (Last(linked, a) ==> nodes[a].next == null)
  }

  // ---------------------------------------------------------------------------------------------
  // Neighbours
  // ---------------------------------------------------------------------------------------------

  lemma {:induction false} PredecessorFrom(linked: set<int>, a: int, from: int) returns (p: int)
    requires 0 in linked && 0 <= from < a && a in linked && forall r :: from < r < a ==> r !in linked
    ensures Adjacent(linked, p, a) && p >= 0
    decreases from
  {
    if from in linked { p := from; } else { p := PredecessorFrom(linked, a, from - 1); }
  }

  lemma Predecessor(linked: set<int>, a: int) returns (p: int)
    requires 0 in linked && 0 < a && a in linked
    ensures Adjacent(linked, p, a) && p >= 0
  {
    p := PredecessorFrom(linked, a, a - 1);
  }

  lemma {:induction false} SuccessorFrom(linked: set<int>, a: int, from: int, bound: int) returns (q: int)
    requires a in linked && a < from <= bound && (forall r :: r in linked ==> r < bound)
    requires forall r :: a < r < from ==> r !in linked
    ensures q <= bound && if q < bound then Adjacent(linked, a, q) else Last(linked, a)
    decreases bound - from
  {
    if from == bound { q := bound; }
    else if from in linked { q := from; }
    else { q := SuccessorFrom(linked, a, from + 1, bound); }
  }

  /** The next position, or `bound` if there is none. */
  lemma Successor(linked: set<int>, a: int, bound: int) returns (q: int)
    requires a in linked && forall r :: r in linked ==> r < bound
    ensures q <= bound && if q < bound then Adjacent(linked, a, q) else Last(linked, a)
  {
    q := SuccessorFrom(linked, a, a + 1, bound);
  }

  /** Taking a position out joins its neighbours and nothing else. */
  lemma AdjacentWithout(linked: set<int>, a: int, p: int, x: int, y: int)
    requires Adjacent(linked, p, a)
    ensures Adjacent(linked - {a}, x, y) <==>
              (Adjacent(linked, x, y) && x != a && y != a) || (x == p && Adjacent(linked, a, y))
  {
    if x == p && Adjacent(linked, a, y) {
      assert Adjacent(linked - {a}, x, y);
    }
    if Adjacent(linked - {a}, x, y) {
      forall r | x < r < y && r != a
        ensures r !in linked
      {
        assert r !in linked - {a};
      }
      if x < a < y { assert p in linked - {a}; }
    }
  }

  lemma LastWithout(linked: set<int>, a: int, p: int, x: int)
    requires Adjacent(linked, p, a)
    ensures Last(linked - {a}, x) <==> (Last(linked, x) && x != a) || (x == p && Last(linked, a))
  {
    if Last(linked - {a}, x) {
      forall r | r > x && r != a
        ensures r !in linked
      {
        assert r !in linked - {a};
      }
      if x < a { assert p in linked - {a}; }
    }
  }

  // ---------------------------------------------------------------------------------------------
  // Taking one node out and putting it back
  // ---------------------------------------------------------------------------------------------

  /** Takes one node out of the chain; it keeps its own pointers. */
  method Unlink<I(!new), O(!new)>(n: Node<I, O>, ghost nodes: seq<Node<I, O>>, ghost linked: set<int>, ghost a: int)
    requires Linked(nodes, linked) && 0 < a && a in linked && nodes[a] == n
    modifies nodes
    ensures Linked(nodes, linked - {a}) && Remembers(nodes, linked, a)
    ensures n.next == old(n.next) && n.prev == old(n.prev)
    ensures forall i :: 0 <= i < |nodes| && i !in linked ==>
              nodes[i].next == old(nodes[i].next) && nodes[i].prev == old(nodes[i].prev)
  {
    ghost var p := Predecessor(linked, a);
    ghost var q := Successor(linked, a, |nodes|);
    n.prev.next := n.next;
    if n.next != null {
      n.next.prev := n.prev;
    }
    forall x, y | Adjacent(linked - {a}, x, y)
      ensures nodes[x].next == nodes[y] && nodes[y].prev == nodes[x]
    {
      AdjacentWithout(linked, a, p, x, y);
    }
    forall x | Last(linked - {a}, x)
      ensures nodes[x].next == null
    {
      LastWithout(linked, a, p, x);
    }
  }

  /** Puts a node back between the neighbours that it still points to. */
  method Relink<I(!new), O(!new)>(n: Node<I, O>, ghost nodes: seq<Node<I, O>>, ghost linked: set<int>, ghost a: int)
    requires Distinct(nodes) && a in linked && 0 < a < |nodes| && nodes[a] == n
    requires forall p :: p in linked ==> 0 <= p < |nodes|
    requires Linked(nodes, linked - {a}) && Remembers(nodes, linked, a)
    modifies nodes
    ensures Linked(nodes, linked)
    ensures forall i :: 0 <= i < |nodes| && i !in linked ==>
              nodes[i].next == old(nodes[i].next) && nodes[i].prev == old(nodes[i].prev)
  {
    ghost var p := Predecessor(linked, a);
    ghost var q := Successor(linked, a, |nodes|);
    n.prev.next := n;
    if n.next != null {
      n.next.prev := n;
    }
    forall x, y | Adjacent(linked, x, y)
      ensures nodes[x].next == nodes[y] && nodes[y].prev == nodes[x]
    {
      AdjacentWithout(linked, a, p, x, y);
      if y == a { assert x == p; }
      if x == a { assert y == q; }
    }
    forall x | Last(linked, x)
      ensures nodes[x].next == null
    {
      LastWithout(linked, a, p, x);
    }
  }

  // ---------------------------------------------------------------------------------------------
  // lift and unlift
  // ---------------------------------------------------------------------------------------------

  /** Takes a call and its return out of the list. The call is never the last node, so nothing nil is
      dereferenced; both keep their pointers. */
  method Lift<I(!new), O(!new)>(entry: Node<I, O>, ghost nodes: seq<Node<I, O>>, ghost linked: set<int>, ghost a: int, ghost b: int)
    requires Linked(nodes, linked) && 0 < a < b && a in linked && b in linked
    requires nodes[a] == entry && nodes[b] == entry.mate
    modifies nodes
    ensures Linked(nodes, linked - {a} - {b})
    ensures Remembers(nodes, linked, a) && Remembers(nodes, linked - {a}, b)
    ensures forall i :: 0 <= i < |nodes| && i !in linked ==>
              nodes[i].next == old(nodes[i].next) && nodes[i].prev == old(nodes[i].prev)
  {
    Unlink(entry, nodes, linked, a);
    Unlink(entry.mate, nodes, linked - {a}, b);
  }

  /** Puts the call and return taken out last back where they were. */
  method Unlift<I(!new), O(!new)>(entry: Node<I, O>, ghost nodes: seq<Node<I, O>>, ghost linked: set<int>, ghost a: int, ghost b: int)
    requires Distinct(nodes) && (forall p :: p in linked ==> 0 <= p < |nodes|)
    requires 0 < a < b && a in linked && b in linked && nodes[a] == entry && nodes[b] == entry.mate
    requires Linked(nodes, linked - {a} - {b})
    requires Remembers(nodes, linked, a) && Remembers(nodes, linked - {a}, b)
    modifies nodes
    ensures Linked(nodes, linked)
    ensures forall i :: 0 <= i < |nodes| && i !in linked ==>
              nodes[i].next == old(nodes[i].next) && nodes[i].prev == old(nodes[i].prev)
  {
    Relink(entry.mate, nodes, linked - {a}, b);
    Relink(entry, nodes, linked, a);
  }

  // ---------------------------------------------------------------------------------------------
  // Building the list
  // ---------------------------------------------------------------------------------------------

  ghost predicate ChainAt<I(!new), O(!new)>(nodes: seq<Node<I, O>>, i: int)
    reads nodes
  {
    0 <= i < |nodes| ==>
      && nodes[i].next == (if i + 1 < |nodes| then nodes[i + 1] else null)
      && nodes[i].prev == (if i > 0 then nodes[i - 1] else null)
  }

  /** The nodes form a whole doubly linked list in their order. */
  ghost predicate Chain<I(!new), O(!new)>(nodes: seq<Node<I, O>>)
    reads nodes
  {
    Distinct(nodes) && forall i :: ChainAt(nodes, i)
  }

  /** Inserts n before the k-th node, which is `mark`; without a mark the list is empty and n stands alone. */
  method InsertBefore<I(!new), O(!new)>(n: Node<I, O>, mark: Node?<I, O>, ghost nodes: seq<Node<I, O>>, ghost k: nat)
    returns (r: Node<I, O>)
    requires Chain(nodes) && n !in nodes && n.next == null && n.prev == null
    requires k <= |nodes| && if mark == null then nodes == [] else k < |nodes| && nodes[k] == mark
    modifies nodes, n
    ensures r == n && Chain(nodes[..k] + [n] + nodes[k..])
  {
    ghost var longer := nodes[..k] + [n] + nodes[k..];
    assert ChainAt(nodes, k) && ChainAt(nodes, k - 1);
    if mark != null {
      var beforeMark := mark.prev;
      mark.prev := n;
      n.next := mark;
      if beforeMark != null {
        n.prev := beforeMark;
        beforeMark.next := n;
      }
    }
    forall i ensures ChainAt(longer, i) { assert old(ChainAt(nodes, i)) && old(ChainAt(nodes, i - 1)); }
    return n;
  }

  /** The i-th of the nodes from position `from` on: its entry, and its return if it is a call. */
  ghost predicate LayoutAt<I(!new), O(!new)>(nodes: seq<Node<I, O>>, h: seq<Entry<I, O>>, n: nat, from: int, i: int)
    requires WellFormed(h, n) && 0 <= from <= |h| && |nodes| == |h| - from
  {
    0 <= i < |nodes| ==>
      && nodes[i].entry == Some(h[from + i])
      && (h[from + i].ReturnEntry? ==> nodes[i].mate == null)
      && (h[from + i].CallEntry? ==>
            var r := ReturnAt(h, n, h[from + i].id) - from;
            i < r < |nodes| && nodes[i].mate == nodes[r])
  }

  /** The nodes carry the entries from position `from` on, and every call node points at its return. */
  ghost predicate Layout<I(!new), O(!new)>(nodes: seq<Node<I, O>>, h: seq<Entry<I, O>>, n: nat, from: int)
    requires WellFormed(h, n) && 0 <= from <= |h|
  {
    |nodes| == |h| - from && forall i :: LayoutAt(nodes, h, n, from, i)
  }

  /** The return nodes from position `from` on can be found by id. */
  ghost predicate Findable<I(!new), O(!new)>(matching: map<int, Node<I, O>>, nodes: seq<Node<I, O>>, h: seq<Entry<I, O>>, from: int)
    requires 0 <= from <= |h| && |nodes| == |h| - from
  {
    forall j :: from <= j < |h| && h[j].ReturnEntry? ==> h[j].id in matching && matching[h[j].id] == nodes[j - from]
  }

  method MakeLinkedEntries<I(!new), O(!new)>(h: seq<Entry<I, O>>, ghost n: nat)
    returns (root: Node?<I, O>, ghost nodes: seq<Node<I, O>>)
    requires WellFormed(h, n)
    ensures fresh(nodes) && Chain(nodes) && Layout(nodes, h, n, 0)
    ensures root == if nodes == [] then null else nodes[0]
  {
    hide WellFormed, IsOperation, Completes;
    root, nodes := null, [];
    var matching: map<int, Node<I, O>> := map[];
    for i := |h| downto 0
      invariant fresh(nodes) && Chain(nodes) && Layout(nodes, h, n, i) && Findable(matching, nodes, h, i)
      invariant root == if nodes == [] then null else nodes[0]
    {
      PositionsUnique(h, n, i);
      var node: Node<I, O>;
      ghost var before := matching;
      if h[i].ReturnEntry? {
        node := new Node(Some(h[i]), null);
        matching := matching[h[i].id := node];
      } else {
        MateFound(matching, nodes, h, n, i);
        node := new Node(Some(h[i]), matching[h[i].id]);
      }
      ghost var tail := nodes;
      root := InsertBefore(node, root, nodes, 0);
      nodes := [node] + nodes;
      assert tail[..0] + [node] + tail[0..] == nodes;
      FindableExtends(before, tail, nodes, h, n, i);
      LayoutExtends(tail, nodes, h, n, i);
    }
  }

  /** The return of a call comes later, and so is in the table. */
  lemma MateFound<I(!new), O(!new)>(matching: map<int, Node<I, O>>, tail: seq<Node<I, O>>, h: seq<Entry<I, O>>, n: nat, i: int)
    requires WellFormed(h, n) && 0 <= i < |h| && |tail| == |h| - i - 1 && Findable(matching, tail, h, i + 1) && h[i].CallEntry?
    ensures i < ReturnAt(h, n, h[i].id) < |h|
    ensures h[i].id in matching && matching[h[i].id] == tail[ReturnAt(h, n, h[i].id) - i - 1]
  {
    PositionsUnique(h, n, i);
    assert IsOperation(h, h[i].id, i, ReturnAt(h, n, h[i].id));
  }

  lemma FindableExtends<I(!new), O(!new)>(matching: map<int, Node<I, O>>, tail: seq<Node<I, O>>, nodes: seq<Node<I, O>>,
                                          h: seq<Entry<I, O>>, n: nat, i: int)
    requires WellFormed(h, n) && 0 <= i < |h| && |tail| == |h| - i - 1 && Findable(matching, tail, h, i + 1)
    requires |nodes| == |tail| + 1 && nodes[1..] == tail
    ensures Findable(if h[i].ReturnEntry? then matching[h[i].id := nodes[0]] else matching, nodes, h, i)
  {
    forall j | i < j < |h| && h[j].ReturnEntry?
      ensures h[j].id in matching && matching[h[j].id] == nodes[j - i]
    {
      assert nodes[j - i] == tail[j - i - 1];
    }
  }

  lemma LayoutExtends<I(!new), O(!new)>(tail: seq<Node<I, O>>, nodes: seq<Node<I, O>>, h: seq<Entry<I, O>>, n: nat, i: int)
    requires WellFormed(h, n) && 0 <= i < |h| && Layout(tail, h, n, i + 1)
    requires |nodes| == |tail| + 1 && nodes[1..] == tail && LayoutAt(nodes, h, n, i, 0)
    ensures Layout(nodes, h, n, i)
  {
    forall j
      ensures LayoutAt(nodes, h, n, i, j)
    {
      if 0 < j < |nodes| {
        assert LayoutAt(tail, h, n, i + 1, j - 1) && nodes[j] == tail[j - 1];
        if h[i + j].CallEntry? {
          var r := ReturnAt(h, n, h[i + j].id) - i;
          assert nodes[r] == tail[r - 1];
        }
      }
    }
  }

  /** The number of nodes from the front of a list. */
  method Length<I(!new), O(!new)>(root: Node?<I, O>, ghost nodes: seq<Node<I, O>>) returns (l: nat)
    requires Chain(nodes) && root == if nodes == [] then null else nodes[0]
    ensures l == |nodes|
  {
    l := 0;
    var n := root;
    while n != null
      invariant l <= |nodes| && n == if l < |nodes| then nodes[l] else null
      decreases |nodes| - l
    {
      assert ChainAt(nodes, l);
      n := n.next;
      l := l + 1;
    }
  }

  /** A whole list is linked at all its positions. */
  lemma ChainLinked<I(!new), O(!new)>(nodes: seq<Node<I, O>>)
    requires Chain(nodes) && |nodes| > 0
    ensures Linked(nodes, Range(|nodes|))
  {
    var linked := Range(|nodes|);
    forall p, q | Adjacent(linked, p, q)
      ensures nodes[p].next == nodes[q] && nodes[q].prev == nodes[p]
    {
      assert p + 1 < |nodes| ==> p + 1 in linked;
      assert ChainAt(nodes, p) && ChainAt(nodes, q);
    }
    forall p | Last(linked, p)
      ensures nodes[p].next == null
    {
      assert p + 1 < |nodes| ==> p + 1 in linked;
      assert ChainAt(nodes, p);
    }
  }
}
