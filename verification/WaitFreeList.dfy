/** The doubly linked list, walked from the newest node to the oldest. */
module WaitFreeList {

  class Node<T> {
    var left: Node?<T>    // the next older node
    const item: T
    var right: Node?<T>   // the next newer node

    constructor (left: Node?<T>, item: T, right: Node?<T>)
      ensures this.left == left && this.item == item && this.right == right
    {
      this.left, this.item, this.right := left, item, right;
    }
  }

  function Reverse<X>(s: seq<X>): seq<X> {
    if s == [] then [] else [s[|s| - 1]] + Reverse(s[..|s| - 1])
  }

  // s without the elements of gone.
  function Without<X(==)>(s: seq<X>, gone: set<X>): seq<X> {
    if s == [] then []
    else Without(s[..|s| - 1], gone) + if s[|s| - 1] in gone then [] else [s[|s| - 1]]
  }

  // The walk's order: the k-th node visited is the k-th newest.
  lemma {:induction false} VisitedAt<X>(s: seq<X>, k: nat)
    requires k < |s|
    ensures |Reverse(s)| == |s| && Reverse(s)[k] == s[|s| - 1 - k]
  {
    if |s| == 1 {
      assert Reverse(s[..0]) == [];
    } else {
      VisitedAt(s[..|s| - 1], if k == 0 then 0 else k - 1);
    }
  }

  // What is left: the nodes not gone, those of the first stretch before those of the second.
  lemma {:induction false} LeftExactly<X>(s: seq<X>, more: seq<X>, gone: set<X>)
    ensures Without(s + more, gone) == Without(s, gone) + Without(more, gone)
    ensures forall x :: x in Without(more, gone) <==> x in more && x !in gone
    decreases |more|
  {
    if more == [] {
      assert s + more == s;
    } else {
      var front, last := more[..|more| - 1], more[|more| - 1];
      LeftExactly(s, front, gone);
      assert (s + more)[..|s + more| - 1] == s + front && more == front + [last];
    }
  }

  class WaitFreeList<T> {
    var header: Node?<T>
    ghost var nodes: seq<Node<T>>   // the live nodes, oldest first

    // The links of node i point to its neighbours.
    ghost predicate Linked(i: nat)
      requires i < |nodes|
      reads this, nodes
    {
      && nodes[i].left == (if i == 0 then null else nodes[i - 1])
      && nodes[i].right == (if i + 1 == |nodes| then null else nodes[i + 1])
    }

    ghost predicate Valid()
      reads this, nodes
    {
      && (forall i, j :: 0 <= i < j < |nodes| ==> nodes[i] != nodes[j])
      && (forall i :: 0 <= i < |nodes| ==> Linked(i))
      && header == (if nodes == [] then null else nodes[|nodes| - 1])
    }

    constructor ()
      ensures Valid() && nodes == []
    {
      header, nodes := null, [];
    }

    method Add(item: T)
      requires Valid()
      modifies this, nodes
      ensures Valid() && |nodes| == |old(nodes)| + 1 && nodes[..|old(nodes)|] == old(nodes)
      ensures var node := nodes[|old(nodes)|]; fresh(node) && node.item == item && header == node
    {
      if header == null {
        header := new Node(null, item, null);
        nodes := [header];
        return;
      }
      var node := new Node(header, item, null);
      header.right := node;
      header := node;
      nodes := nodes + [node];
      forall k | 0 <= k < |nodes| ensures Linked(k) {
        assert k + 1 < |nodes| ==> old(Linked(k));
      }
    }

    // i is where the node is in the list.
    method Remove(node: Node<T>, ghost i: nat)
      requires Valid() && i < |nodes| && nodes[i] == node
      modifies this, nodes
      ensures Valid() && nodes == old(nodes)[..i] + old(nodes)[i + 1..]
      ensures node.left == old(node.left) && node.right == old(node.right)
    {
      var nodeRight := node.right;
      var nodeLeft := node.left;
      assert Linked(i);
      if nodeRight != null { nodeRight.left := nodeLeft; }
      if nodeLeft != null { nodeLeft.right := nodeRight; }
      if node == header { header := nodeLeft; }
      nodes := nodes[..i] + nodes[i + 1..];
      forall k | 0 <= k < |nodes| ensures Linked(k) {
        assert old(Linked(if k < i then k else k + 1));
      }
    }

    function GetFirst(): Node?<T>
      reads this
    {
      header
    }

    function GetNext(current: Node<T>): Node?<T>
      reads current
    {
      current.left
    }

    // One stop of a walk at the newest node of the unvisited ones, in front of which stand
    // the kept ones. Where the walk goes next does not depend on removing the node.
    method Visit(current: Node<T>, doomed: bool, ghost older: seq<Node<T>>, ghost kept: seq<Node<T>>)
      returns (next: Node?<T>)
      requires Valid() && nodes == older + [current] + kept
      modifies this, nodes
      ensures Valid() && nodes == older + if doomed then kept else [current] + kept
      ensures next == if older == [] then null else older[|older| - 1]
    {
      assert nodes[|older|] == current && Linked(|older|);
      if doomed { Remove(current, |older|); }
      next := GetNext(current);
    }

    // Walks the list the way its users do, removing each visited node that is doomed. The
    // walk ends, and visits every node once, newest first, whatever is removed on the way.
    method Sweep(doomed: set<Node<T>>) returns (visited: seq<Node<T>>)
      requires Valid()
      modifies this, nodes
      ensures Valid() && visited == Reverse(old(nodes)) && nodes == Without(old(nodes), doomed)
    {
      visited := [];
      ghost var older, kept: seq<Node<T>> := nodes, [];
      var current := GetFirst();
      while current != null
        invariant Valid() && nodes == older + kept && (forall x :: x in nodes ==> x in old(nodes))
        invariant Without(older, doomed) + kept == Without(old(nodes), doomed)
        invariant visited + Reverse(older) == Reverse(old(nodes))
        invariant current == if older == [] then null else older[|older| - 1]
        decreases |older|
      {
        ghost var unvisited := older;
        older := older[..|older| - 1];
        assert unvisited == older + [current];
        assert visited + ([current] + Reverse(older)) == visited + [current] + Reverse(older);
        visited := visited + [current];
        ghost var was := kept;
        if current !in doomed { kept := [current] + kept; }
        assert forall i :: 0 <= i < |nodes| ==> nodes[i] in old(nodes);
        current := Visit(current, current in doomed, older, was);
      }
    }
  }
}
