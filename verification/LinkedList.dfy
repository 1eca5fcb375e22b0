/** Circular lists (src/common/list.c:3-44), which make up the sleep lists, the run queue
and the list of cached blocks. */
module LinkedList {

  class ListNode {
    var prev: ListNode?
    var next: ListNode?
  }

  ghost function After(i: nat, n: nat): nat { if i + 1 == n then 0 else i + 1 }

  /** `r` are the nodes of one ring, in the order of the next links. */
  ghost predicate Ring(r: seq<ListNode>)
    reads r
  {
    && r != []
    && (forall i, j | 0 <= i < j < |r| :: r[i] != r[j])
    && forall i: nat | i < |r| :: r[i].next == r[After(i, |r|)] && r[After(i, |r|)].prev == r[i]
  }

  /** The ring that starts at the head of a list: the head, and the elements. */
  ghost predicate List(head: ListNode, elements: seq<ListNode>)
    reads head, elements
  {
    Ring([head] + elements)
  }

  /** init_list_node */
  method Init(node: ListNode)
    modifies node
    ensures Ring([node])
  {
    node.prev := node;
    node.next := node;
  }

  /** `r` is `r1` with `r2` put in after its first node. */
  ghost predicate Spliced(r1: seq<ListNode>, r2: seq<ListNode>, r: seq<ListNode>) {
    && r1 != [] && r2 != [] && |r| == |r1| + |r2| && r[0] == r1[0]
    && (forall i | 1 <= i <= |r2| :: r[i] == r2[i - 1])
    && (forall i | |r2| < i < |r| :: r[i] == r1[i - |r2|])
    && (forall i, j | 0 <= i < j < |r| :: r[i] != r[j])
  }

  lemma MergeSpliced(r1: seq<ListNode>, r2: seq<ListNode>)
    requires r1 != [] && r2 != []
    requires (forall i, j | 0 <= i < j < |r1| :: r1[i] != r1[j]) && (forall i, j | 0 <= i < j < |r2| :: r2[i] != r2[j])
    requires forall x <- r1 :: x !in r2
    ensures Spliced(r1, r2, [r1[0]] + r2 + r1[1..])
  {
    var r := [r1[0]] + r2 + r1[1..];
    forall i, j | 0 <= i < j < |r|
      ensures r[i] != r[j]
    {
      assert i == 0 || i > |r2| ==> r[i] in r1;
      assert j > |r2| ==> r[j] in r1;
      assert 1 <= i <= |r2| ==> r[i] in r2;
      assert 1 <= j <= |r2| ==> r[j] in r2;
    }
  }

  /** The links that _merge_list rewrites. */
  method Relink(node1: ListNode, node2: ListNode, ghost r1: seq<ListNode>, ghost r2: seq<ListNode>, ghost r: seq<ListNode>)
    requires Ring(r1) && Ring(r2) && r1[0] == node1 && r2[0] == node2 && Spliced(r1, r2, r)
    modifies r1, r2
    ensures Ring(r)
  {
    var node3 := node1.next;
    var node4 := node2.prev;
    assert r2[After(|r2| - 1, |r2|)] == node2;
    assert node4 == r[|r2|] && node3 == r[After(|r2|, |r|)];
    node1.next := node2;
    node2.prev := node1;
    node4.next := node3;
    node3.prev := node4;
    forall i: nat | i < |r|
      ensures r[i].next == r[After(i, |r|)] && r[After(i, |r|)].prev == r[i]
    {
      if 0 < i < |r2| {
        assert After(i - 1, |r2|) == i;
      } else if |r2| < i {
        assert r[i] == r1[i - |r2|] && r[After(i, |r|)] == r1[After(i - |r2|, |r1|)];
      }
    }
  }

  /** _merge_list: the ring of the second node goes in after the first; a null node adds
      nothing. */
  method Merge(node1: ListNode?, node2: ListNode?, ghost r1: seq<ListNode>, ghost r2: seq<ListNode>) returns (list: ListNode?)
    requires node1 != null ==> Ring(r1) && r1[0] == node1
    requires node2 != null ==> Ring(r2) && r2[0] == node2
    requires node1 != null && node2 != null ==> forall x <- r1 :: x !in r2
    modifies r1, r2
    ensures list == if node1 == null then node2 else node1
    ensures node1 != null && node2 != null ==> Ring([node1] + r2 + r1[1..])
    ensures node1 == null || node2 == null ==> forall x <- r1 + r2 :: x.prev == old(x.prev) && x.next == old(x.next)
  {
    if node1 == null {
      return node2;
    }
    if node2 == null {
      return node1;
    }
    MergeSpliced(r1, r2);
    Relink(node1, node2, r1, r2, [node1] + r2 + r1[1..]);
    return node1;
  }

  /** _insert_into_list: the node becomes the first element. */
  method Insert(head: ListNode, node: ListNode, ghost elements: seq<ListNode>)
    requires List(head, elements) && node != head && node !in elements
    modifies head, elements, node
    ensures List(head, [node] + elements)
  {
    Init(node);
    var _ := Merge(head, node, [head] + elements, [node]);
    assert [head] + [node] + ([head] + elements)[1..] == [head] + ([node] + elements);
  }

  /** _detach_from_list: the rest of the ring closes, and the node is a ring of its own. */
  method Detach(node: ListNode, ghost r: seq<ListNode>) returns (rest: ListNode?)
    requires Ring(r) && r[0] == node
    modifies r
    ensures Ring([node])
    ensures if |r| == 1 then rest == null else rest == r[|r| - 1] && Ring(r[1..])
  {
    assert r[After(|r| - 1, |r|)] == node && r[After(0, |r|)] == node.next;
    var prev := node.prev;
    prev.next := node.next;
    node.next.prev := node.prev;
    Init(node);
    rest := if prev == node then null else prev;
    if |r| > 1 {
      ghost var q := r[1..];
      assert forall i: nat | i < |q| :: q[i] == r[i + 1];
      forall i: nat | i < |q|
        ensures q[i].next == q[After(i, |q|)] && q[After(i, |q|)].prev == q[i]
      {
        assert After(i + 1, |r|) == if i + 1 == |q| then 0 else i + 2;
      }
    }
  }
}
