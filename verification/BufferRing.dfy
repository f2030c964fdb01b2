/**
 The doubly linked ring of src/bio.c: `next` and `prev` link a head node and the listed nodes into one
 cycle. Unlinking and inserting at the front are the two edits the cache makes.
 */
module BufferRing {

  /** Node number k of the cycle: the head, the listed nodes, the head again. */
  function Node(h: nat, order: seq<nat>, k: nat): nat
    requires k <= |order| + 1
  {
    if k == 0 || k == |order| + 1 then h else order[k - 1]
  }

  ghost predicate Listed(h: nat, order: seq<nat>, size: nat) {
    && h < size
    && (forall i | 0 <= i < |order| :: order[i] < size && order[i] != h)
    && (forall i, j | 0 <= i < j < |order| :: order[i] != order[j])
  }

  ghost predicate Ring(next: seq<nat>, prev: seq<nat>, h: nat, order: seq<nat>) {
    && |next| == |prev| && Listed(h, order, |next|)
    && (forall k: nat | k <= |order| :: next[Node(h, order, k)] == Node(h, order, k + 1))
    && (forall k: nat | k <= |order| :: prev[Node(h, order, k + 1)] == Node(h, order, k))
  }

  lemma {:induction false} NodesApart(h: nat, order: seq<nat>, size: nat, i: nat, j: nat)
    requires Listed(h, order, size) && i <= |order| && j <= |order|
    ensures Node(h, order, i) < size
    ensures Node(h, order, i) == Node(h, order, j) ==> i == j
  {
  }

  /** What the two links at place k say. */
  lemma {:induction false} LinksAt(next: seq<nat>, prev: seq<nat>, h: nat, order: seq<nat>, k: nat)
    requires Ring(next, prev, h, order) && k <= |order|
    ensures Node(h, order, k) < |next| && Node(h, order, k + 1) < |next|
    ensures next[Node(h, order, k)] == Node(h, order, k + 1)
    ensures prev[Node(h, order, k + 1)] == Node(h, order, k)
  {
    NodesApart(h, order, |next|, k, k);
    NodesApart(h, order, |next|, if k == |order| then 0 else k + 1, 0);
  }

  function Without(order: seq<nat>, p: nat): seq<nat>
    requires p < |order|
  {
    order[..p] + order[p + 1..]
  }

  /** Nodes of the shortened list. */
  lemma {:induction false} NodeWithout(h: nat, order: seq<nat>, p: nat, k: nat)
    requires p < |order| && k <= |order|
    ensures Node(h, Without(order, p), k) == Node(h, order, if k <= p then k else k + 1)
  {
  }

  lemma {:induction false} ListedWithout(h: nat, order: seq<nat>, size: nat, p: nat)
    requires Listed(h, order, size) && p < |order|
    ensures Listed(h, Without(order, p), size) && order[p] !in Without(order, p)
  {
    var o := Without(order, p);
    forall i | 0 <= i < |o|
      ensures o[i] == order[if i < p then i else i + 1]
    {
    }
  }

  /** Taking the node at place p out of the ring. */
  lemma {:induction false} Unlinked(next: seq<nat>, prev: seq<nat>, h: nat, order: seq<nat>, p: nat)
    requires Ring(next, prev, h, order) && p < |order|
    ensures var b := order[p];
            && b < |next| && prev[b] < |next| && next[b] < |next| && next[b] != b && prev[b] != b
            && Ring(next[prev[b] := next[b]], prev[next[b] := prev[b]], h, Without(order, p))
  {
    var b, o := order[p], Without(order, p);
    LinksAt(next, prev, h, order, p);
    LinksAt(next, prev, h, order, p + 1);
    ListedWithout(h, order, |next|, p);
    assert next[b] != b by { Wrapped(h, order, |next|, p + 1, p + 2); }
    assert prev[b] != b by { NodesApart(h, order, |next|, p, p + 1); }
    var n, r := next[prev[b] := next[b]], prev[next[b] := prev[b]];
    forall k: nat | k <= |o|
      ensures n[Node(h, o, k)] == Node(h, o, k + 1) && r[Node(h, o, k + 1)] == Node(h, o, k)
    {
      UnlinkedAt(next, prev, h, order, p, k);
    }
    hide Node;
  }

  lemma {:induction false} UnlinkedAt(next: seq<nat>, prev: seq<nat>, h: nat, order: seq<nat>, p: nat, k: nat)
    requires Ring(next, prev, h, order) && p < |order| && k < |order|
    requires order[p] < |next| && prev[order[p]] < |next| && next[order[p]] < |next|
    ensures var b, o := order[p], Without(order, p);
            && Node(h, o, k) < |next| && Node(h, o, k + 1) < |next|
            && next[prev[b] := next[b]][Node(h, o, k)] == Node(h, o, k + 1)
            && prev[next[b] := prev[b]][Node(h, o, k + 1)] == Node(h, o, k)
  {
    var b := order[p];
    NodeWithout(h, order, p, k);
    NodeWithout(h, order, p, k + 1);
    var at: nat := if k <= p then k else k + 1;
    LinksAt(next, prev, h, order, at);
    LinksAt(next, prev, h, order, p);
    LinksAt(next, prev, h, order, p + 1);
    assert prev[b] == Node(h, order, p) && next[b] == Node(h, order, p + 2);
    NodesApart(h, order, |next|, at, p);
    Wrapped(h, order, |next|, at + 1, p + 2);
    hide Node, Ring, Without;
  }

  /** Places 1 to the end are apart as well. */
  lemma {:induction false} Wrapped(h: nat, order: seq<nat>, size: nat, i: nat, j: nat)
    requires Listed(h, order, size) && 1 <= i <= |order| + 1 && 1 <= j <= |order| + 1
    ensures Node(h, order, i) == Node(h, order, j) ==> i == j
  {
  }

  /** Putting a node that is not listed right after the head. */
  lemma {:induction false} Inserted(next: seq<nat>, prev: seq<nat>, h: nat, order: seq<nat>, b: nat)
    requires Ring(next, prev, h, order) && b < |next| && b != h && b !in order
    ensures next[h] < |next|
    ensures Ring(next[b := next[h]][h := b], prev[b := h][next[h] := b], h, [b] + order)
  {
    LinksAt(next, prev, h, order, 0);
    var o := [b] + order;
    var n, r := next[b := next[h]][h := b], prev[b := h][next[h] := b];
    forall k: nat | k <= |o|
      ensures n[Node(h, o, k)] == Node(h, o, k + 1) && r[Node(h, o, k + 1)] == Node(h, o, k)
    {
      InsertedAt(next, prev, h, order, b, k);
    }
    assert Listed(h, o, |next|) by { assert forall i | 0 < i < |o| :: o[i] == order[i - 1]; }
    hide Node;
  }

  lemma {:induction false} InsertedAt(next: seq<nat>, prev: seq<nat>, h: nat, order: seq<nat>, b: nat, k: nat)
    requires Ring(next, prev, h, order) && b < |next| && b != h && b !in order && next[h] < |next| && k <= |order| + 1
    ensures var o := [b] + order;
            && Node(h, o, k) < |next| && Node(h, o, k + 1) < |next|
            && next[b := next[h]][h := b][Node(h, o, k)] == Node(h, o, k + 1)
            && prev[b := h][next[h] := b][Node(h, o, k + 1)] == Node(h, o, k)
  {
    var o := [b] + order;
    LinksAt(next, prev, h, order, 0);
    assert next[h] == Node(h, order, 1);
    if k >= 2 {
      LinksAt(next, prev, h, order, k - 1);
      assert Node(h, o, k) == Node(h, order, k - 1) && Node(h, o, k + 1) == Node(h, order, k);
      NodesApart(h, order, |next|, k - 1, 0);
      Wrapped(h, order, |next|, k, 1);
      assert Node(h, order, k) != b && Node(h, order, k - 1) != b;
      hide Node, Ring;
    } else if k == 1 {
      assert Node(h, o, 2) == Node(h, order, 1);
      hide Ring;
    } else {
      assert Node(h, order, 1) != b;
      hide Ring;
    }
  }
}
