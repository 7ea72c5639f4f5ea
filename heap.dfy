// Heap numbering of a complete binary tree, as the Merkle and DupTree
// families use it: the root is 1, the children of n are 2n and 2n+1, and
// with num_leaf = N leaves the leaves are N .. 2N-1. Every node n is
// stored under itos(n); since itos is injective (ItosDistinct), a store of
// such records is a map from node ids, and that is how it is kept here.
module Heap {
  import opened Tools

  /** n lies strictly above id on the path from id to the root. */
  predicate StrictAncestor(n: int, id: int)
    decreases id
  {
    id >= 2 && (n == id / 2 || StrictAncestor(n, id / 2))
  }

  /** c is top itself or one of its ancestors. */
  predicate OnPath(c: int, top: int) {
    c == top || StrictAncestor(c, top)
  }

  lemma {:induction false} AncestorIsSmaller(n: int, id: int)
    requires StrictAncestor(n, id)
    ensures 1 <= n <= id / 2
    decreases id
  {
    if n != id / 2 {
      AncestorIsSmaller(n, id / 2);
    }
  }

  /** j lies in the subtree rooted at id (id included). */
  predicate InSubtree(j: int, id: int)
    decreases j
  {
    j == id || (j >= 2 && j > id && InSubtree(j / 2, id))
  }

  lemma {:induction false} SubtreeAtLeast(j: int, id: int)
    requires id >= 1 && InSubtree(j, id)
    ensures j >= id && (j != id ==> j >= 2 * id)
    decreases j
  {
    if j != id && j / 2 != id {
      SubtreeAtLeast(j / 2, id);
    }
  }

  lemma {:induction false} InSubtreeOfRoot(j: int)
    requires j >= 1
    ensures InSubtree(j, 1)
    decreases j
  {
    if j >= 2 {
      InSubtreeOfRoot(j / 2);
    }
  }

  /** A subtree of a child lies inside the parent's subtree. */
  lemma {:induction false} InSubtreeOfChild(j: int, c: int)
    requires c >= 2 && InSubtree(j, c)
    ensures InSubtree(j, c / 2)
    decreases j
  {
    if j != c {
      SubtreeAtLeast(j, c);
      InSubtreeOfChild(j / 2, c);
    }
  }

  /** Below its root, a subtree is the union of its two children's. */
  lemma {:induction false} SubtreeSplit(j: int, id: int)
    requires id >= 1 && InSubtree(j, id) && j != id
    ensures InSubtree(j, 2 * id) || InSubtree(j, 2 * id + 1)
    decreases j
  {
    if j / 2 != id {
      SubtreeSplit(j / 2, id);
      if InSubtree(j / 2, 2 * id) {
        SubtreeAtLeast(j / 2, 2 * id);
      } else {
        SubtreeAtLeast(j / 2, 2 * id + 1);
      }
    }
  }

  /** Two nodes whose subtrees share a node are on one path. */
  lemma {:induction false} SubtreesNest(j: int, a: int, b: int)
    requires 1 <= a < b && InSubtree(j, a) && InSubtree(j, b)
    ensures InSubtree(b, a)
    decreases j
  {
    if j != b {
      SubtreeAtLeast(j, b);
      SubtreesNest(j / 2, a, b);
    }
  }

  /** The two children's subtrees are disjoint. */
  lemma {:induction false} SubtreesDisjoint(j: int, id: int)
    requires id >= 1
    ensures !(InSubtree(j, 2 * id) && InSubtree(j, 2 * id + 1))
  {
    if InSubtree(j, 2 * id) && InSubtree(j, 2 * id + 1) {
      SubtreesNest(j, 2 * id, 2 * id + 1);
      assert false;
    }
  }

  /** Distinct heap ids are stored under distinct itos keys. */
  lemma {:induction false} ItosDistinct(a: int, b: int)
    requires a != b
    ensures Itos(a) != Itos(b)
  {
    if Itos(a) == Itos(b) {
      ItosInjective(a, b);
    }
  }

  // ---------------------------------------------------------------------
  // gen_node: a post-order walk writing every node's record.

  /** The hash gen_node gives node id: a leaf is its value, a parent the hash
      of its children's hashes (Node(l, r) and NodeChild(l, r) alike). */
  function TreeHash(H: Hasher, values: seq<string>, N: int, id: int): string
    requires 1 <= id < 2 * N && |values| == N
    decreases 2 * N - id
  {
    if id >= N then values[id - N]
    else Hash(H, TreeHash(H, values, N, 2 * id) + TreeHash(H, values, N, 2 * id + 1))
  }

  /** The record gen_node writes for id: to_string() of its node. With
      children, a parent's record is its hash followed by its children's. */
  function Record(H: Hasher, values: seq<string>, N: int, id: int, withChildren: bool): string
    requires 1 <= id < 2 * N && |values| == N
  {
    if id >= N || !withChildren then TreeHash(H, values, N, id)
    else TreeHash(H, values, N, id) + TreeHash(H, values, N, 2 * id) + TreeHash(H, values, N, 2 * id + 1)
  }

  /** Every node's record, indexed by heap id (index 0 is unused). */
  function Records(H: Hasher, values: seq<string>, N: int, withChildren: bool): (recs: seq<string>)
    requires N >= 1 && |values| == N
    ensures |recs| == 2 * N
    ensures forall j :: 1 <= j < 2 * N ==> recs[j] == Record(H, values, N, j, withChildren)
  {
    RecordsUpTo(H, values, N, withChildren, 2 * N)
  }

  /** The first k records (a comprehension here would hand the solver a
      lambda at every use). */
  function RecordsUpTo(H: Hasher, values: seq<string>, N: int, withChildren: bool, k: nat): (recs: seq<string>)
    requires N >= 1 && |values| == N && k <= 2 * N
    ensures |recs| == k
    ensures forall j :: 1 <= j < k ==> recs[j] == Record(H, values, N, j, withChildren)
  {
    if k == 0 then []
    else RecordsUpTo(H, values, N, withChildren, k - 1) + [if k - 1 >= 1 then Record(H, values, N, k - 1, withChildren) else ""]
  }

  /** The store after gen_node(id): both subtrees in order, then id, each
      node written with its record from recs. */
  function Gen(N: int, id: int, store: map<int, string>, recs: seq<string>): map<int, string>
    requires 1 <= id < 2 * N && |recs| == 2 * N
    decreases 2 * N - id
  {
    if id >= N then store[id := recs[id]]
    else Gen(N, 2 * id + 1, Gen(N, 2 * id, store, recs), recs)[id := recs[id]]
  }

  /** gen_node at a parent: both subtrees, then the parent's own record. */
  lemma {:induction false} GenParentStep(N: int, id: int, store: map<int, string>, recs: seq<string>, mid: map<int, string>, v: string)
    requires 1 <= id < N && |recs| == 2 * N
    requires mid == Gen(N, 2 * id + 1, Gen(N, 2 * id, store, recs), recs) && v == recs[id]
    ensures mid[id := v] == Gen(N, id, store, recs)
  {
  }

  /** The record of id is the same in both stores (present in both or
      absent from both). */
  predicate SameRecord(st: map<int, string>, store: map<int, string>, j: int) {
    (j in st <==> j in store) && (j in store ==> st[j] == store[j])
  }

  lemma {:induction false} WriteKeepsOthers(store: map<int, string>, p: int, v: string, j: int)
    requires j != p
    ensures SameRecord(store[p := v], store, j)
  {
  }

  /** gen_node(id) touches no record outside id's subtree. */
  lemma {:induction false} GenKeepsOutside(N: int, id: int, store: map<int, string>, recs: seq<string>, j: int)
    requires 1 <= id < 2 * N && |recs| == 2 * N
    requires !InSubtree(j, id)
    ensures SameRecord(Gen(N, id, store, recs), store, j)
    decreases 2 * N - id
  {
    if id >= N {
      WriteKeepsOthers(store, id, recs[id], j);
    } else {
      if InSubtree(j, 2 * id) {
        InSubtreeOfChild(j, 2 * id);
      }
      if InSubtree(j, 2 * id + 1) {
        InSubtreeOfChild(j, 2 * id + 1);
      }
      GenKeepsOutside(N, 2 * id, store, recs, j);
      GenKeepsOutside(N, 2 * id + 1, Gen(N, 2 * id, store, recs), recs, j);
      WriteKeepsOthers(Gen(N, 2 * id + 1, Gen(N, 2 * id, store, recs), recs), id, recs[id], j);
    }
  }

  /** gen_node(id) writes the record of every node of its subtree. */
  lemma {:induction false} GenWritesInside(N: int, id: int, store: map<int, string>, recs: seq<string>, j: int)
    requires 1 <= id < 2 * N && |recs| == 2 * N
    requires 1 <= j < 2 * N && InSubtree(j, id)
    ensures j in Gen(N, id, store, recs) && Gen(N, id, store, recs)[j] == recs[j]
    decreases 2 * N - id
  {
    if id >= N {
      SubtreeAtLeast(j, id);
    } else if j != id {
      SubtreeSplit(j, id);
      SubtreesDisjoint(j, id);
      if InSubtree(j, 2 * id) {
        GenWritesInside(N, 2 * id, store, recs, j);
        GenKeepsOutside(N, 2 * id + 1, Gen(N, 2 * id, store, recs), recs, j);
      } else {
        GenWritesInside(N, 2 * id + 1, Gen(N, 2 * id, store, recs), recs, j);
      }
      WriteKeepsOthers(Gen(N, 2 * id + 1, Gen(N, 2 * id, store, recs), recs), id, recs[id], j);
    }
  }

  /** gen_node(1) writes every node of the tree. */
  lemma {:induction false} GenWritesAll(N: int, store: map<int, string>, recs: seq<string>)
    requires N >= 1 && |recs| == 2 * N
    ensures forall j :: 1 <= j < 2 * N ==> j in Gen(N, 1, store, recs) && Gen(N, 1, store, recs)[j] == recs[j]
  {
    forall j | 1 <= j < 2 * N
      ensures j in Gen(N, 1, store, recs) && Gen(N, 1, store, recs)[j] == recs[j]
    {
      InSubtreeOfRoot(j);
      GenWritesInside(N, 1, store, recs, j);
    }
  }
}
