// Heap-indexed binary Merkle trees (merkle.hpp). Node id is stored under
// itos(id), which the store here is indexed by id itself (Tools.ItosInjective:
// distinct ids have distinct keys); the leaves are num_leaf .. 2*num_leaf-1. MerkleSimple stores a
// node's hash; MerkleChild stores a parent's hash followed by its children's.
module Merkle {
  import opened Results
  import opened Tools
  import opened IO
  import opened Nodes
  import opened MemChecker
  import opened Heap

  ghost predicate AllPresent(store: map<int, string>, N: int) {
    forall j :: 1 <= j < 2 * N ==> j in store
  }

  /** Every leaf holds a 64-character value, as the benchmark's hashed
      random values do; proofs are cut into 64-character chunks. */
  ghost predicate LeavesSized(store: map<int, string>, N: int) {
    forall j :: N <= j < 2 * N ==> j in store && |store[j]| == 64
  }

  // =====================================================================
  // MerkleSimple

  /** Internal node n holds the hash of its children's values in order. */
  ghost predicate SimpleNodeOk(H: Hasher, store: map<int, string>, n: int) {
    n in store && 2 * n in store && 2 * n + 1 in store
    && store[n] == Hash(H, store[2 * n] + store[2 * n + 1])
  }

  /** Consistent except on the path above `top`, whose hashes may be stale. */
  ghost predicate SimpleConsistentExcept(H: Hasher, store: map<int, string>, N: int, top: int) {
    AllPresent(store, N)
    && forall n {:trigger SimpleNodeOk(H, store, n)} :: 1 <= n < N && !StrictAncestor(n, top) ==> SimpleNodeOk(H, store, n)
  }

  ghost predicate SimpleConsistent(H: Hasher, store: map<int, string>, N: int) {
    SimpleConsistentExcept(H, store, N, 1)
  }

  /** The climb of update from id with the new hash `key`: each step hashes
      key with the sibling's value (modify_parent) and writes the parent. */
  function SimplePath(H: Hasher, store: map<int, string>, id: int, key: string): (map<int, string>, string)
    decreases id
  {
    if id < 2 then (store, key)
    else
      var k := Combine(H, id, key, ReadOr(store, SiblingId(id), ""));
      SimplePath(H, store[id / 2 := k], id / 2, k)
  }

  /** update(pos, value): the leaf gets the raw value, then the climb. */
  function SimpleUpdated(H: Hasher, store: map<int, string>, N: int, pos: int, value: string)
    : (map<int, string>, string)
  {
    SimplePath(H, store[pos + N := value], pos + N, value)
  }

  /** gen_proof: one sibling value per level from the leaf up; when a sibling
      is missing the string keeps the previous one. */
  function SimpleProof(store: map<int, string>, id: int, prev: string): string
    decreases id
  {
    if id < 2 then ""
    else
      var s := ReadOr(store, SiblingId(id), prev);
      s + SimpleProof(store, id / 2, s)
  }

  /** A write elsewhere keeps a consistent node consistent. */
  lemma {:induction false} SimpleNodeKept(H: Hasher, store: map<int, string>, p: int, v: string, n: int)
    requires p != n && p != 2 * n && p != 2 * n + 1
    requires SimpleNodeOk(H, store, n)
    ensures SimpleNodeOk(H, store[p := v], n)
  {
    WriteKeepsOthers(store, p, v, n);
    WriteKeepsOthers(store, p, v, 2 * n);
    WriteKeepsOthers(store, p, v, 2 * n + 1);
  }

  /** modify_parent writes a consistent parent. */
  lemma {:induction false} SimpleNodeRepaired(H: Hasher, store: map<int, string>, id: int, key: string)
    requires id >= 2 && id in store && SiblingId(id) in store && store[id] == key
    ensures SimpleNodeOk(H, store[id / 2 := Combine(H, id, key, ReadOr(store, SiblingId(id), ""))], id / 2)
  {
    var k := Combine(H, id, key, ReadOr(store, SiblingId(id), ""));
    SiblingFlipsLowestBit(id);
    WriteKeepsOthers(store, id / 2, k, id);
    WriteKeepsOthers(store, id / 2, k, SiblingId(id));
  }

  /** One modify_parent step repairs the parent and moves the stale part of
      the tree one level up. */
  lemma {:induction false} SimpleStep(H: Hasher, store: map<int, string>, N: int, id: int, key: string)
    requires N >= 1 && 2 <= id < 2 * N
    requires SimpleConsistentExcept(H, store, N, id)
    requires store[id] == key
    ensures var k := Combine(H, id, key, ReadOr(store, SiblingId(id), ""));
      SimpleConsistentExcept(H, store[id / 2 := k], N, id / 2)
      && store[id / 2 := k][id / 2] == k
  {
    var p := id / 2;
    SiblingFlipsLowestBit(id);
    var k := Combine(H, id, key, ReadOr(store, SiblingId(id), ""));
    forall n | 1 <= n < N && !StrictAncestor(n, p)
      ensures SimpleNodeOk(H, store[p := k], n)
    {
      if n == p {
        SimpleNodeRepaired(H, store, id, key);
      } else {
        assert !StrictAncestor(n, id);
        SimpleNodeKept(H, store, p, k, n);
      }
    }
  }

  /** The climb from id writes only ancestors of id. */
  lemma {:induction false} SimplePathKeeps(H: Hasher, store: map<int, string>, id: int, key: string, j: int)
    requires !StrictAncestor(j, id)
    ensures SameRecord(SimplePath(H, store, id, key).0, store, j)
    decreases id
  {
    if id >= 2 {
      var k := Combine(H, id, key, ReadOr(store, SiblingId(id), ""));
      SimplePathKeeps(H, store[id / 2 := k], id / 2, k, j);
      WriteKeepsOthers(store, id / 2, k, j);
    }
  }

  /** The climb from a stale-above-id store ends consistent, with the root
      holding the returned hash. */
  lemma {:induction false} SimplePathRepairs(H: Hasher, store: map<int, string>, N: int, id: int, key: string)
    requires N >= 1 && 1 <= id < 2 * N
    requires SimpleConsistentExcept(H, store, N, id)
    requires store[id] == key
    ensures SimpleConsistent(H, SimplePath(H, store, id, key).0, N)
    ensures SimplePath(H, store, id, key).0[1] == SimplePath(H, store, id, key).1
    decreases id
  {
    if id >= 2 {
      var k := Combine(H, id, key, ReadOr(store, SiblingId(id), ""));
      SimpleStep(H, store, N, id, key);
      SimplePathRepairs(H, store[id / 2 := k], N, id / 2, k);
    }
  }

  /** Writing a leaf leaves every node off its path consistent. */
  lemma {:induction false} SimpleLeafWrite(H: Hasher, store: map<int, string>, N: int, leaf: int, value: string)
    requires N >= 1 && N <= leaf < 2 * N
    requires SimpleConsistent(H, store, N)
    ensures SimpleConsistentExcept(H, store[leaf := value], N, leaf)
  {
    forall n | 1 <= n < N && !StrictAncestor(n, leaf)
      ensures SimpleNodeOk(H, store[leaf := value], n)
    {
      assert SimpleNodeOk(H, store, n);
      SimpleNodeKept(H, store, leaf, value, n);
    }
  }

  /** update keeps the tree consistent: the leaf holds the new value and the
      returned digest is the root's hash. */
  lemma {:induction false} SimpleUpdateSound(H: Hasher, store: map<int, string>, N: int, pos: int, value: string)
    requires N >= 1 && 0 <= pos < N
    requires SimpleConsistent(H, store, N)
    ensures var r := SimpleUpdated(H, store, N, pos, value);
      SimpleConsistent(H, r.0, N) && r.0[1] == r.1 && r.0[pos + N] == value
  {
    var leaf := pos + N;
    SimpleLeafWrite(H, store, N, leaf, value);
    SimplePathRepairs(H, store[leaf := value], N, leaf, value);
    if StrictAncestor(leaf, leaf) {
      AncestorIsSmaller(leaf, leaf);
    }
    SimplePathKeeps(H, store[leaf := value], leaf, value, leaf);
  }

  /** update rewrites no other leaf, so leaves keep their size. */
  lemma {:induction false} SimpleUpdateKeepsLeaves(H: Hasher, store: map<int, string>, N: int, pos: int, value: string, j: int)
    requires N >= 1 && 0 <= pos < N && N <= j < 2 * N && j != pos + N
    ensures SameRecord(SimpleUpdated(H, store, N, pos, value).0, store, j)
  {
    var leaf := pos + N;
    if StrictAncestor(j, leaf) {
      AncestorIsSmaller(j, leaf);
    }
    SimplePathKeeps(H, store[leaf := value], leaf, value, j);
    WriteKeepsOthers(store, leaf, value, j);
  }

  lemma {:induction false} SimpleUpdateSized(H: Hasher, store: map<int, string>, N: int, pos: int, value: string)
    requires N >= 1 && 0 <= pos < N && |value| == 64
    requires SimpleConsistent(H, store, N) && LeavesSized(store, N)
    ensures LeavesSized(SimpleUpdated(H, store, N, pos, value).0, N)
  {
    var st := SimpleUpdated(H, store, N, pos, value).0;
    SimpleUpdateSound(H, store, N, pos, value);
    forall j | N <= j < 2 * N
      ensures j in st && |st[j]| == 64
    {
      if j != pos + N {
        SimpleUpdateKeepsLeaves(H, store, N, pos, value, j);
      }
    }
  }

  /** In a consistent store the sibling of a non-root node holds a
      64-character value, and hashing in verify_proof's order gives the
      parent's value. */
  lemma {:induction false} SimpleSibling(H: Hasher, store: map<int, string>, N: int, id: int)
    requires N >= 1 && 2 <= id < 2 * N
    requires SimpleConsistent(H, store, N) && LeavesSized(store, N)
    ensures SiblingId(id) in store && |store[SiblingId(id)]| == 64
    ensures Combine(H, id, store[id], store[SiblingId(id)]) == store[id / 2]
  {
    var sib := SiblingId(id);
    SiblingFlipsLowestBit(id);
    assert SimpleNodeOk(H, store, id / 2);
    if sib < N {
      assert SimpleNodeOk(H, store, sib);
    }
  }

  /** gen_proof on a consistent tree gives one 64-character chunk per level. */
  lemma {:induction false} SimpleProofLength(H: Hasher, store: map<int, string>, N: int, id: int, prev: string)
    requires N >= 1 && 1 <= id < 2 * N
    requires SimpleConsistent(H, store, N) && LeavesSized(store, N)
    ensures |SimpleProof(store, id, prev)| == 64 * Steps(id)
    decreases id
  {
    if id >= 2 {
      SimpleSibling(H, store, N, id);
      SimpleProofLength(H, store, N, id / 2, store[SiblingId(id)]);
    }
  }

  /** The proof gen_proof builds from a consistent store verifies: folding
      it from id's value ends at the root's value. */
  lemma {:induction false} SimpleProofVerifies(H: Hasher, store: map<int, string>, N: int, id: int,
                                               prev: string, pre: string)
    requires N >= 1 && 1 <= id < 2 * N
    requires SimpleConsistent(H, store, N) && LeavesSized(store, N)
    ensures VerifyFold(H, id, |pre|, store[id], pre + SimpleProof(store, id, prev)) == Ok(store[1])
    decreases id
  {
    if id >= 2 {
      SimpleSibling(H, store, N, id);
      var s := store[SiblingId(id)];
      var rest := SimpleProof(store, id / 2, s);
      SimpleProofVerifies(H, store, N, id / 2, s, pre + s);
      assert pre + (s + rest) == (pre + s) + rest;
      ChunkAt(pre, s, rest);
    }
  }

  /** After update(pos, value), verify_proof(pos, value, gen_proof(pos))
      accepts against the new digest. */
  lemma {:induction false} SimpleRoundTrip(H: Hasher, store: map<int, string>, N: int, pos: int, value: string)
    requires N >= 1 && 0 <= pos < N && |value| == 64
    requires SimpleConsistent(H, store, N) && LeavesSized(store, N)
    ensures var r := SimpleUpdated(H, store, N, pos, value);
      VerifyFold(H, pos + N, 0, value, SimpleProof(r.0, pos + N, "")) == Ok(r.1)
  {
    var r := SimpleUpdated(H, store, N, pos, value);
    SimpleUpdateSound(H, store, N, pos, value);
    SimpleUpdateSized(H, store, N, pos, value);
    SimpleProofVerifies(H, r.0, N, pos + N, "", "");
    assert "" + SimpleProof(r.0, pos + N, "") == SimpleProof(r.0, pos + N, "");
  }

  /** gen_node(1) builds a consistent tree whose root is the tree hash. */
  lemma {:induction false} SimpleGenConsistent(H: Hasher, values: seq<string>, N: int, store: map<int, string>)
    requires N >= 1 && |values| == N
    ensures var st := Gen(N, 1, store, Records(H, values, N, false));
      SimpleConsistent(H, st, N) && st[1] == TreeHash(H, values, N, 1)
      && ((forall i :: 0 <= i < N ==> |values[i]| == 64) ==> LeavesSized(st, N))
  {
    GenWritesAll(N, store, Records(H, values, N, false));
  }

  /** gen_node's record for id without children: a leaf's value, or the
      hash of both children's records. */
  lemma {:induction false} SimpleRecordOf(H: Hasher, values: seq<string>, N: int, id: int)
    requires 1 <= id < 2 * N && |values| == N
    ensures var recs := Records(H, values, N, false);
      id >= N ==> recs[id] == values[id - N]
    ensures var recs := Records(H, values, N, false);
      id < N ==> recs[id] == Hash(H, recs[2 * id] + recs[2 * id + 1])
  {
    var recs := Records(H, values, N, false);
    assert recs[id] == Record(H, values, N, id, false);
    if id < N {
      assert recs[2 * id] == Record(H, values, N, 2 * id, false);
      assert recs[2 * id + 1] == Record(H, values, N, 2 * id + 1, false);
    }
  }

  /** gen_node at a leaf writes the leaf's value, which is its hash. */
  lemma {:induction false} SimpleLeafGen(H: Hasher, values: seq<string>, N: int, id: int, store: map<int, string>)
    requires N <= id < 2 * N && |values| == N
    ensures var recs := Records(H, values, N, false);
      Leaf(values[id - N]).GetHashVal() == recs[id]
      && store[id := Leaf(values[id - N]).ToString()] == Gen(N, id, store, recs)
  {
    SimpleRecordOf(H, values, N, id);
  }

  /** gen_node at a parent, both subtrees written: the parent's hash is its
      record, written last. */
  lemma {:induction false} SimpleParentGen(H: Hasher, values: seq<string>, N: int, id: int, s0: map<int, string>,
                                           mid: map<int, string>, left: Node, right: Node)
    requires 1 <= id < N && |values| == N
    requires var recs := Records(H, values, N, false);
      left.GetHashVal() == recs[2 * id] && right.GetHashVal() == recs[2 * id + 1]
      && mid == Gen(N, 2 * id + 1, Gen(N, 2 * id, s0, recs), recs)
    ensures var recs := Records(H, values, N, false);
      Parent(H, left, right).GetHashVal() == recs[id]
      && mid[id := Parent(H, left, right).ToString()] == Gen(N, id, s0, recs)
  {
    var recs := Records(H, values, N, false);
    SimpleRecordOf(H, values, N, id);
    GenParentStep(N, id, s0, recs, mid, Parent(H, left, right).ToString());
  }

  class MerkleSimple {
    const H: Hasher
    const height: nat
    const numLeaf: nat
    var digest: string
    /** What the tree's IO holds (its Contents). */
    var store: map<int, string>

    ghost predicate Valid()
      reads this
    {
      numLeaf >= 1 && SimpleConsistent(H, store, numLeaf) && 1 in store && digest == store[1]
    }

    ghost predicate LeavesHashSized()
      reads this
    {
      LeavesSized(store, numLeaf)
    }

    /** MerkleBase(height): 2^height leaves, no digest yet. */
    constructor (H: Hasher, height: nat)
      ensures this.H == H && this.height == height && numLeaf == NumLeaf(height)
      ensures digest == "" && store == map[]
    {
      this.H := H;
      this.height := height;
      numLeaf := NumLeaf(height);
      digest := "";
      store := map[];
    }

    method GenNode(id: int, values: seq<string>) returns (node: Node)
      requires 1 <= id < 2 * numLeaf && |values| == numLeaf
      modifies this`store
      ensures node.GetHashVal() == Records(H, values, numLeaf, false)[id]
      ensures store == Gen(numLeaf, id, old(store), Records(H, values, numLeaf, false))
      decreases 2 * numLeaf - id
    {
      if id >= numLeaf {
        var leaf := Leaf(values[id - numLeaf]);
        SimpleLeafGen(H, values, numLeaf, id, store);
        store := store[id := leaf.ToString()];
        return leaf;
      }
      ghost var s0 := store;
      var left := GenNode(id * 2, values);
      var right := GenNode(id * 2 + 1, values);
      node := Parent(H, left, right);
      SimpleParentGen(H, values, numLeaf, id, s0, store, left, right);
      store := store[id := node.ToString()];
    }

    /** init: opening empties the store. With create_db, gen_node(1) writes
        the whole tree and the digest is the root's hash; without, the digest
        is read from key "1", which gen_node never writes (it writes
        itos(1)), so the digest keeps its value. */
    method Init(values: seq<string>, dbOpened: bool, createDb: bool) returns (ok: bool)
      requires numLeaf >= 1 && (createDb ==> |values| == numLeaf)
      modifies this`store, this`digest
      ensures ok == dbOpened
      ensures !(ok && createDb) ==> store == map[] && digest == old(digest)
      ensures ok && createDb ==> store == Gen(numLeaf, 1, map[], Records(H, values, numLeaf, false))
      ensures ok && createDb ==> Valid() && digest == TreeHash(H, values, numLeaf, 1)
      ensures ok && createDb && (forall i :: 0 <= i < numLeaf ==> |values[i]| == 64) ==> LeavesHashSized()
    {
      store := map[];
      if !dbOpened {
        return false;
      }
      if createDb {
        var root := GenNode(1, values);
        digest := root.GetHashVal();
        SimpleGenConsistent(H, values, numLeaf, map[]);
      } else {
        // io->read("1", digest): no record has that key (every node is
        // under an 11-character itos key) and the store has just been
        // emptied by open(), so digest keeps its value.
        digest := Leaf(digest).GetHashVal();
      }
      return true;
    }

    function GetSibling(id: int, s: string): string
      reads this
    {
      ReadOr(store, SiblingId(id), s)
    }

    method ModifyParent(id: int, key: string) returns (newKey: string)
      modifies this`store
      ensures newKey == Combine(H, id, key, ReadOr(old(store), SiblingId(id), ""))
      ensures store == old(store)[id / 2 := newKey]
    {
      var s := ReadOr(store, SiblingId(id), "");
      newKey := Combine(H, id, key, s);
      store := store[id / 2 := newKey];
    }

    method Update(pos: int, value: string)
      modifies this`store, this`digest
      ensures (store, digest) == SimpleUpdated(H, old(store), numLeaf, pos, value)
      ensures old(Valid()) && 0 <= pos < numLeaf ==> Valid() && store[pos + numLeaf] == value
      ensures old(Valid() && LeavesHashSized()) && 0 <= pos < numLeaf && |value| == 64 ==> LeavesHashSized()
    {
      var key := value;
      store := store[pos + numLeaf := key];
      var id := pos + numLeaf;
      while id >= 2
        invariant SimplePath(H, store, id, key) == SimpleUpdated(H, old(store), numLeaf, pos, value)
        decreases id
      {
        key := ModifyParent(id, key);
        id := id / 2;
      }
      digest := key;
      if old(Valid()) && 0 <= pos < numLeaf {
        SimpleUpdateSound(H, old(store), numLeaf, pos, value);
        if old(LeavesHashSized()) && |value| == 64 {
          SimpleUpdateSized(H, old(store), numLeaf, pos, value);
        }
      }
    }

    method GenProof(pos: int) returns (output: string)
      ensures output == SimpleProof(store, pos + numLeaf, "")
    {
      var s := "";
      output := "";
      var id := pos + numLeaf;
      while id >= 2
        invariant output + SimpleProof(store, id, s) == SimpleProof(store, pos + numLeaf, "")
        decreases id
      {
        s := GetSibling(id, s);
        output := output + s;
        id := id / 2;
      }
    }

    method VerifyProof(pos: int, value: string, proof: string) returns (r: Result<bool>)
      ensures r.Ok? <==> VerifyFold(H, pos + numLeaf, 0, value, proof).Ok?
      ensures r.Ok? ==> (r.value <==> VerifyFold(H, pos + numLeaf, 0, value, proof).value == digest)
    {
      r := MemChecker.VerifyProof(H, numLeaf, digest, pos, value, proof);
    }

    /** The benchmark's self-test: update, prove, verify. */
    method UpdateThenVerify(pos: int, value: string) returns (accepted: Result<bool>)
      requires Valid() && LeavesHashSized() && 0 <= pos < numLeaf && |value| == 64
      modifies this`store, this`digest
      ensures Valid() && LeavesHashSized() && accepted == Ok(true)
    {
      ghost var before := store;
      SimpleRoundTrip(H, before, numLeaf, pos, value);
      Update(pos, value);
      assert store == SimpleUpdated(H, before, numLeaf, pos, value).0;
      assert digest == SimpleUpdated(H, before, numLeaf, pos, value).1;
      var proof := GenProof(pos);
      accepted := VerifyProof(pos, value, proof);
    }
  }

  // =====================================================================
  // MerkleChild

  /** Node c's hash as its parent records it: a leaf's record is its value,
      a parent's record starts with its hash. */
  function ChildHashOf(store: map<int, string>, N: int, c: int): string {
    var r := ReadOr(store, c, "");
    if c >= N then r else r[..Min(64, |r|)]
  }

  /** Parent n's record holds child c's hash in c's slot: the left child at
      offset 64, the right at 128. */
  ghost predicate SlotOk(store: map<int, string>, N: int, n: int, c: int) {
    n in store && |store[n]| == 192
    && store[n][64 + (c % 2) * 64 .. 128 + (c % 2) * 64] == ChildHashOf(store, N, c)
  }

  /** Parent n's record is hash ++ left ++ right, with the hash over the
      pair and both slots current. */
  ghost predicate ChildNodeOk(H: Hasher, store: map<int, string>, N: int, n: int) {
    n in store && |store[n]| == 192
    && store[n][..64] == Hash(H, store[n][64..])
    && SlotOk(store, N, n, 2 * n) && SlotOk(store, N, n, 2 * n + 1)
  }

  /** Leaves hold 64 characters, parents 192. */
  ghost predicate ChildShapeOk(store: map<int, string>, N: int) {
    AllPresent(store, N)
    && (forall j :: N <= j < 2 * N ==> |store[j]| == 64)
    && (forall n :: 1 <= n < N ==> |store[n]| == 192)
  }

  /** On the path above `top`, a parent's slot for its child off the path is
      still current. */
  ghost predicate OffPathSlotsOk(store: map<int, string>, N: int, n: int, top: int) {
    (!OnPath(2 * n, top) ==> SlotOk(store, N, n, 2 * n))
    && (!OnPath(2 * n + 1, top) ==> SlotOk(store, N, n, 2 * n + 1))
  }

  ghost predicate ChildConsistentExcept(H: Hasher, store: map<int, string>, N: int, top: int) {
    ChildShapeOk(store, N)
    && (forall n {:trigger ChildNodeOk(H, store, N, n)} :: 1 <= n < N && !StrictAncestor(n, top) ==> ChildNodeOk(H, store, N, n))
    && (forall n {:trigger OffPathSlotsOk(store, N, n, top)} :: 1 <= n < N && StrictAncestor(n, top) ==> OffPathSlotsOk(store, N, n, top))
  }

  ghost predicate ChildConsistent(H: Hasher, store: map<int, string>, N: int) {
    ChildConsistentExcept(H, store, N, 1)
  }

  /** What modify_parent makes of the parent record r: its 128-character
      pair with id's slot replaced by key; None where substr or replace
      throws std::out_of_range. */
  function ReplacedPair(r: string, id: int, key: string): Option<string> {
    match Substr(r, 64, 128)
    case None => None
    case Some(pair) => Replace(pair, (id % 2) * 64, 64, key)
  }

  /** The climb of update from id with id's new hash `key`: each parent gets
      hash ++ pair written back. The flag is false once modify_parent throws;
      the store keeps what was written before. */
  function ChildPath(H: Hasher, store: map<int, string>, id: int, key: string): (map<int, string>, string, bool)
    decreases id
  {
    if id < 2 then (store, key, true)
    else
      match ReplacedPair(ReadOr(store, id / 2, ""), id, key)
      case None => (store, key, false)
      case Some(u) => ChildPath(H, store[id / 2 := Hash(H, u) + u], id / 2, Hash(H, u))
  }

  function ChildUpdated(H: Hasher, store: map<int, string>, N: int, pos: int, value: string)
    : (map<int, string>, string, bool)
  {
    ChildPath(H, store[pos + N := value], pos + N, value)
  }

  /** gen_proof: the sibling's slot of each parent record, leaf to root. The
      string keeps its previous content when a parent is missing; substr
      past the end throws. */
  function ChildProof(store: map<int, string>, id: int, prev: string): Result<string>
    decreases id
  {
    if id < 2 then Ok("")
    else
      match Substr(ReadOr(store, id / 2, prev), (2 - id % 2) * 64, 64)
      case None => Err(OutOfRange)
      case Some(s) => Prepended(s, ChildProof(store, id / 2, s))
  }

  /** The proof with `pre` in front, or the same failure. */
  function Prepended(pre: string, r: Result<string>): Result<string> {
    match r
    case Err(e) => Err(e)
    case Ok(rest) => Ok(pre + rest)
  }

  lemma {:induction false} PrependedTwice(a: string, b: string, r: Result<string>)
    ensures Prepended(a, Prepended(b, r)) == Prepended(a + b, r)
    ensures Prepended("", r) == r
  {
    if r.Ok? {
      assert a + (b + r.value) == (a + b) + r.value;
      assert "" + r.value == r.value;
    }
  }

  lemma {:induction false} ChildHashOfKept(store: map<int, string>, N: int, p: int, v: string, c: int)
    requires c != p
    ensures ChildHashOf(store[p := v], N, c) == ChildHashOf(store, N, c)
  {
    WriteKeepsOthers(store, p, v, c);
  }

  lemma {:induction false} SlotKept(store: map<int, string>, N: int, p: int, v: string, n: int, c: int)
    requires p != n && p != c && SlotOk(store, N, n, c)
    ensures SlotOk(store[p := v], N, n, c)
  {
    WriteKeepsOthers(store, p, v, n);
    ChildHashOfKept(store, N, p, v, c);
  }

  lemma {:induction false} ChildNodeKept(H: Hasher, store: map<int, string>, N: int, p: int, v: string, n: int)
    requires p != n && p != 2 * n && p != 2 * n + 1
    requires ChildNodeOk(H, store, N, n)
    ensures ChildNodeOk(H, store[p := v], N, n)
  {
    WriteKeepsOthers(store, p, v, n);
    SlotKept(store, N, p, v, n, 2 * n);
    SlotKept(store, N, p, v, n, 2 * n + 1);
  }

  /** On a well-formed record the replacement succeeds, puts key in id's
      slot and keeps the other slot. */
  lemma {:induction false} PairReplaced(r: string, id: int, key: string)
    requires |r| == 192 && id >= 0 && |key| == 64
    ensures ReplacedPair(r, id, key).Some?
    ensures var u := ReplacedPair(r, id, key).value;
      |u| == 128 && u[(id % 2) * 64 .. (id % 2) * 64 + 64] == key
      && u[(1 - id % 2) * 64 .. (1 - id % 2) * 64 + 64] == r[64 + (1 - id % 2) * 64 .. 128 + (1 - id % 2) * 64]
  {
    var t := r[64..];
    assert r[64 .. 64 + Min(128, |r| - 64)] == t;
    ReplaceBlock(t, (id % 2) * 64, key);
  }

  /** modify_parent on a parent whose other slot is current writes a
      consistent parent whose hash is the new key. */
  lemma {:induction false} ChildParentRepaired(H: Hasher, store: map<int, string>, N: int, id: int, key: string, u: string)
    requires N >= 1 && 2 <= id < 2 * N
    requires id / 2 in store && |store[id / 2]| == 192
    requires SlotOk(store, N, id / 2, SiblingId(id))
    requires ChildHashOf(store, N, id) == key && |key| == 64
    requires ReplacedPair(store[id / 2], id, key) == Some(u)
    ensures ChildNodeOk(H, store[id / 2 := Hash(H, u) + u], N, id / 2)
    ensures ChildHashOf(store[id / 2 := Hash(H, u) + u], N, id / 2) == Hash(H, u)
  {
    var p := id / 2;
    var v := Hash(H, u) + u;
    RepairedSlots(H, store, N, id, key, u);
    assert v[64..] == u;
    SiblingFlipsLowestBit(id);
    if id % 2 == 0 {
      assert SiblingId(id) == 2 * p + 1;
    } else {
      assert SiblingId(id) == 2 * p;
    }
  }

  /** Both slots of the rewritten parent are current. */
  lemma {:induction false} RepairedSlots(H: Hasher, store: map<int, string>, N: int, id: int, key: string, u: string)
    requires N >= 1 && 2 <= id < 2 * N
    requires id / 2 in store && |store[id / 2]| == 192
    requires SlotOk(store, N, id / 2, SiblingId(id))
    requires ChildHashOf(store, N, id) == key && |key| == 64
    requires ReplacedPair(store[id / 2], id, key) == Some(u)
    ensures SlotOk(store[id / 2 := Hash(H, u) + u], N, id / 2, id)
    ensures SlotOk(store[id / 2 := Hash(H, u) + u], N, id / 2, SiblingId(id))
  {
    SiblingFlipsLowestBit(id);
    PairReplaced(store[id / 2], id, key);
    ChildHashOfKept(store, N, id / 2, Hash(H, u) + u, id);
    ChildHashOfKept(store, N, id / 2, Hash(H, u) + u, SiblingId(id));
    RecordSlot(Hash(H, u), u, id % 2);
    RecordSlot(Hash(H, u), u, 1 - id % 2);
  }

  /** Slot b of a parent record hash ++ pair is block b of the pair. */
  lemma {:induction false} RecordSlot(h: string, u: string, b: int)
    requires |h| == 64 && |u| == 128 && 0 <= b <= 1
    ensures (h + u)[64 + b * 64 .. 128 + b * 64] == u[b * 64 .. b * 64 + 64]
  {
    var v := h + u;
    var x, y := v[64 + b * 64 .. 128 + b * 64], u[b * 64 .. b * 64 + 64];
    assert forall k :: 0 <= k < 64 ==> x[k] == y[k];
  }

  /** A node's hash as recorded is 64 characters in a well-shaped store. */
  lemma {:induction false} ChildHashLength(store: map<int, string>, N: int, c: int)
    requires 1 <= c < 2 * N && ChildShapeOk(store, N)
    ensures |ChildHashOf(store, N, c)| == 64
  {
  }

  /** Parents off the new path keep their records whole. */
  lemma {:induction false} ChildStepKeeps(H: Hasher, store: map<int, string>, N: int, id: int, v: string, n: int)
    requires N >= 1 && 2 <= id < 2 * N && 1 <= n < N && n != id / 2 && !StrictAncestor(n, id / 2)
    requires ChildConsistentExcept(H, store, N, id)
    ensures ChildNodeOk(H, store[id / 2 := v], N, n)
  {
    var p := id / 2;
    assert !StrictAncestor(n, id);
    assert p != 2 * n && p != 2 * n + 1;
    ChildNodeKept(H, store, N, p, v, n);
  }

  /** Being on the path above id means being id or on the path above its
      parent. */
  lemma {:induction false} OnPathStep(c: int, id: int)
    requires id >= 2
    ensures OnPath(c, id) <==> c == id || OnPath(c, id / 2)
  {
  }

  /** Parents above the new path keep their off-path slots. */
  lemma {:induction false} ChildStepSlots(H: Hasher, store: map<int, string>, N: int, id: int, v: string, n: int)
    requires N >= 1 && 2 <= id < 2 * N && 1 <= n < N && StrictAncestor(n, id / 2)
    requires ChildConsistentExcept(H, store, N, id)
    ensures OffPathSlotsOk(store[id / 2 := v], N, n, id / 2)
  {
    var p := id / 2;
    AncestorIsSmaller(n, p);
    assert StrictAncestor(n, id);
    assert OffPathSlotsOk(store, N, n, id);
    OnPathStep(2 * n, id);
    OnPathStep(2 * n + 1, id);
    if !OnPath(2 * n, p) {
      assert SlotOk(store, N, n, 2 * n);
      SlotKept(store, N, p, v, n, 2 * n);
    }
    if !OnPath(2 * n + 1, p) {
      assert SlotOk(store, N, n, 2 * n + 1);
      SlotKept(store, N, p, v, n, 2 * n + 1);
    }
  }

  /** The sibling of id is not on the path above id. */
  lemma {:induction false} SiblingOffPath(id: int)
    requires id >= 2
    ensures !OnPath(SiblingId(id), id)
  {
    var sib := SiblingId(id);
    SiblingFlipsLowestBit(id);
    if StrictAncestor(sib, id) {
      AncestorIsSmaller(sib, id);
    }
  }

  /** Above a stale id, the parent's slot for id's sibling is current. */
  lemma {:induction false} ChildSiblingSlot(H: Hasher, store: map<int, string>, N: int, id: int)
    requires N >= 1 && 2 <= id < 2 * N
    requires ChildConsistentExcept(H, store, N, id)
    ensures id / 2 in store && |store[id / 2]| == 192
    ensures SlotOk(store, N, id / 2, SiblingId(id))
  {
    var p := id / 2;
    var sib := SiblingId(id);
    SiblingFlipsLowestBit(id);
    SiblingOffPath(id);
    assert StrictAncestor(p, id);
    assert 1 <= p < N;
    assert OffPathSlotsOk(store, N, p, id);
    assert sib == 2 * p || sib == 2 * p + 1;
  }

  /** After the step, every parent is either whole or keeps its off-path
      slots. */
  lemma {:induction false} ChildStepRest(H: Hasher, store: map<int, string>, N: int, id: int, u: string)
    requires N >= 1 && 2 <= id < 2 * N && |u| == 128
    requires ChildConsistentExcept(H, store, N, id)
    requires ChildNodeOk(H, store[id / 2 := Hash(H, u) + u], N, id / 2)
    ensures ChildConsistentExcept(H, store[id / 2 := Hash(H, u) + u], N, id / 2)
  {
    var p := id / 2;
    var v := Hash(H, u) + u;
    var st := store[p := v];
    forall n | 1 <= n < N && !StrictAncestor(n, p)
      ensures ChildNodeOk(H, st, N, n)
    {
      if n != p {
        ChildStepKeeps(H, store, N, id, v, n);
      }
    }
    forall n | 1 <= n < N && StrictAncestor(n, p)
      ensures OffPathSlotsOk(st, N, n, p)
    {
      ChildStepSlots(H, store, N, id, v, n);
    }
  }

  /** One modify_parent step moves the stale mark from id to its parent. */
  lemma {:induction false} ChildStep(H: Hasher, store: map<int, string>, N: int, id: int, key: string)
    requires N >= 1 && 2 <= id < 2 * N
    requires ChildConsistentExcept(H, store, N, id)
    requires ChildHashOf(store, N, id) == key
    ensures ReplacedPair(ReadOr(store, id / 2, ""), id, key).Some?
    ensures var u := ReplacedPair(ReadOr(store, id / 2, ""), id, key).value;
      ChildConsistentExcept(H, store[id / 2 := Hash(H, u) + u], N, id / 2)
      && ChildHashOf(store[id / 2 := Hash(H, u) + u], N, id / 2) == Hash(H, u)
  {
    ChildHashLength(store, N, id);
    ChildSiblingSlot(H, store, N, id);
    var r := store[id / 2];
    PairReplaced(r, id, key);
    var u := ReplacedPair(r, id, key).value;
    ChildParentRepaired(H, store, N, id, key, u);
    ChildStepRest(H, store, N, id, u);
  }

  /** The climb from id writes only ancestors of id. */
  lemma {:induction false} ChildPathKeeps(H: Hasher, store: map<int, string>, id: int, key: string, j: int)
    requires !StrictAncestor(j, id)
    ensures SameRecord(ChildPath(H, store, id, key).0, store, j)
    decreases id
  {
    if id >= 2 {
      match ReplacedPair(ReadOr(store, id / 2, ""), id, key)
      case None =>
      case Some(u) =>
        ChildPathKeeps(H, store[id / 2 := Hash(H, u) + u], id / 2, Hash(H, u), j);
        WriteKeepsOthers(store, id / 2, Hash(H, u) + u, j);
    }
  }

  /** The climb from a stale-above-id store does not throw and ends
      consistent, with the root's hash returned. */
  lemma {:induction false} ChildPathRepairs(H: Hasher, store: map<int, string>, N: int, id: int, key: string)
    requires N >= 1 && 1 <= id < 2 * N
    requires ChildConsistentExcept(H, store, N, id)
    requires ChildHashOf(store, N, id) == key
    ensures ChildPath(H, store, id, key).2
    ensures ChildConsistent(H, ChildPath(H, store, id, key).0, N)
    ensures ChildHashOf(ChildPath(H, store, id, key).0, N, 1) == ChildPath(H, store, id, key).1
    decreases id
  {
    if id >= 2 {
      ChildStep(H, store, N, id, key);
      var u := ReplacedPair(ReadOr(store, id / 2, ""), id, key).value;
      ChildPathRepairs(H, store[id / 2 := Hash(H, u) + u], N, id / 2, Hash(H, u));
    }
  }

  /** Writing a 64-character leaf leaves every slot off its path current. */
  lemma {:induction false} ChildLeafWrite(H: Hasher, store: map<int, string>, N: int, leaf: int, value: string)
    requires N >= 1 && N <= leaf < 2 * N && |value| == 64
    requires ChildConsistent(H, store, N)
    ensures ChildConsistentExcept(H, store[leaf := value], N, leaf)
    ensures ChildHashOf(store[leaf := value], N, leaf) == value
  {
    var st := store[leaf := value];
    forall n | 1 <= n < N && !StrictAncestor(n, leaf)
      ensures ChildNodeOk(H, st, N, n)
    {
      assert ChildNodeOk(H, store, N, n);
      assert leaf != 2 * n && leaf != 2 * n + 1;
      ChildNodeKept(H, store, N, leaf, value, n);
    }
    forall n | 1 <= n < N && StrictAncestor(n, leaf)
      ensures OffPathSlotsOk(st, N, n, leaf)
    {
      assert ChildNodeOk(H, store, N, n);
      AncestorIsSmaller(n, leaf);
      if !OnPath(2 * n, leaf) {
        SlotKept(store, N, leaf, value, n, 2 * n);
      }
      if !OnPath(2 * n + 1, leaf) {
        SlotKept(store, N, leaf, value, n, 2 * n + 1);
      }
    }
  }

  /** update of a 64-character value keeps the tree consistent and does not
      throw: the leaf holds the value and the returned digest is the root's
      hash. */
  lemma {:induction false} ChildUpdateSound(H: Hasher, store: map<int, string>, N: int, pos: int, value: string)
    requires N >= 1 && 0 <= pos < N && |value| == 64
    requires ChildConsistent(H, store, N)
    ensures var r := ChildUpdated(H, store, N, pos, value);
      r.2 && ChildConsistent(H, r.0, N) && ChildHashOf(r.0, N, 1) == r.1 && r.0[pos + N] == value
  {
    var leaf := pos + N;
    ChildLeafWrite(H, store, N, leaf, value);
    ChildPathRepairs(H, store[leaf := value], N, leaf, value);
    if StrictAncestor(leaf, leaf) {
      AncestorIsSmaller(leaf, leaf);
    }
    ChildPathKeeps(H, store[leaf := value], leaf, value, leaf);
  }

  /** In a consistent store a parent's record holds the sibling's hash where
      get_sibling cuts it, and hashing in verify_proof's order gives the
      parent's hash. */
  lemma {:induction false} ChildSibling(H: Hasher, store: map<int, string>, N: int, id: int)
    requires N >= 1 && 2 <= id < 2 * N
    requires ChildConsistent(H, store, N)
    ensures Substr(ReadOr(store, id / 2, ""), (2 - id % 2) * 64, 64) == Some(ChildHashOf(store, N, SiblingId(id)))
    ensures |ChildHashOf(store, N, SiblingId(id))| == 64
    ensures Combine(H, id, ChildHashOf(store, N, id), ChildHashOf(store, N, SiblingId(id))) == ChildHashOf(store, N, id / 2)
  {
    SiblingFlipsLowestBit(id);
    if id % 2 == 0 {
      EvenChild(H, store, N, id);
    } else {
      OddChild(H, store, N, id);
    }
  }

  /** ChildSibling for an even id, the left child of its parent. */
  lemma {:induction false} EvenChild(H: Hasher, store: map<int, string>, N: int, id: int)
    requires N >= 1 && 2 <= id < 2 * N && id % 2 == 0 && SiblingId(id) == id + 1
    requires ChildConsistent(H, store, N)
    ensures Substr(ReadOr(store, id / 2, ""), (2 - id % 2) * 64, 64) == Some(ChildHashOf(store, N, SiblingId(id)))
    ensures |ChildHashOf(store, N, SiblingId(id))| == 64
    ensures Combine(H, id, ChildHashOf(store, N, id), ChildHashOf(store, N, SiblingId(id))) == ChildHashOf(store, N, id / 2)
  {
    var p := id / 2;
    assert id == 2 * p && 1 <= p < N;
    assert ChildNodeOk(H, store, N, p);
    LeftChild(H, store, N, p);
  }

  /** ChildSibling for an odd id, the right child of its parent. */
  lemma {:induction false} OddChild(H: Hasher, store: map<int, string>, N: int, id: int)
    requires N >= 1 && 2 <= id < 2 * N && id % 2 == 1 && SiblingId(id) == id - 1
    requires ChildConsistent(H, store, N)
    ensures Substr(ReadOr(store, id / 2, ""), (2 - id % 2) * 64, 64) == Some(ChildHashOf(store, N, SiblingId(id)))
    ensures |ChildHashOf(store, N, SiblingId(id))| == 64
    ensures Combine(H, id, ChildHashOf(store, N, id), ChildHashOf(store, N, SiblingId(id))) == ChildHashOf(store, N, id / 2)
  {
    var p := id / 2;
    assert id == 2 * p + 1 && 1 <= p < N;
    assert ChildNodeOk(H, store, N, p);
    RightChild(H, store, N, p);
  }

  /** A left child's sibling sits in its parent's second slot. */
  lemma {:induction false} LeftChild(H: Hasher, store: map<int, string>, N: int, p: int)
    requires 1 <= p < N && ChildNodeOk(H, store, N, p)
    ensures Substr(ReadOr(store, p, ""), 128, 64) == Some(ChildHashOf(store, N, 2 * p + 1))
    ensures |ChildHashOf(store, N, 2 * p + 1)| == 64
    ensures Combine(H, 2 * p, ChildHashOf(store, N, 2 * p), ChildHashOf(store, N, 2 * p + 1)) == ChildHashOf(store, N, p)
  {
    ParentRecord(H, store, N, p);
  }

  /** A right child's sibling sits in its parent's first slot. */
  lemma {:induction false} RightChild(H: Hasher, store: map<int, string>, N: int, p: int)
    requires 1 <= p < N && ChildNodeOk(H, store, N, p)
    ensures Substr(ReadOr(store, p, ""), 64, 64) == Some(ChildHashOf(store, N, 2 * p))
    ensures |ChildHashOf(store, N, 2 * p)| == 64
    ensures Combine(H, 2 * p + 1, ChildHashOf(store, N, 2 * p + 1), ChildHashOf(store, N, 2 * p)) == ChildHashOf(store, N, p)
  {
    ParentRecord(H, store, N, p);
  }

  /** A whole parent record: its hash over the pair, and each child's hash
      where get_sibling cuts it. */
  lemma {:induction false} ParentRecord(H: Hasher, store: map<int, string>, N: int, p: int)
    requires 1 <= p < N && ChildNodeOk(H, store, N, p)
    ensures var r := store[p];
      && Substr(r, 64, 64) == Some(ChildHashOf(store, N, 2 * p))
      && Substr(r, 128, 64) == Some(ChildHashOf(store, N, 2 * p + 1))
      && |ChildHashOf(store, N, 2 * p)| == 64 && |ChildHashOf(store, N, 2 * p + 1)| == 64
      && ChildHashOf(store, N, p) == Hash(H, ChildHashOf(store, N, 2 * p) + ChildHashOf(store, N, 2 * p + 1))
  {
    var r := store[p];
    assert SlotOk(store, N, p, 2 * p) && SlotOk(store, N, p, 2 * p + 1);
    assert r[64..128] + r[128..192] == r[64..];
  }

  /** gen_proof on a consistent tree does not throw and verifies: folding it
      from id's hash ends at the root's hash. */
  lemma {:induction false} ChildProofVerifies(H: Hasher, store: map<int, string>, N: int, id: int,
                                              prev: string, pre: string)
    requires N >= 1 && 1 <= id < 2 * N
    requires ChildConsistent(H, store, N)
    ensures ChildProof(store, id, prev).Ok?
    ensures VerifyFold(H, id, |pre|, ChildHashOf(store, N, id), pre + ChildProof(store, id, prev).value)
         == Ok(ChildHashOf(store, N, 1))
    decreases id
  {
    if id >= 2 {
      var s := ChildHashOf(store, N, SiblingId(id));
      ChildProofVerifies(H, store, N, id / 2, s, pre + s);
      ChildProofStep(H, store, N, id, prev, pre);
    }
  }

  /** One level of gen_proof read back by verify_proof: the sibling's hash
      comes first, and combining with it gives the parent's hash. */
  lemma {:induction false} ChildProofStep(H: Hasher, store: map<int, string>, N: int, id: int, prev: string, pre: string)
    requires N >= 1 && 2 <= id < 2 * N
    requires ChildConsistent(H, store, N)
    requires var s := ChildHashOf(store, N, SiblingId(id));
      ChildProof(store, id / 2, s).Ok?
      && VerifyFold(H, id / 2, |pre + s|, ChildHashOf(store, N, id / 2), pre + s + ChildProof(store, id / 2, s).value)
         == Ok(ChildHashOf(store, N, 1))
    ensures ChildProof(store, id, prev).Ok?
    ensures VerifyFold(H, id, |pre|, ChildHashOf(store, N, id), pre + ChildProof(store, id, prev).value)
         == Ok(ChildHashOf(store, N, 1))
  {
    ChildSibling(H, store, N, id);
    var s := ChildHashOf(store, N, SiblingId(id));
    ChildProofCons(store, id, prev, s);
    FoldCons(H, id, pre, ChildHashOf(store, N, id), s, ChildProof(store, id / 2, s).value, ChildHashOf(store, N, 1));
  }

  /** gen_proof at id is the sibling's chunk, then gen_proof at the parent. */
  lemma {:induction false} ChildProofCons(store: map<int, string>, id: int, prev: string, s: string)
    requires id >= 2 && Substr(ReadOr(store, id / 2, ""), (2 - id % 2) * 64, 64) == Some(s)
    requires id / 2 in store && ChildProof(store, id / 2, s).Ok?
    ensures ChildProof(store, id, prev) == Ok(s + ChildProof(store, id / 2, s).value)
  {
    assert ReadOr(store, id / 2, prev) == ReadOr(store, id / 2, "");
  }

  /** verify_proof's first step: combine with the chunk after `pre`, then go
      on from the parent. */
  lemma {:induction false} FoldCons(H: Hasher, id: int, pre: string, key: string, s: string, rest: string, root: string)
    requires id >= 2 && |s| == 64
    requires VerifyFold(H, id / 2, |pre + s|, Combine(H, id, key, s), pre + s + rest) == Ok(root)
    ensures VerifyFold(H, id, |pre|, key, pre + (s + rest)) == Ok(root)
  {
    assert pre + (s + rest) == pre + s + rest;
    ChildChunkAt(pre, s, rest);
  }

  lemma {:induction false} ChildChunkAt(pre: string, s: string, rest: string)
    requires |s| == 64
    ensures Substr(pre + s + rest, |pre|, 64) == Some(s)
  {
    ChunkAt(pre, s, rest);
  }

  /** gen_proof on a consistent tree gives one 64-character chunk per level. */
  lemma {:induction false} ChildProofLength(H: Hasher, store: map<int, string>, N: int, id: int, prev: string)
    requires N >= 1 && 1 <= id < 2 * N
    requires ChildConsistent(H, store, N)
    ensures ChildProof(store, id, prev).Ok? && |ChildProof(store, id, prev).value| == 64 * Steps(id)
    decreases id
  {
    if id >= 2 {
      ChildSibling(H, store, N, id);
      ChildProofLength(H, store, N, id / 2, ChildHashOf(store, N, SiblingId(id)));
    }
  }

  /** After update(pos, value), verify_proof(pos, value, gen_proof(pos))
      accepts against the new digest. */
  lemma {:induction false} ChildRoundTrip(H: Hasher, store: map<int, string>, N: int, pos: int, value: string)
    requires N >= 1 && 0 <= pos < N && |value| == 64
    requires ChildConsistent(H, store, N)
    ensures var r := ChildUpdated(H, store, N, pos, value);
      ChildProof(r.0, pos + N, "").Ok?
      && VerifyFold(H, pos + N, 0, value, ChildProof(r.0, pos + N, "").value) == Ok(r.1)
  {
    var r := ChildUpdated(H, store, N, pos, value);
    ChildUpdateSound(H, store, N, pos, value);
    ChildProofVerifies(H, r.0, N, pos + N, "", "");
    assert "" + ChildProof(r.0, pos + N, "").value == ChildProof(r.0, pos + N, "").value;
  }

  /** A tree hash over 64-character values is 64 characters. */
  lemma {:induction false} TreeHashLength(H: Hasher, values: seq<string>, N: int, id: int)
    requires 1 <= id < 2 * N && |values| == N
    requires forall i :: 0 <= i < N ==> |values[i]| == 64
    ensures |TreeHash(H, values, N, id)| == 64
  {
  }

  /** A store holding every node's record with children is consistent. */
  lemma {:induction false} ChildRecordsConsistent(H: Hasher, values: seq<string>, N: int, st: map<int, string>)
    requires N >= 1 && |values| == N
    requires forall i :: 0 <= i < N ==> |values[i]| == 64
    requires forall j :: 1 <= j < 2 * N ==> j in st && st[j] == Record(H, values, N, j, true)
    ensures ChildConsistent(H, st, N)
  {
    forall c | 1 <= c < 2 * N
      ensures |st[c]| == (if c < N then 192 else 64)
    {
      ChildGenRecord(H, values, N, st, c);
    }
    forall n | 1 <= n < N
      ensures ChildNodeOk(H, st, N, n)
    {
      assert 2 * n + 1 < 2 * N;
      ChildGenRecord(H, values, N, st, n);
      ChildGenRecord(H, values, N, st, 2 * n);
      ChildGenRecord(H, values, N, st, 2 * n + 1);
      ChildGenNodeOk(H, values, N, st, n);
    }
  }

  lemma {:induction false} ChildGenNodeOk(H: Hasher, values: seq<string>, N: int, st: map<int, string>, n: int)
    requires N >= 1 && |values| == N && 1 <= n < N
    requires |TreeHash(H, values, N, n)| == 64
    requires |TreeHash(H, values, N, 2 * n)| == 64 && |TreeHash(H, values, N, 2 * n + 1)| == 64
    requires n in st && st[n] == Record(H, values, N, n, true)
    requires 2 * n in st && st[2 * n] == Record(H, values, N, 2 * n, true)
    requires 2 * n + 1 in st && st[2 * n + 1] == Record(H, values, N, 2 * n + 1, true)
    ensures ChildNodeOk(H, st, N, n)
  {
    var r := st[n];
    assert r[64..] == TreeHash(H, values, N, 2 * n) + TreeHash(H, values, N, 2 * n + 1);
    ChildGenSlot(H, values, N, st, n, 2 * n);
    ChildGenSlot(H, values, N, st, n, 2 * n + 1);
  }

  /** A parent's record with children holds each child's hash in its slot. */
  lemma {:induction false} ChildGenSlot(H: Hasher, values: seq<string>, N: int, st: map<int, string>, n: int, c: int)
    requires N >= 1 && |values| == N && 1 <= n < N && (c == 2 * n || c == 2 * n + 1)
    requires |TreeHash(H, values, N, n)| == 64
    requires |TreeHash(H, values, N, 2 * n)| == 64 && |TreeHash(H, values, N, 2 * n + 1)| == 64
    requires n in st && st[n] == Record(H, values, N, n, true)
    requires c in st && st[c] == Record(H, values, N, c, true)
    ensures SlotOk(st, N, n, c)
  {
    ChildGenHash(H, values, N, st, c);
    var r := st[n];
    if c == 2 * n {
      assert c % 2 == 0;
      assert r[64..128] == TreeHash(H, values, N, c);
    } else {
      assert c % 2 == 1;
      assert r[128..192] == TreeHash(H, values, N, c);
    }
  }

  /** A node's record with children starts with its hash. */
  lemma {:induction false} ChildGenHash(H: Hasher, values: seq<string>, N: int, st: map<int, string>, c: int)
    requires N >= 1 && |values| == N && 1 <= c < 2 * N
    requires |TreeHash(H, values, N, c)| == 64
    requires c in st && st[c] == Record(H, values, N, c, true)
    ensures ChildHashOf(st, N, c) == TreeHash(H, values, N, c)
  {
  }

  /** gen_node(1) over 64-character values builds a consistent tree whose
      root hash is the tree hash. */
  lemma {:induction false} ChildGenConsistent(H: Hasher, values: seq<string>, N: int, store: map<int, string>)
    requires N >= 1 && |values| == N
    requires forall i :: 0 <= i < N ==> |values[i]| == 64
    ensures ChildConsistent(H, Gen(N, 1, store, Records(H, values, N, true)), N)
    ensures ChildHashOf(Gen(N, 1, store, Records(H, values, N, true)), N, 1) == TreeHash(H, values, N, 1)
  {
    var recs := Records(H, values, N, true);
    GenWritesAll(N, store, recs);
    ChildRecordsConsistent(H, values, N, Gen(N, 1, store, recs));
    ChildGenRecord(H, values, N, Gen(N, 1, store, recs), 1);
    ChildGenHash(H, values, N, Gen(N, 1, store, recs), 1);
  }

  /** What gen_node wrote for one node: a parent's record with children
      is 192 characters, a leaf's its 64-character value. */
  lemma {:induction false} ChildGenRecord(H: Hasher, values: seq<string>, N: int, st: map<int, string>, c: int)
    requires N >= 1 && |values| == N && 1 <= c < 2 * N
    requires forall i :: 0 <= i < N ==> |values[i]| == 64
    requires c in st && st[c] == Record(H, values, N, c, true)
    ensures |st[c]| == (if c < N then 192 else 64)
    ensures |TreeHash(H, values, N, c)| == 64
  {
    TreeHashLength(H, values, N, c);
    if c < N {
      TreeHashLength(H, values, N, 2 * c);
      TreeHashLength(H, values, N, 2 * c + 1);
    }
  }

  /** The node gen_node builds over two children with the right hashes
      carries the tree hash and writes the record with children. */
  lemma {:induction false} ChildParentRecord(H: Hasher, values: seq<string>, N: int, id: int, l: NodeChild, r: NodeChild)
    requires 1 <= id < N && |values| == N
    requires l.hashVal == TreeHash(H, values, N, 2 * id) && r.hashVal == TreeHash(H, values, N, 2 * id + 1)
    ensures ChildParent(H, l, r).GetHashVal() == TreeHash(H, values, N, id)
    ensures ChildParent(H, l, r).ToString() == Records(H, values, N, true)[id]
  {
  }

  lemma {:induction false} ChildLeafRecord(H: Hasher, values: seq<string>, N: int, id: int)
    requires N <= id < 2 * N && |values| == N
    ensures ChildLeaf(values[id - N]).GetHashVal() == TreeHash(H, values, N, id)
    ensures ChildLeaf(values[id - N]).ToString() == Records(H, values, N, true)[id]
  {
  }

  /** gen_node at a leaf. */
  lemma {:induction false} ChildGenLeaf(H: Hasher, values: seq<string>, N: int, id: int, s0: map<int, string>)
    requires N <= id < 2 * N && |values| == N
    ensures ChildLeaf(values[id - N]).GetHashVal() == TreeHash(H, values, N, id)
    ensures s0[id := ChildLeaf(values[id - N]).ToString()] == Gen(N, id, s0, Records(H, values, N, true))
  {
    ChildLeafRecord(H, values, N, id);
  }

  /** gen_node at a parent, given both subtrees generated. */
  lemma {:induction false} ChildGenStep(H: Hasher, values: seq<string>, N: int, id: int, l: NodeChild, r: NodeChild, s0: map<int, string>, m1: map<int, string>, mid: map<int, string>)
    requires 1 <= id < N && |values| == N
    requires l.hashVal == TreeHash(H, values, N, 2 * id) && r.hashVal == TreeHash(H, values, N, 2 * id + 1)
    requires m1 == Gen(N, 2 * id, s0, Records(H, values, N, true))
    requires mid == Gen(N, 2 * id + 1, m1, Records(H, values, N, true))
    ensures ChildParent(H, l, r).GetHashVal() == TreeHash(H, values, N, id)
    ensures mid[id := ChildParent(H, l, r).ToString()] == Gen(N, id, s0, Records(H, values, N, true))
  {
    ChildParentRecord(H, values, N, id, l, r);
    GenParentStep(N, id, s0, Records(H, values, N, true), mid, ChildParent(H, l, r).ToString());
  }

  class MerkleChild {
    const H: Hasher
    const height: nat
    const numLeaf: nat
    var digest: string
    /** What the tree's IO holds (its Contents). */
    var store: map<int, string>

    ghost predicate Valid()
      reads this
    {
      numLeaf >= 1 && ChildConsistent(H, store, numLeaf) && digest == ChildHashOf(store, numLeaf, 1)
    }

    constructor (H: Hasher, height: nat)
      ensures this.H == H && this.height == height && numLeaf == NumLeaf(height)
      ensures digest == "" && store == map[]
    {
      this.H := H;
      this.height := height;
      numLeaf := NumLeaf(height);
      digest := "";
      store := map[];
    }

    method GenNode(id: int, values: seq<string>) returns (node: NodeChild)
      requires 1 <= id < 2 * numLeaf && |values| == numLeaf
      modifies this`store
      ensures node.Valid() && node.GetHashVal() == TreeHash(H, values, numLeaf, id)
      ensures store == Gen(numLeaf, id, old(store), Records(H, values, numLeaf, true))
      decreases 2 * numLeaf - id
    {
      if id >= numLeaf {
        node := ChildLeaf(values[id - numLeaf]);
        ChildGenLeaf(H, values, numLeaf, id, store);
        store := store[id := node.ToString()];
        return;
      }
      ghost var s0 := store;
      var left := GenNode(id * 2, values);
      ghost var m1 := store;
      var right := GenNode(id * 2 + 1, values);
      node := ChildParent(H, left, right);
      ChildGenStep(H, values, numLeaf, id, left, right, s0, m1, store);
      store := store[id := node.ToString()];
    }

    /** init as for MerkleSimple; the trees differ only in what a record
        holds. */
    method Init(values: seq<string>, dbOpened: bool, createDb: bool) returns (ok: bool)
      requires numLeaf >= 1 && (createDb ==> |values| == numLeaf)
      modifies this`store, this`digest
      ensures ok == dbOpened
      ensures !(ok && createDb) ==> store == map[] && digest == old(digest)
      ensures ok && createDb ==> store == Gen(numLeaf, 1, map[], Records(H, values, numLeaf, true))
      ensures ok && createDb ==> digest == TreeHash(H, values, numLeaf, 1)
      ensures ok && createDb && (forall i :: 0 <= i < numLeaf ==> |values[i]| == 64) ==> Valid()
    {
      store := map[];
      if !dbOpened {
        return false;
      }
      if createDb {
        var root := GenNode(1, values);
        digest := root.GetHashVal();
        if forall i :: 0 <= i < numLeaf ==> |values[i]| == 64 {
          ChildGenConsistent(H, values, numLeaf, map[]);
        }
      } else {
        // io->read("1", digest) finds nothing, as in MerkleSimple.Init.
        digest := ChildLeaf(digest).GetHashVal();
      }
      return true;
    }

    /** get_sibling: the sibling's slot of the parent's record; the string
        keeps its previous content when the parent is missing. */
    function GetSibling(id: int, s: string): Option<string>
      reads this
    {
      Substr(ReadOr(store, id / 2, s), (2 - id % 2) * 64, 64)
    }

    /** modify_parent: replace id's slot of the parent's pair with key and
        write hash ++ pair; false where substr or replace throws. */
    method ModifyParent(id: int, key: string) returns (ok: bool, newKey: string)
      modifies this`store
      ensures ok == ReplacedPair(ReadOr(old(store), id / 2, ""), id, key).Some?
      ensures !ok ==> store == old(store) && newKey == key
      ensures ok ==> var u := ReplacedPair(ReadOr(old(store), id / 2, ""), id, key).value;
        newKey == Hash(H, u) && store == old(store)[id / 2 := Hash(H, u) + u]
    {
      var s := ReadOr(store, id / 2, "");
      var pair := Substr(s, 64, 128);
      if pair.None? {
        return false, key;
      }
      var u := Replace(pair.value, (id % 2) * 64, 64, key);
      if u.None? {
        return false, key;
      }
      newKey := Hash(H, u.value);
      store := store[id / 2 := newKey + u.value];
      ok := true;
    }

    /** update; ok is false where modify_parent threw, and then the digest
        is left as it was. */
    method Update(pos: int, value: string) returns (ok: bool)
      modifies this`store, this`digest
      ensures store == ChildUpdated(H, old(store), numLeaf, pos, value).0
      ensures ok == ChildUpdated(H, old(store), numLeaf, pos, value).2
      ensures digest == if ok then ChildUpdated(H, old(store), numLeaf, pos, value).1 else old(digest)
      ensures old(Valid()) && 0 <= pos < numLeaf && |value| == 64 ==> ok && Valid() && store[pos + numLeaf] == value
    {
      var key := value;
      store := store[pos + numLeaf := key];
      var id := pos + numLeaf;
      ok := true;
      while id >= 2 && ok
        invariant ok ==> ChildPath(H, store, id, key) == ChildUpdated(H, old(store), numLeaf, pos, value)
        invariant !ok ==> store == ChildUpdated(H, old(store), numLeaf, pos, value).0
        invariant !ok ==> !ChildUpdated(H, old(store), numLeaf, pos, value).2
        invariant digest == old(digest)
        decreases id, if ok then 1 else 0
      {
        ok, key := ModifyParent(id, key);
        if ok {
          id := id / 2;
        }
      }
      if ok {
        digest := key;
      }
      if old(Valid()) && 0 <= pos < numLeaf && |value| == 64 {
        ChildUpdateSound(H, old(store), numLeaf, pos, value);
      }
    }

    method GenProof(pos: int) returns (output: Result<string>)
      ensures output == ChildProof(store, pos + numLeaf, "")
    {
      var s := "";
      var acc := "";
      var id := pos + numLeaf;
      PrependedTwice("", "", ChildProof(store, id, s));
      while id >= 2
        invariant Prepended(acc, ChildProof(store, id, s)) == ChildProof(store, pos + numLeaf, "")
        decreases id
      {
        var sib := GetSibling(id, s);
        if sib.None? {
          return Err(OutOfRange);
        }
        PrependedTwice(acc, sib.value, ChildProof(store, id / 2, sib.value));
        s := sib.value;
        acc := acc + s;
        id := id / 2;
      }
      output := Ok(acc);
      assert acc + "" == acc;
    }

    method VerifyProof(pos: int, value: string, proof: string) returns (r: Result<bool>)
      ensures r.Ok? <==> VerifyFold(H, pos + numLeaf, 0, value, proof).Ok?
      ensures r.Ok? ==> (r.value <==> VerifyFold(H, pos + numLeaf, 0, value, proof).value == digest)
    {
      r := MemChecker.VerifyProof(H, numLeaf, digest, pos, value, proof);
    }

    /** The benchmark's self-test: update, prove, verify. */
    method UpdateThenVerify(pos: int, value: string) returns (accepted: Result<bool>)
      requires Valid() && 0 <= pos < numLeaf && |value| == 64
      modifies this`store, this`digest
      ensures Valid() && accepted == Ok(true)
    {
      ghost var r := ChildUpdated(H, store, numLeaf, pos, value);
      ChildRoundTrip(H, store, numLeaf, pos, value);
      var ok := Update(pos, value);
      assert ok && store == r.0 && digest == r.1;
      var proof := GenProof(pos);
      assert proof == ChildProof(r.0, pos + numLeaf, "");
      accepted := VerifyProof(pos, value, proof.value);
    }
  }
}
