// The RatTree object (rattree.hpp): the store and digest it keeps, the
// updates waiting for commit, and commit, gen_proof and verify_proof over
// them.
module RatTrees {
  import opened Results
  import opened Tools
  import opened IO
  import opened Proof16
  import opened Rat = RatTree
  import opened RatLookup

  class RatTree {
    const H: Hasher
    /** The records stored through io, under their hashes. */
    var store: map<string, string>
    var digest: string
    var height: int
    /** Updates awaiting commit, in order. */
    var list: seq<(string, string)>
    /** Set once a write has replaced a record by a different one: a leaf's
        hash covers its value and not its prefix, so two leaves with equal
        values share a record. */
    ghost var overwrote: bool

    /** The store is sealed and every pending key is a hex position. */
    ghost predicate Valid()
      reads this
    {
      Sealed(H, store) && forall i :: 0 <= i < |list| ==> IsUpperHex(list[i].0)
    }

    constructor(H: Hasher, height: int)
      ensures this.H == H && this.height == height && digest == "" && store == map[] && list == []
      ensures Valid()
    {
      this.H := H;
      this.height := height;
      digest := "";
      store := map[];
      list := [];
    }

    /** init: with a new database, the digest is the empty root's hash and
        its record is written; without one, nothing is read. */
    method Init(dbOpened: bool, createDb: bool) returns (ok: bool)
      modifies this`store, this`digest
      ensures ok == dbOpened
      ensures ok && createDb ==> digest == Hash(H, "") && store == map[digest := EmptyRoot]
      ensures !(ok && createDb) ==> store == map[] && digest == old(digest)
      ensures list == old(list) && (old(Valid()) ==> Valid())
      ensures ok && createDb ==> digest in store
      ensures ok && createDb && old(Valid()) && (forall i :: 0 <= i < |list| ==> |list[i].0| == KeyDigits) ==> Tidy()
    {
      store := map[];
      if !dbOpened {
        return false;
      }
      if createDb {
        digest := Hash(H, "");
        store := store[digest := EmptyRoot];
        EmptyRootSealed(H);
        EmptyRootTidy(H, KeyDigits);
      }
      return true;
    }

    /** update: the pair waits for the next commit. */
    method Update(key: string, value: string)
      modifies this`list
      ensures list == old(list) + [(key, value)]
      ensures old(Valid()) && IsUpperHex(key) ==> Valid()
    {
      list := list + [(key, value)];
    }

    /** commit's inner loop for one pair. */
    method Place(stack: seq<Node>, hex: string, value: string) returns (r: Result<seq<Node>>)
      requires Shaped(stack) && |stack| > 0
      ensures r == Descend(store, stack, hex, value, 0, 0)
    {
      var s, pos, cnt := stack, 0, 0;
      while true
        invariant Shaped(s) && 0 <= pos < |s| && 0 <= cnt <= 41
        invariant Descend(store, s, hex, value, pos, cnt) == Descend(store, stack, hex, value, 0, 0)
        decreases 41 - cnt
      {
        if cnt > 40 {
          return Err(InvalidLoop);
        }
        cnt := cnt + 1;
        match PlaceStep(store, s, hex, value, pos)
        case Stop(s') =>
          return Ok(s');
        case Fail(e) =>
          return Err(e);
        case Down(s', p) =>
          s, pos := s', p;
      }
    }

    /** The store is a trie of 40-digit keys under a root branch with no
        prefix at the digest, and every pending key has 40 digits. */
    ghost predicate Tidy()
      reads this
    {
      Valid() && StoreTrie(store, KeyDigits) && RootedAt(store, digest)
      && forall i :: 0 <= i < |list| ==> |list[i].0| == KeyDigits
    }

    /** commit: every pending pair is placed into the stack that starts at
        the root record, the stack is hashed and written from the root down,
        and the root's hash becomes the digest. A root record that does not
        parse, or a pair whose walk fails, leaves everything as it was. Over
        a tidy store nothing fails, and unless a write replaced a record,
        every key then reads as the last pending pair for it gave it, or as
        it read before. */
    method Commit() returns (r: Result<()>)
      requires Valid()
      modifies this`store, this`digest, this`list, this`overwrote
      ensures Valid()
      ensures r.Ok? ==> list == [] && digest in store && old(store).Keys <= store.Keys
      ensures r.Ok? ==> Parse(digest, store[digest]).Ok? && NodeHash(H, Parse(digest, store[digest]).value) == digest
      ensures r.Err? ==> store == old(store) && digest == old(digest) && list == old(list)
      ensures old(Tidy()) ==> r.Ok?
      ensures old(Tidy()) && r.Ok? && !overwrote ==>
        Tidy() && forall k :: |k| == KeyDigits ==> Look(store, digest, k) == Expected(old(list), old(store), old(digest), k)
    {
      ghost var tidy := Tidy();
      var root := Parse(digest, ReadOr(store, digest, ""));
      if root.Err? {
        return Err(root.error);
      }
      if digest !in store {
        ParseMissing(digest);
      }
      assert RecordOk(H, store, digest);
      var placed, rank := PlaceAll(root.value);
      if placed.Err? {
        return Err(placed.error);
      }
      var stack := placed.value;
      ghost var store0 := store;
      overwrote := false;
      var out := Compute(stack, 0, rank);
      list := [];
      digest := out[0].hash;
      assert RecordOk(H, store, digest);
      if tidy && !overwrote {
        SettledRoot(H, store0, stack, store, out, old(list), old(digest));
      }
      return Ok(());
    }

    /** commit's loop over the pending pairs, in order, each placed into the
        stack that starts at the root record. Over a tidy store nothing
        fails, and the stack then reads every key as the pairs make it. */
    method PlaceAll(root: Node) returns (r: Result<seq<Node>>, ghost rank: seq<real>)
      requires Valid() && Fits(root, 1) && root.pointers == Unlinked() && Anchored(store, root)
      ensures r.Ok? ==> |r.value| > 0 && Arena(r.value, rank) && Staged(store, r.value)
      ensures Tidy() && Parse(digest, ReadOr(store, digest, "")) == Ok(root) ==>
        r.Ok? && ArenaTrie(store, r.value, KeyDigits) && Rooted(r.value) && Promises(store, r.value, list, store, digest, KeyDigits)
    {
      ghost var tidy := Tidy() && Parse(digest, ReadOr(store, digest, "")) == Ok(root);
      var stack := [root];
      rank := [0.0];
      if tidy {
        RootStack(store, digest, KeyDigits);
      }
      var i := 0;
      while i < |list|
        invariant 0 <= i <= |list| && |stack| > 0
        invariant Arena(stack, rank) && Staged(store, stack)
        invariant tidy ==> ArenaTrie(store, stack, KeyDigits) && Rooted(stack) && Promises(store, stack, list[..i], store, digest, KeyDigits)
      {
        var hex := list[i].0;
        assert NoChar(hex, '|') by {
          assert IsUpperHex(hex);
        }
        if tidy {
          PlaceKeeps(store, stack, list[..i], digest, hex, list[i].1, KeyDigits);
          PairsStep(list, i);
        }
        var placed := Place(stack, hex, list[i].1);
        if placed.Err? {
          return Err(placed.error), rank;
        }
        rank := DescendKeeps(H, store, stack, rank, hex, list[i].1, 0, 0);
        stack := placed.value;
        i := i + 1;
      }
      assert list[..i] == list;
      return Ok(stack), rank;
    }

    /** gen_proof: the records of the branches from the digest down to the
        node whose prefix is hex, or "?" where the walk finds no such node.
        The walk is cut off after |hex| + 1 records. */
    method GenProof(hex: string) returns (r: Result<string>)
      ensures r == ProofText(Walk(store, digest, hex, |hex| + 1))
    {
      r := WalkProof(store, digest, hex);
    }

    /** verify_proof against the current digest. */
    method VerifyProof(hex: string, value: string, proof: string) returns (ok: bool)
      ensures ok == Verify(H, digest, value, proof)
    {
      ok := Proof16.VerifyProof(H, digest, value, proof);
    }

    /** A node that _compute has finished: hashed, linked nowhere, its record
        written, and otherwise the node it was. */
    ghost predicate Settled(n: Node, was: Node)
      reads this
    {
      n.hash == NodeHash(H, n) && n.pointers == Unlinked() && n.hash in store && store[n.hash] == ToString(n)
      && n.prefix == was.prefix && n.isLeaf == was.isLeaf && n.value == was.value
      && (!n.isLeaf ==>
            (|n.hashes| == |was.hashes| == |was.pointers| == 16
             && forall i :: 0 <= i < 16 && was.pointers[i] == -1 ==> n.hashes[i] == was.hashes[i]))
    }

    /** _compute: a branch's linked children first, then the node is hashed
        and its record written under the hash. */
    method Compute(stack: seq<Node>, pos: int, ghost rank: seq<real>) returns (out: seq<Node>)
      requires Arena(stack, rank) && 0 <= pos < |stack| && Sealed(H, store) && Staged(store, stack)
      modifies this`store, this`overwrote
      decreases Below(rank, rank[pos]), 2
      ensures |out| == |stack| && Arena(out, rank) && Sealed(H, store) && Staged(store, out)
      ensures old(store).Keys <= store.Keys
      ensures Settled(out[pos], stack[pos])
      ensures forall i :: 0 <= i < |stack| && i != pos && rank[i] >= rank[pos] ==> out[i] == stack[i]
      ensures (old(overwrote) ==> overwrote) && (!overwrote ==> Preserves(old(store), stack, store, out, KeyDigits))
    {
      out := stack;
      if !stack[pos].isLeaf {
        out := ComputeChildren(stack, pos, rank);
      }
      assert Anchored(store, out[pos]) && Fits(out[pos], |out|);
      ghost var before, was := store, out;
      var n := Write(out[pos]);
      StagedGrows(before, store, out);
      out := out[pos := n];
      assert n.pointers == Unlinked();
      if !overwrote {
        WritePreserves(H, before, was, pos, n.hash, KeyDigits);
        PreservesTrans(old(store), stack, before, was, store, out, KeyDigits);
      }
    }

    /** _compute's loop over a branch's slots, in order. */
    method ComputeChildren(stack: seq<Node>, pos: int, ghost rank: seq<real>) returns (out: seq<Node>)
      requires Arena(stack, rank) && 0 <= pos < |stack| && Sealed(H, store) && Staged(store, stack)
      requires !stack[pos].isLeaf
      modifies this`store, this`overwrote
      decreases Below(rank, rank[pos]), 1
      ensures |out| == |stack| && Arena(out, rank) && Sealed(H, store) && Staged(store, out)
      ensures old(store).Keys <= store.Keys
      ensures out[pos] == stack[pos].(hashes := out[pos].hashes, pointers := Unlinked())
      ensures forall j :: 0 <= j < 16 && stack[pos].pointers[j] == -1 ==> out[pos].hashes[j] == stack[pos].hashes[j]
      ensures forall i :: 0 <= i < |stack| && i != pos && rank[i] >= rank[pos] ==> out[i] == stack[i]
      ensures (old(overwrote) ==> overwrote) && (!overwrote ==> Preserves(old(store), stack, store, out, KeyDigits))
    {
      out := stack;
      var i := 0;
      while i < 16
        invariant 0 <= i <= 16 && |out| == |stack| && Arena(out, rank)
        invariant Sealed(H, store) && Staged(store, out) && old(store).Keys <= store.Keys
        invariant out[pos] == stack[pos].(hashes := out[pos].hashes, pointers := out[pos].pointers)
        invariant forall j :: 0 <= j < 16 ==> out[pos].pointers[j] == if j < i then -1 else stack[pos].pointers[j]
        invariant forall j :: 0 <= j < 16 && stack[pos].pointers[j] == -1 ==> out[pos].hashes[j] == stack[pos].hashes[j]
        invariant forall k :: 0 <= k < |stack| && k != pos && rank[k] >= rank[pos] ==> out[k] == stack[k]
        invariant (old(overwrote) ==> overwrote) && (!overwrote ==> Preserves(old(store), stack, store, out, KeyDigits))
      {
        ghost var before, was := store, out;
        out := ComputeSlot(out, pos, i, rank);
        if !overwrote {
          PreservesTrans(old(store), stack, before, was, store, out, KeyDigits);
        }
        i := i + 1;
      }
      assert out[pos].pointers == Unlinked();
    }

    /** One pass of _compute's loop: a child linked from slot i is computed,
        its hash copied into the slot and the link dropped. */
    method ComputeSlot(stack: seq<Node>, pos: int, i: int, ghost rank: seq<real>) returns (out: seq<Node>)
      requires Arena(stack, rank) && 0 <= pos < |stack| && Sealed(H, store) && Staged(store, stack)
      requires !stack[pos].isLeaf && 0 <= i < 16
      modifies this`store, this`overwrote
      decreases Below(rank, rank[pos]), 0
      ensures |out| == |stack| && Arena(out, rank) && Sealed(H, store) && Staged(store, out)
      ensures old(store).Keys <= store.Keys
      ensures out[pos] == stack[pos].(hashes := out[pos].hashes, pointers := stack[pos].pointers[i := -1])
      ensures forall j :: 0 <= j < 16 && (j != i || stack[pos].pointers[i] == -1) ==> out[pos].hashes[j] == stack[pos].hashes[j]
      ensures forall k :: 0 <= k < |stack| && k != pos && rank[k] >= rank[pos] ==> out[k] == stack[k]
      ensures (old(overwrote) ==> overwrote) && (!overwrote ==> Preserves(old(store), stack, store, out, KeyDigits))
    {
      out := stack;
      var p := out[pos].pointers[i];
      if p != -1 {
        BelowShrinks(rank, p, pos);
        out := Compute(out, p, rank);
        var cur := out[pos];
        Unlink(store, out, rank, pos, i, out[p].hash);
        ghost var was := out;
        out := out[pos := cur.(hashes := cur.hashes[i := out[p].hash], pointers := cur.pointers[i := -1])];
        if !overwrote {
          UnlinkPreserves(H, store, was, pos, i, KeyDigits);
          PreservesTrans(old(store), stack, store, was, store, out, KeyDigits);
        }
      } else {
        assert stack[pos].pointers[i := -1] == stack[pos].pointers;
        RehashKeeps(store, stack, pos, stack[pos].hash);
        assert stack[pos := stack[pos].(hash := stack[pos].hash)] == stack;
      }
    }

    /** computeHash, then NodeRat::write: the record goes under the node's
        hash, replacing whatever was stored there. */
    method Write(n: Node) returns (m: Node)
      requires Sealed(H, store) && Anchored(store, n)
      modifies this`store, this`overwrote
      ensures m == n.(hash := NodeHash(H, n))
      ensures store == old(store)[m.hash := ToString(m)] && Sealed(H, store)
      ensures overwrote == (old(overwrote) || (m.hash in old(store) && old(store)[m.hash] != ToString(m)))
    {
      m := n.(hash := NodeHash(H, n));
      WriteSealed(H, store, m);
      overwrote := overwrote || (m.hash in store && store[m.hash] != ToString(m));
      store := store[m.hash := ToString(m)];
    }
  }
}
