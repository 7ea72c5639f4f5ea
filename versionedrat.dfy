// The RatPrefix, RatCompact and RatPadding objects (rattree.hpp): the
// versioned store and digest they keep, the updates waiting for commit, and
// commit, gen_proof and verify_proof over them.
module VersionedRats {
  import opened Results
  import opened Tools
  import opened IO
  import opened Proof16
  import RatTree
  import RatLookup
  import opened RatVersioned
  import opened VersionedTree
  import opened VersionedLookup
  import opened VersionedSeal
  import opened VersionedStage

  /** RatPrefix, RatCompact or RatPadding, as `kind` says. */
  class VersionedRat {
    const H: Hasher
    const kind: Kind
    /** The records stored through io, under their versioned keys. */
    var store: map<string, string>
    var digest: string
    var height: int
    var version: nat
    var strver: string
    /** Updates awaiting commit, in order. */
    var list: seq<(string, string)>

    /** strver names the version, no stored record names a later one, and
        every pending key is a hex position. */
    ghost predicate Valid()
      reads this
    {
      strver == StrVer(version)
      && Versioned(store, version)
      && (forall i :: 0 <= i < |list| ==> IsUpperHex(list[i].0))
    }

    /** The store is a tidy trie of 40-digit keys, the root record of the
        current version is a root branch standing for the digest, and every
        pending key has 40 digits. */
    ghost predicate Sound()
      reads this
    {
      Valid() && Tidy(H, kind, store, RatLookup.KeyDigits) && RootedAt(kind, store, RootKey(kind, strver))
      && digest == RootAt(H, kind, store, RootKey(kind, strver))
      && forall i :: 0 <= i < |list| ==> |list[i].0| == RatLookup.KeyDigits
    }

    constructor(H: Hasher, kind: Kind, height: int)
      ensures this.H == H && this.kind == kind && this.height == height
      ensures digest == "" && store == map[] && list == [] && version == 0 && strver == "0"
      ensures Valid()
    {
      this.H := H;
      this.kind := kind;
      this.height := height;
      digest := "";
      store := map[];
      list := [];
      version := 0;
      strver := "0";
    }

    /** init: with a new database, the empty root is written under the root
        key of version 0 and the digest is that of the empty string. */
    method Init(dbOpened: bool, createDb: bool) returns (ok: bool)
      modifies this`store, this`digest
      ensures ok == dbOpened
      ensures ok && createDb ==> digest == Hash(H, "") && store == map[RootKey(kind, "0") := InitRecord(H, kind)]
      ensures !(ok && createDb) ==> store == old(store) && digest == old(digest)
      ensures old(Valid()) && version == 0 ==> Valid()
      ensures ok && createDb && old(Valid()) && version == 0 && (forall i :: 0 <= i < |list| ==> |list[i].0| == RatLookup.KeyDigits)
        ==> Sound()
    {
      if !dbOpened {
        return false;
      }
      if createDb {
        digest := Hash(H, "");
        store := map[RootKey(kind, "0") := InitRecord(H, kind)];
        InitVersioned(H, kind);
        InitTidy(H, kind, RatLookup.KeyDigits);
      }
      return true;
    }

    /** update: the pair waits for the next commit. */
    method Update(key: string, value: string)
      modifies this`list
      ensures list == old(list) + [(key, value)]
      ensures old(Valid()) && IsUpperHex(key) ==> Valid()
      ensures old(Sound()) && IsUpperHex(key) && |key| == RatLookup.KeyDigits ==> Sound()
    {
      list := list + [(key, value)];
    }

    /** commit's inner loop for one pair. */
    method Place(stack: seq<Node>, hex: string, value: string, v: string) returns (r: Result<seq<Node>>)
      requires Shaped(stack) && |stack| > 0
      ensures r == Descend(kind, store, stack, hex, value, v, 0, 0)
    {
      var s, pos, cnt := stack, 0, 0;
      while true
        invariant Shaped(s) && 0 <= pos < |s| && 0 <= cnt <= 41
        invariant Descend(kind, store, s, hex, value, v, pos, cnt) == Descend(kind, store, stack, hex, value, v, 0, 0)
        decreases 41 - cnt
      {
        if cnt > 40 {
          return Err(InvalidLoop);
        }
        cnt := cnt + 1;
        match PlaceStep(kind, store, s, hex, value, v, pos)
        case Stop(s') =>
          return Ok(s');
        case Fail(e) =>
          return Err(e);
        case Down(s', p) =>
          s, pos := s', p;
      }
    }

    /** commit: the root of the current version is read and renamed for the
        next one, each pending pair is placed, _compute writes every staged
        node, and the digest becomes the new root's. A root that does not
        read leaves everything as it was; a failure while placing leaves
        the version counted up and nothing written. Over a sound store
        nothing fails, the store stays sound, and the new root's record
        reads every key as the last pending pair for it gave it, or as the
        old root's record read it. */
    method Commit() returns (r: Result<()>, ghost root: Node)
      requires Valid()
      modifies this`store, this`digest, this`list, this`version, this`strver
      ensures Valid()
      ensures var k := RootKey(kind, old(strver));
        Parse(kind, k, ReadOr(old(store), k, "")).Err? ==> r.Err? && version == old(version) && strver == old(strver)
      ensures var k := RootKey(kind, old(strver));
        Parse(kind, k, ReadOr(old(store), k, "")).Ok? ==> version == old(version) + 1
      ensures r.Err? ==> store == old(store) && digest == old(digest) && list == old(list)
      ensures r.Ok? ==> list == [] && forall k :: k in old(store) ==> k in store && store[k] == old(store)[k]
      ensures r.Ok? ==> forall k :: k in store ==> k in old(store) || TagOf(k) == strver
      ensures r.Ok? ==> root.key == RootKey(kind, strver) && root.key in store && store[root.key] == ToString(kind, root)
      ensures r.Ok? ==> digest == root.hash == NodeHash(H, root) == RootDigest(H, kind, root)
      ensures old(Sound()) ==> r.Ok? && Sound()
      ensures old(Sound()) ==>
        Committed(H, kind, store, RootKey(kind, strver), old(list), old(store), RootKey(kind, old(strver)), RatLookup.KeyDigits)
    {
      ghost var tidy := Sound();
      var rk := RootKey(kind, strver);
      var parsed := Parse(kind, rk, ReadOr(store, rk, ""));
      if parsed.Err? {
        return Err(parsed.error), NewLeaf("", "");
      }
      r, root := CommitFrom(parsed.value, tidy);
    }

    /** commit once the root of the current version has been read. */
    method CommitFrom(top: Node, ghost tidy: bool) returns (r: Result<()>, ghost root: Node)
      requires Valid() && top.key == RootKey(kind, strver) && top.keyLen == RatTree.Find(top.key, '-', 0)
      requires top.pointers == RatTree.Unlinked() && (!top.isLeaf ==> |top.keys| == 16 && |top.hashes| == 16)
      requires tidy ==> Sound() && Parse(kind, top.key, store[top.key]) == Ok(top)
      modifies this`store, this`digest, this`list, this`version, this`strver
      ensures Valid() && version == old(version) + 1
      ensures r.Err? ==> store == old(store) && digest == old(digest) && list == old(list)
      ensures r.Ok? ==> list == [] && forall k :: k in old(store) ==> k in store && store[k] == old(store)[k]
      ensures r.Ok? ==> forall k :: k in store ==> k in old(store) || TagOf(k) == strver
      ensures r.Ok? ==> root.key == RootKey(kind, strver) && root.key in store && store[root.key] == ToString(kind, root)
      ensures r.Ok? ==> digest == root.hash == NodeHash(H, root) == RootDigest(H, kind, root)
      ensures tidy ==> r.Ok? && Sound()
      ensures tidy ==> Committed(H, kind, store, RootKey(kind, strver), old(list), old(store), top.key, RatLookup.KeyDigits)
    {
      root := top;
      var v := NextVersion();
      var renamed := ChangeVersion(kind, top, v);
      RootRenamed(kind, top, old(strver), v);
      assert Fits(renamed, 1);
      if tidy {
        RootStack(H, kind, store, old(strver), v, RatLookup.KeyDigits);
      }
      var placed, rank := PlaceAll([renamed], [0.0], v, tidy, top.key);
      if placed.Err? {
        return Err(placed.error), root;
      }
      root := Finish(placed.value, rank, tidy, top.key);
      r := Ok(());
    }

    /** The end of commit: _compute from the root, the pending list
        cleared, the digest the new root's. */
    method Finish(stack: seq<Node>, ghost rank: seq<real>, ghost tidy: bool, ghost key0: string) returns (ghost root: Node)
      requires Valid() && version >= 1 && Versioned(store, version - 1)
      requires Arena(stack, rank) && Tagged(kind, stack, strver) && |stack| > 0
      requires tidy ==> Orderly(H, kind, store, stack, RatLookup.KeyDigits) && Rooted(stack) && stack[0].key == RootKey(kind, strver)
      requires tidy ==> Promises(kind, store, stack, list, store, key0, RatLookup.KeyDigits)
      modifies this`store, this`digest, this`list
      ensures Valid()
      ensures list == [] && forall k :: k in old(store) ==> k in store && store[k] == old(store)[k]
      ensures forall k :: k in store ==> k in old(store) || TagOf(k) == strver
      ensures root.key == stack[0].key && root.key in store && store[root.key] == ToString(kind, root)
      ensures digest == root.hash == NodeHash(H, root) == RootDigest(H, kind, root)
      ensures tidy ==> Sound() && Committed(H, kind, store, RootKey(kind, strver), old(list), old(store), key0, RatLookup.KeyDigits)
    {
      digest, root := Flush(stack, rank, tidy, key0, list);
      list := [];
    }

    /** ++version; strver = int_to_hex(version). */
    method NextVersion() returns (v: string)
      requires Valid()
      modifies this`version, this`strver
      ensures version == old(version) + 1 && v == strver && IsUpperHex(v) && Valid()
      ensures Versioned(store, version - 1)
    {
      v := IntToHex(version + 1);
      StrVerValue(version + 1);
      VersionedGrows(store, version);
      version, strver := version + 1, v;
    }

    /** commit's _compute from the root and what it leaves of the root:
        every earlier record is kept. Over a tidy store and a stack that
        reads every key as the pairs say, the root's record reads every key
        so. */
    method Flush(stack: seq<Node>, ghost rank: seq<real>, ghost tidy: bool, ghost key0: string, ghost pairs: seq<(string, string)>)
      returns (d: string, ghost root: Node)
      requires Arena(stack, rank) && Tagged(kind, stack, strver) && |stack| > 0
      requires version >= 1 && strver == StrVer(version) && Versioned(store, version - 1)
      requires tidy ==> Orderly(H, kind, store, stack, RatLookup.KeyDigits) && Rooted(stack)
      requires tidy ==> Promises(kind, store, stack, pairs, store, key0, RatLookup.KeyDigits)
      modifies this`store
      ensures Versioned(store, version)
      ensures forall k :: k in old(store) ==> k in store && store[k] == old(store)[k]
      ensures forall k :: k in store ==> k in old(store) || TagOf(k) == strver
      ensures root.key == stack[0].key && root.key in store && store[root.key] == ToString(kind, root)
      ensures d == root.hash == NodeHash(H, root) == RootDigest(H, kind, root)
      ensures tidy ==> Committed(H, kind, store, root.key, pairs, old(store), key0, RatLookup.KeyDigits)
      ensures tidy ==> RootAt(H, kind, store, root.key) == d
    {
      if tidy {
        NoneNamed(store, version - 1);
        StrVerValue(version);
      }
      var out := Compute(stack, 0, rank, strver, tidy);
      root := out[0];
      d := RootDigest(H, kind, out[0]);
      Persist(old(store), store, version - 1, strver);
      if tidy {
        SettledRoot(H, kind, old(store), stack, store, out, pairs, key0, RatLookup.KeyDigits);
      }
    }

    /** commit's outer loop: each pending pair placed in turn, from the
        root down. Over a tidy store, from a rooted trie that reads every
        key as the trie under key0 does, nothing fails, and the stack then
        reads every key as the pending pairs make it. */
    method PlaceAll(stack: seq<Node>, ghost rank: seq<real>, v: string, ghost tidy: bool, ghost key0: string)
      returns (r: Result<seq<Node>>, ghost rank': seq<real>)
      requires Arena(stack, rank) && Tagged(kind, stack, v) && |stack| > 0 && IsUpperHex(v)
      requires forall i :: 0 <= i < |list| ==> IsUpperHex(list[i].0)
      requires tidy ==> Orderly(H, kind, store, stack, RatLookup.KeyDigits) && Rooted(stack)
      requires tidy ==> Promises(kind, store, stack, [], store, key0, RatLookup.KeyDigits)
      requires tidy ==> forall i :: 0 <= i < |list| ==> |list[i].0| == RatLookup.KeyDigits
      ensures r.Ok? ==> Arena(r.value, rank') && Tagged(kind, r.value, v) && KeysKept(stack, r.value)
      ensures tidy ==> r.Ok? && Orderly(H, kind, store, r.value, RatLookup.KeyDigits) && Rooted(r.value)
      ensures tidy ==> Promises(kind, store, r.value, list, store, key0, RatLookup.KeyDigits)
    {
      var s := stack;
      rank' := rank;
      var i := 0;
      while i < |list|
        invariant 0 <= i <= |list| && |s| > 0
        invariant Arena(s, rank') && Tagged(kind, s, v) && KeysKept(stack, s)
        invariant tidy ==> Orderly(H, kind, store, s, RatLookup.KeyDigits) && Rooted(s)
        invariant tidy ==> Promises(kind, store, s, list[..i], store, key0, RatLookup.KeyDigits)
      {
        var hex := list[i].0;
        if tidy {
          PlaceKeeps(H, kind, store, s, list[..i], key0, hex, list[i].1, v, RatLookup.KeyDigits);
          RatLookup.PairsStep(list, i);
        }
        var placed := Place(s, hex, list[i].1, v);
        if placed.Err? {
          return Err(placed.error), rank';
        }
        ghost var was := s;
        rank' := DescendKeeps(kind, store, s, rank', hex, list[i].1, v, 0, 0);
        s := placed.value;
        KeysKeptTrans(stack, was, s);
        i := i + 1;
      }
      assert list[..i] == list;
      return Ok(s), rank';
    }

    /** gen_proof from the root of the current version. */
    method GenProof(hex: string) returns (r: Result<string>)
      ensures r == ProofText(Walk(kind, store, RootKey(kind, strver), hex, |hex| + 1))
    {
      var key := RootKey(kind, strver);
      r := WalkProof(kind, store, key, hex);
    }

    /** verify_proof against the current digest. */
    method VerifyProof(hex: string, value: string, proof: string) returns (ok: bool)
      ensures ok == Verify(H, digest, value, proof)
    {
      ok := Proof16.VerifyProof(H, digest, value, proof);
    }

    /** While the object is sound, gen_proof for a 40-digit key that the
        current version reads as value gives a proof that verify_proof
        accepts against the current digest. */
    lemma SoundVerifies(hex: string, value: string)
      requires Sound() && IsUpperHex(hex) && |hex| == RatLookup.KeyDigits
      requires Look(kind, store, RootKey(kind, strver), hex) == RatLookup.Holds(value)
      ensures var w := Walk(kind, store, RootKey(kind, strver), hex, |hex| + 1);
        ProofText(w).Ok? && Verify(H, digest, value, ProofText(w).value)
    {
      HeldVerifies(H, kind, store, RootKey(kind, strver), hex, value, RatLookup.KeyDigits);
    }

    /** A node that _compute has finished: its hash computed, its links
        dropped, its record written under its key, and otherwise the node
        it was. */
    ghost predicate Settled(n: Node, was: Node, v: string, before: map<string, string>)
      reads this
    {
      n == was.(hash := n.hash, hashes := n.hashes, pointers := RatTree.Unlinked())
      && n.hash == NodeHash(H, n)
      && n.key in store && store[n.key] == ToString(kind, n)
      && (!n.isLeaf ==>
            |n.hashes| == 16 && |was.hashes| == 16 && |was.keys| == 16 && |was.pointers| == 16
            && forall j :: 0 <= j < 16 && was.pointers[j] == -1 ==> SlotKept(kind, n, was, j, v, before))
    }

    /** _compute: a branch's linked children first, then the node's hash
        (computeHash in RatPrefix, the hash of the appended pieces in the
        other two), and its record is written under its key. Over a tidy
        store, from a node under which no record of the new version lies,
        every record goes under a key no record holds: the store stays tidy
        and keeps every record, the stack reads every key as before, and
        the node's record stands for its hash. */
    method Compute(stack: seq<Node>, pos: int, ghost rank: seq<real>, v: string, ghost tidy: bool) returns (out: seq<Node>)
      requires Arena(stack, rank) && Tagged(kind, stack, v) && 0 <= pos < |stack|
      requires tidy ==> Orderly(H, kind, store, stack, RatLookup.KeyDigits) && Fresh(store, v, Reach(stack[pos])) && v != ""
      modifies this`store
      decreases Below(rank, rank[pos]), 2
      ensures |out| == |stack| && Arena(out, rank) && Tagged(kind, out, v) && KeysKept(stack, out)
      ensures Preserves(old(store), store, v)
      ensures Settled(out[pos], stack[pos], v, old(store))
      ensures forall i :: 0 <= i < |stack| && i != pos && rank[i] >= rank[pos] ==> out[i] == stack[i]
      ensures tidy ==> Orderly(H, kind, store, out, RatLookup.KeyDigits) && RatLookup.Kept(old(store), store)
      ensures tidy ==> SameView(kind, old(store), stack, store, out) && WrittenBelow(old(store), store, stack[pos])
      ensures tidy ==> Stored(kind, store, out[pos]) && ChildDigest(H, kind, store, out[pos].key) == out[pos].hash
    {
      out := stack;
      if !stack[pos].isLeaf {
        out := ComputeChildren(stack, pos, rank, v, tidy);
      }
      var n := out[pos].(hash := NodeHash(H, out[pos]));
      assert Named(kind, n.key, v);
      ghost var mid, was := store, out;
      if tidy {
        assert StagedFits(kind, mid, out, pos, RatLookup.KeyDigits);
        KeyFree(kind, old(store), mid, out[pos], v, RatLookup.KeyDigits);
        WriteStep(H, kind, mid, out, pos, RatLookup.KeyDigits);
        WrittenOwn(kind, old(store), mid, out[pos], ToString(kind, n), RatLookup.KeyDigits);
      }
      Write(n, v);
      PreservesTrans(old(store), mid, store, v);
      Rehash(kind, out, rank, v, pos, n.hash);
      out := out[pos := n];
      if tidy {
        SameViewTrans(kind, old(store), stack, mid, was, store, out);
      }
    }

    /** _compute's loop over a branch's slots, in order. */
    method ComputeChildren(stack: seq<Node>, pos: int, ghost rank: seq<real>, v: string, ghost tidy: bool) returns (out: seq<Node>)
      requires Arena(stack, rank) && Tagged(kind, stack, v) && 0 <= pos < |stack| && !stack[pos].isLeaf
      requires tidy ==> Orderly(H, kind, store, stack, RatLookup.KeyDigits) && Fresh(store, v, Reach(stack[pos])) && v != ""
      modifies this`store
      decreases Below(rank, rank[pos]), 1
      ensures |out| == |stack| && Arena(out, rank) && Tagged(kind, out, v) && KeysKept(stack, out)
      ensures Preserves(old(store), store, v)
      ensures out[pos] == stack[pos].(hashes := out[pos].hashes, pointers := RatTree.Unlinked())
      ensures |out[pos].hashes| == 16 && |stack[pos].hashes| == 16 && |stack[pos].keys| == 16
      ensures forall j :: 0 <= j < 16 && stack[pos].pointers[j] == -1 ==> SlotKept(kind, out[pos], stack[pos], j, v, old(store))
      ensures forall i :: 0 <= i < |stack| && i != pos && rank[i] >= rank[pos] ==> out[i] == stack[i]
      ensures tidy ==> Orderly(H, kind, store, out, RatLookup.KeyDigits) && RatLookup.Kept(old(store), store)
      ensures tidy ==> SameView(kind, old(store), stack, store, out) && WrittenUnder(old(store), store, Reach(stack[pos]), 16)
      ensures tidy ==> AllSealed(H, kind, store, out[pos])
    {
      out := stack;
      assert Fits(stack[pos], |stack|);
      if tidy {
        ChildrenStart(H, kind, store, stack, pos);
      }
      var i := 0;
      while i < 16
        invariant 0 <= i <= 16 && |out| == |stack| && Arena(out, rank) && Tagged(kind, out, v) && KeysKept(stack, out)
        invariant Preserves(old(store), store, v)
        invariant SlotsDone(kind, out[pos], stack[pos], i, v, old(store))
        invariant forall k :: 0 <= k < |stack| && k != pos && rank[k] >= rank[pos] ==> out[k] == stack[k]
        invariant tidy ==> ChildrenTidy(H, kind, old(store), stack, store, out, pos, i)
      {
        ghost var mid, was := store, out;
        out := ComputeSlot(out, pos, i, rank, v, tidy, old(store), stack);
        PreservesTrans(old(store), mid, store, v);
        KeysKeptTrans(stack, was, out);
        SlotsStep(kind, was[pos], stack[pos], i, v, old(store), mid, out[pos]);
        i := i + 1;
      }
      assert out[pos].pointers == RatTree.Unlinked();
      if tidy {
        assert ChildrenTidy(H, kind, old(store), stack, store, out, pos, 16);
      }
    }

    /** One pass of _compute's loop: a child linked from slot i is computed
        first and its hash taken, the link dropped; in RatCompact and
        RatPadding an unlinked slot's piece is read from the child's
        record. Over a tidy store, every record it writes lies under slot
        i, and the slot then agrees with its child's record. */
    method ComputeSlot(stack: seq<Node>, pos: int, i: int, ghost rank: seq<real>, v: string, ghost tidy: bool,
                       ghost store0: map<string, string>, ghost stack0: seq<Node>) returns (out: seq<Node>)
      requires Arena(stack, rank) && Tagged(kind, stack, v) && 0 <= pos < |stack| && !stack[pos].isLeaf && 0 <= i < 16
      requires tidy ==> |stack0| == |stack| && Reach(stack0[pos]) == Reach(stack[pos]) && v != ""
      requires tidy ==> (forall j :: 0 <= j < i ==> stack[pos].pointers[j] == -1) && Fresh(store0, v, Reach(stack0[pos]))
      requires tidy ==> |stack[pos].keys| == 16 && |stack[pos].hashes| == 16 && ChildrenTidy(H, kind, store0, stack0, store, stack, pos, i)
      modifies this`store
      decreases Below(rank, rank[pos]), 0
      ensures |out| == |stack| && Arena(out, rank) && Tagged(kind, out, v) && KeysKept(stack, out)
      ensures Preserves(old(store), store, v)
      ensures |out[pos].hashes| == 16 && |stack[pos].hashes| == 16 && |stack[pos].keys| == 16
      ensures out[pos] == stack[pos].(hashes := stack[pos].hashes[i := out[pos].hashes[i]], pointers := stack[pos].pointers[i := -1])
      ensures stack[pos].pointers[i] == -1 ==> SlotKept(kind, out[pos], stack[pos], i, v, old(store))
      ensures forall k :: 0 <= k < |stack| && k != pos && rank[k] >= rank[pos] ==> out[k] == stack[k]
      ensures tidy ==> ChildrenTidy(H, kind, store0, stack0, store, out, pos, i + 1)
    {
      out := stack;
      assert Fits(stack[pos], |stack|);
      if tidy {
        ChildReady(H, kind, store0, store, v, stack, pos, i);
      }
      var p := out[pos].pointers[i];
      if p != -1 {
        BelowShrinks(rank, p, pos);
        ghost var was := out;
        out := Compute(out, p, rank, v, tidy);
        var cur := out[pos];
        var h := out[p].hash;
        Unlink(kind, out, rank, v, pos, i, h, true);
        KeysKeptTrans(stack, was, out[pos := cur.(hashes := cur.hashes[i := h], pointers := cur.pointers[i := -1])]);
        if tidy {
          assert StagedFits(kind, old(store), stack, pos, RatLookup.KeyDigits) && SlotFits(kind, old(store), stack, pos, i);
          WrittenChild(old(store), store, stack[p], Reach(stack[pos]), i);
          assert Fits(out[pos], |out|);
          UnlinkStep(H, kind, store, out, pos, i, RatLookup.KeyDigits);
          SameViewTrans(kind, old(store), stack, store, out, store,
                        out[pos := cur.(hashes := cur.hashes[i := h], pointers := cur.pointers[i := -1])]);
        }
        out := out[pos := cur.(hashes := cur.hashes[i := h], pointers := cur.pointers[i := -1])];
      } else {
        var cur := out[pos];
        var h := if kind == Prefix then cur.hashes[i] else Chunk(ReadOr(store, cur.keys[i], ""), 0);
        Unlink(kind, out, rank, v, pos, i, h, false);
        if tidy {
          PieceStep(H, kind, store, out, pos, i, RatLookup.KeyDigits);
        }
        out := out[pos := cur.(hashes := cur.hashes[i := h])];
        assert stack[pos].pointers[i := -1] == stack[pos].pointers;
      }
      if tidy {
        ChildrenStep(H, kind, store0, stack0, old(store), stack, store, out, pos, i);
      }
    }

    /** NodeRat*::write: the record goes under the node's key. RatPadding's
        write throws on a key shorter than 64 characters, which a key named
        at the new version never is. */
    method Write(n: Node, v: string)
      requires Named(kind, n.key, v)
      modifies this`store
      ensures store == old(store)[n.key := ToString(kind, n)]
      ensures Preserves(old(store), store, v)
    {
      store := store[n.key := ToString(kind, n)];
    }
  }
}
