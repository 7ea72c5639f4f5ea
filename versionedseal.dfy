// The hashes of a versioned trie (rattree.hpp's RatPrefix, RatCompact and
// RatPadding) agree with its records: every slot stands for what the record
// under its key stands for, so gen_proof's walk to a key the trie holds
// folds, from the hash of the value, to the digest of the root.
module VersionedSeal {
  import opened Results
  import opened Tools
  import opened IO
  import opened Proof16
  import RatLookup
  import opened RatVersioned
  import opened VersionedTree
  import opened VersionedLookup

  /** What the record under sk stands for ("" when none reads there):
      computeHash of the node in RatPrefix, the hash at the head of the
      record in the other two. */
  function ChildDigest(H: Hasher, kind: Kind, store: map<string, string>, sk: string): string {
    match Parse(kind, sk, ReadOr(store, sk, ""))
    case Err(_) => ""
    case Ok(c) => RootDigest(H, kind, c)
  }

  /** What a slot holding the key sk adds to its parent's hash: nothing for
      an empty slot. */
  function SlotDigest(H: Hasher, kind: Kind, store: map<string, string>, sk: string): string {
    if sk == "" then "" else ChildDigest(H, kind, store, sk)
  }

  /** A node whose hashes agree with the records below it: what _compute
      hashed for each slot is what the slot's child stands for, and in
      RatCompact and RatPadding the node's own hash is that of its value (a
      leaf) or of its slots' pieces (a branch). */
  predicate Consistent(H: Hasher, kind: Kind, store: map<string, string>, n: Node) {
    if n.isLeaf then kind != Prefix ==> n.hash == Hash(H, n.value)
    else
      |n.keys| == 16 && |n.hashes| == 16
      && (forall i :: 0 <= i < 16 ==> SlotHash(kind, store, n, i) == SlotDigest(H, kind, store, n.keys[i]))
      && (kind != Prefix ==> n.hash == Hash(H, Concat(SlotHashes(kind, store, n))))
  }

  predicate RecordSealed(H: Hasher, kind: Kind, store: map<string, string>, key: string)
    requires key in store
  {
    Parse(kind, key, store[key]).Ok? ==> Consistent(H, kind, store, Parse(kind, key, store[key]).value)
  }

  /** Every stored record agrees with the records below it. */
  predicate Sealed(H: Hasher, kind: Kind, store: map<string, string>) {
    forall key {:trigger RecordSealed(H, kind, store, key)} :: key in store ==> RecordSealed(H, kind, store, key)
  }

  /** The store a commit keeps: every record, of every version, a node of a
      trie over keys `height` digits long whose hashes agree with the
      records below it, and no record under the empty key (which gen_proof
      and _compute read for an empty slot). */
  predicate Tidy(H: Hasher, kind: Kind, store: map<string, string>, height: int) {
    StoreTrie(kind, store, height) && Sealed(H, kind, store) && "" !in store
  }

  /** The record under key is a root branch. */
  predicate RootedAt(kind: Kind, store: map<string, string>, key: string) {
    key in store && Parse(kind, key, store[key]).Ok?
    && Parse(kind, key, store[key]).value.isRoot && !Parse(kind, key, store[key]).value.isLeaf
  }

  /** What the root branch under key stands for. */
  function RootAt(H: Hasher, kind: Kind, store: map<string, string>, key: string): string
    requires RootedAt(kind, store, key)
  {
    RootDigest(H, kind, Parse(kind, key, store[key]).value)
  }

  // ---------------------------------------------------------------------
  // What a slot stands for

  /** The piece RatCompact and RatPadding read for a slot is the hash at
      the head of the child's record. */
  lemma {:induction false} PieceIsDigest(H: Hasher, kind: Kind, store: map<string, string>, n: Node, i: int)
    requires kind != Prefix && |n.keys| == 16 && |n.hashes| == 16 && 0 <= i < 16 && n.keys[i] != ""
    requires Parse(kind, n.keys[i], ReadOr(store, n.keys[i], "")).Ok?
    ensures SlotHash(kind, store, n, i) == SlotDigest(H, kind, store, n.keys[i])
  {
    var r := ReadOr(store, n.keys[i], "");
    assert |r| >= 64 && Chunk(r, 0) == r[..64];
  }

  /** A stored record of a tidy store stands for a digest. */
  lemma {:induction false} ChildDigestIs(H: Hasher, kind: Kind, store: map<string, string>, sk: string, height: int)
    requires Tidy(H, kind, store, height) && sk in store
    ensures IsDigest(ChildDigest(H, kind, store, sk)) && ChildHashOk(ChildDigest(H, kind, store, sk))
  {
    assert RecordTrie(kind, store, sk, height) && RecordSealed(H, kind, store, sk);
    DigestIsNotNull(ChildDigest(H, kind, store, sk));
  }

  /** The rung gen_proof's walk records at a stored branch of a tidy
      store: its level is well formed, its entries are Proof16's for the
      level, its slot w stands for the child there, and the level's hashes
      hash to what the branch stands for. */
  lemma {:induction false} RungFacts(H: Hasher, kind: Kind, store: map<string, string>, key: string, cur: Node, w: int,
                                     height: int)
    requires Tidy(H, kind, store, height) && key in store && Parse(kind, key, store[key]) == Ok(cur) && !cur.isLeaf
    requires 0 <= w < 16
    ensures |cur.keys| == 16 && |cur.hashes| == 16
    ensures var rung := RungOf(kind, store, cur, w);
      LevelOk(rung.level) && rung.entries == Entries(rung.level.hashes)
      && rung.level.hashes[w] == SlotDigest(H, kind, store, cur.keys[w])
      && Hash(H, Concat(rung.level.hashes)) == RootDigest(H, kind, cur)
  {
    assert RecordTrie(kind, store, key, height) && RecordSealed(H, kind, store, key);
    var hs := SlotHashes(kind, store, cur);
    forall i | 0 <= i < 16 ensures ChildHashOk(hs[i]) {
      if cur.keys[i] != "" {
        assert Slot(kind, store, Reach(cur), i, cur.keys[i]);
        ChildDigestIs(H, kind, store, cur.keys[i], height);
      }
    }
    if kind != Prefix {
      forall i | 0 <= i < 16 && cur.keys[i] != "" ensures ReadOr(store, cur.keys[i], "") != "" {
        assert Slot(kind, store, Reach(cur), i, cur.keys[i]);
      }
    } else {
      assert hs == cur.hashes;
    }
    EntriesOfSlots(kind, store, cur);
  }

  /** A leaf stored in a tidy store stands for the hash of its value. */
  lemma {:induction false} LeafDigest(H: Hasher, kind: Kind, store: map<string, string>, sk: string, c: Node, height: int)
    requires Tidy(H, kind, store, height) && sk in store && Parse(kind, sk, store[sk]) == Ok(c) && c.isLeaf
    ensures ChildDigest(H, kind, store, sk) == Hash(H, c.value)
  {
    assert RecordSealed(H, kind, store, sk);
  }

  // ---------------------------------------------------------------------
  // gen_proof's walk folds to the digest

  /** A stored child in slot w of a branch on the way to k: its record
      parses, it is no root, and its key's prefix is its own. */
  lemma {:induction false} ChildRead(H: Hasher, kind: Kind, store: map<string, string>, key: string, cur: Node, w: int,
                                     height: int)
    returns (c: Node)
    requires Tidy(H, kind, store, height) && key in store && Parse(kind, key, store[key]) == Ok(cur) && !cur.isLeaf
    requires 0 <= w < 16 && |cur.keys| == 16 && cur.keys[w] != ""
    ensures var sk := cur.keys[w];
      sk in store && Parse(kind, sk, store[sk]) == Ok(c) && Parse(kind, sk, ReadOr(store, sk, "")) == Ok(c)
    ensures RatLookup.Extends(Reach(c), Reach(cur), w) && KeyPrefix(cur.keys[w]) == Reach(c) && !c.isRoot
    ensures Sized(kind, c, height) && Sized(kind, cur, height)
    ensures ChildDigest(H, kind, store, cur.keys[w]) == RootDigest(H, kind, c)
  {
    var sk := cur.keys[w];
    assert RecordTrie(kind, store, key, height);
    assert Slot(kind, store, Reach(cur), w, sk);
    c := Parse(kind, sk, store[sk]).value;
    assert RecordTrie(kind, store, sk, height);
  }

  /** One step of the walk from a stored branch on the way to a key the
      trie holds: hex's slot holds a stored child on the way, and the walk
      stops at the branch exactly when that child is the leaf. */
  lemma {:induction false} WalkStep(H: Hasher, kind: Kind, store: map<string, string>, key: string, cur: Node, k: string,
                                    value: string, fuel: nat, f: nat, height: int)
    returns (c: Node)
    requires Tidy(H, kind, store, height) && key in store && Parse(kind, key, store[key]) == Ok(cur) && !cur.isLeaf
    requires IsUpperHex(k) && |k| == height && fuel > RatLookup.Gap(Reach(cur), k) && f == fuel - 1
    requires LookAt(kind, store, cur, k) == RatLookup.Holds(value)
    ensures |cur.keys| == 16 && |cur.hashes| == 16
    ensures var sk := cur.keys[OfWhich(cur, k)];
      sk != "" && sk in store && Parse(kind, sk, store[sk]) == Ok(c) && ChildDigest(H, kind, store, sk) == RootDigest(H, kind, c)
      && LookAt(kind, store, c, k) == RatLookup.Holds(value) && |Reach(c)| > |Reach(cur)|
      && (k <= sk ==> c.isLeaf && c.value == value)
      && (!(k <= sk) ==> !c.isLeaf && f > RatLookup.Gap(Reach(c), k))
      && Walk(kind, store, key, k, fuel)
         == if k <= sk then Ok(Found([RungOf(kind, store, cur, OfWhich(cur, k))]))
            else Under([RungOf(kind, store, cur, OfWhich(cur, k))], Walk(kind, store, sk, k, f))
  {
    assert RecordTrie(kind, store, key, height);
    var w := OfWhich(cur, k);
    var sk := cur.keys[w];
    assert Beneath(kind, store, Reach(cur), sk, k) == RatLookup.Holds(value);
    c := ChildRead(H, kind, store, key, cur, w, height);
    KeyStarts(sk, k, height);
    WalkReads(kind, store, key, k, fuel);
    if !(k <= sk) {
      assert LookAt(kind, store, c, k) == RatLookup.Holds(value);
      assert Reach(c) <= k;
      WalkDown(kind, store, cur, k, fuel, w, sk, f);
    }
  }

  /** The walk stops at a branch whose slot w holds the leaf: its one level
      folds the value's hash to what the branch stands for. */
  lemma {:induction false} FoldHere(H: Hasher, kind: Kind, store: map<string, string>, key: string, cur: Node, w: int,
                                    value: string, height: int)
    requires Tidy(H, kind, store, height) && key in store && Parse(kind, key, store[key]) == Ok(cur) && !cur.isLeaf
    requires 0 <= w < 16 && |cur.keys| == 16 && SlotDigest(H, kind, store, cur.keys[w]) == Hash(H, value)
    ensures var rungs := [RungOf(kind, store, cur, w)];
      Faithful(rungs) && LevelsOk(Levels(rungs)) && FoldLevels(H, Levels(rungs), Hash(H, value)) == RootDigest(H, kind, cur)
  {
    RungFacts(H, kind, store, key, cur, w, height);
    var rung := RungOf(kind, store, cur, w);
    assert rung.level.hashes[w := Hash(H, value)] == rung.level.hashes;
    assert Levels([rung]) == [rung.level] && [rung.level][..0] == [];
  }

  /** A level above a path that folds to what slot w's child stands for
      folds to what the branch stands for. */
  lemma {:induction false} FoldBelow(H: Hasher, kind: Kind, store: map<string, string>, key: string, cur: Node, w: int,
                                     rest: seq<Rung>, value: string, height: int)
    requires Tidy(H, kind, store, height) && key in store && Parse(kind, key, store[key]) == Ok(cur) && !cur.isLeaf
    requires 0 <= w < 16 && |cur.keys| == 16
    requires Faithful(rest) && LevelsOk(Levels(rest))
    requires FoldLevels(H, Levels(rest), Hash(H, value)) == SlotDigest(H, kind, store, cur.keys[w])
    ensures var rungs := [RungOf(kind, store, cur, w)] + rest;
      Faithful(rungs) && LevelsOk(Levels(rungs)) && FoldLevels(H, Levels(rungs), Hash(H, value)) == RootDigest(H, kind, cur)
  {
    RungFacts(H, kind, store, key, cur, w, height);
    var rung := RungOf(kind, store, cur, w);
    var l, ls := rung.level, Levels(rest);
    var below := FoldLevels(H, ls, Hash(H, value));
    FoldLevelsPrepend(H, l, ls, Hash(H, value));
    assert l.hashes[w := below] == l.hashes;
    RungsCons(rung, rest);
  }

  /** A rung above a faithful path: a faithful path whose levels are the
      rung's, then the path's. */
  lemma {:induction false} RungsCons(rung: Rung, rest: seq<Rung>)
    requires Faithful(rest) && rung.entries == Entries(rung.level.hashes)
    ensures Faithful([rung] + rest) && Levels([rung] + rest) == [rung.level] + Levels(rest)
  {
    var rungs := [rung] + rest;
    forall j | 0 <= j < |rungs| ensures rungs[j].entries == Entries(rungs[j].level.hashes) {
      if j > 0 {
        assert rungs[j] == rest[j - 1];
      }
    }
  }

  /** The walk from the stored branch cur under key, with fuel records to
      read, is on its way to k, which holds value. */
  predicate OnWay(kind: Kind, store: map<string, string>, key: string, cur: Node, k: string,
                  value: string, fuel: nat, height: int) {
    key in store && Parse(kind, key, store[key]) == Ok(cur) && !cur.isLeaf
    && IsUpperHex(k) && |k| == height && fuel > RatLookup.Gap(Reach(cur), k)
    && LookAt(kind, store, cur, k) == RatLookup.Holds(value)
  }

  /** A stored branch has sixteen slots. */
  lemma {:induction false} BranchSlots(kind: Kind, store: map<string, string>, key: string, cur: Node, height: int)
    requires StoreTrie(kind, store, height) && key in store && Parse(kind, key, store[key]) == Ok(cur) && !cur.isLeaf
    ensures |cur.keys| == 16 && |cur.hashes| == 16
  {
    assert RecordTrie(kind, store, key, height);
  }

  /** The walk from a stored branch whose slot on the way to k holds the
      leaf stops there, with one level that folds to what the branch stands
      for. */
  lemma {:induction false} StopAtLeaf(H: Hasher, kind: Kind, store: map<string, string>, key: string, cur: Node, k: string,
                                      value: string, fuel: nat, height: int)
    requires Tidy(H, kind, store, height) && OnWay(kind, store, key, cur, k, value, fuel, height)
    requires |cur.keys| == 16 && k <= cur.keys[OfWhich(cur, k)]
    ensures var rungs := [RungOf(kind, store, cur, OfWhich(cur, k))];
      Walk(kind, store, key, k, fuel) == Ok(Found(rungs))
      && Faithful(rungs) && LevelsOk(Levels(rungs)) && FoldLevels(H, Levels(rungs), Hash(H, value)) == RootDigest(H, kind, cur)
  {
    var f: nat := fuel - 1;
    var c := WalkStep(H, kind, store, key, cur, k, value, fuel, f, height);
    var w := OfWhich(cur, k);
    LeafDigest(H, kind, store, cur.keys[w], c, height);
    FoldHere(H, kind, store, key, cur, w, value, height);
  }

  /** The walk from a stored branch whose slot on the way to k holds
      another branch goes on from that branch's record. */
  lemma {:induction false} StepDown(H: Hasher, kind: Kind, store: map<string, string>, key: string, cur: Node, k: string,
                                    value: string, fuel: nat, f: nat, height: int)
    returns (c: Node)
    requires Tidy(H, kind, store, height) && OnWay(kind, store, key, cur, k, value, fuel, height) && f == fuel - 1
    requires |cur.keys| == 16 && !(k <= cur.keys[OfWhich(cur, k)])
    ensures OnWay(kind, store, cur.keys[OfWhich(cur, k)], c, k, value, f, height)
    ensures ChildDigest(H, kind, store, cur.keys[OfWhich(cur, k)]) == RootDigest(H, kind, c)
    ensures Walk(kind, store, key, k, fuel)
            == Under([RungOf(kind, store, cur, OfWhich(cur, k))], Walk(kind, store, cur.keys[OfWhich(cur, k)], k, f))
  {
    c := WalkStep(H, kind, store, key, cur, k, value, fuel, f, height);
  }

  /** With more records to read than k runs past the stored branch cur, the
      walk from cur's record to a key the trie holds finds a path whose
      levels fold, from the hash of the value, to what cur stands for. */
  lemma {:induction false} WalkFolds(H: Hasher, kind: Kind, store: map<string, string>, key: string, cur: Node, k: string,
                                     value: string, fuel: nat, height: int)
    returns (rungs: seq<Rung>)
    requires Tidy(H, kind, store, height) && OnWay(kind, store, key, cur, k, value, fuel, height)
    ensures Walk(kind, store, key, k, fuel) == Ok(Found(rungs))
    ensures Faithful(rungs) && LevelsOk(Levels(rungs))
    ensures FoldLevels(H, Levels(rungs), Hash(H, value)) == RootDigest(H, kind, cur)
    decreases fuel
  {
    BranchSlots(kind, store, key, cur, height);
    var w := OfWhich(cur, k);
    var sk := cur.keys[w];
    if k <= sk {
      StopAtLeaf(H, kind, store, key, cur, k, value, fuel, height);
      rungs := [RungOf(kind, store, cur, w)];
    } else {
      var f: nat := fuel - 1;
      var c := StepDown(H, kind, store, key, cur, k, value, fuel, f, height);
      var rest := WalkFolds(H, kind, store, sk, c, k, value, f, height);
      FoldBelow(H, kind, store, key, cur, w, rest, value, height);
      rungs := [RungOf(kind, store, cur, w)] + rest;
    }
  }
}
