// A commit of a versioned trie (rattree.hpp's RatPrefix, RatCompact and
// RatPadding) over a tidy store: the stack it places the pending pairs into
// reads every key as the pairs say, _compute writes each staged node under a
// key no record holds yet, and the records it leaves read every key as the
// stack did and agree with the hashes below them.
module VersionedStage {
  import opened Results
  import opened Tools
  import opened IO
  import opened Proof16
  import RatTree
  import RatLookup
  import opened RatVersioned
  import opened VersionedTree
  import opened VersionedLookup
  import opened VersionedSeal

  // ---------------------------------------------------------------------
  // What a commit promises

  /** What k should read as once the pending pairs are committed over the
      trie whose root record is under key: the last value a pair gave it,
      or what it read as. */
  function Expected(kind: Kind, pairs: seq<(string, string)>, store: map<string, string>, key: string, k: string): RatLookup.Seen {
    match RatLookup.Latest(pairs, k)
    case Some(v) => RatLookup.Holds(v)
    case None => Look(kind, store, key, k)
  }

  /** From its root, the stack reads every key of the given length as the
      pairs committed over the trie under key0 would make it read. */
  ghost predicate Promises(kind: Kind, store: map<string, string>, s: seq<Node>, pairs: seq<(string, string)>,
                           store0: map<string, string>, key0: string, height: int) {
    Shaped(s) && |s| > 0 && forall k :: |k| == height ==> Seek(kind, store, s, 0, k) == Expected(kind, pairs, store0, key0, k)
  }

  /** In RatPrefix a staged branch's slot with no link carries the hash
      the child under its key stands for (nothing in RatCompact and
      RatPadding, which read that piece from the store). */
  predicate NodeStaged(H: Hasher, kind: Kind, store: map<string, string>, n: Node) {
    kind == Prefix && !n.isLeaf && |n.keys| == 16 && |n.hashes| == 16 && |n.pointers| == 16 ==>
      forall i :: 0 <= i < 16 && n.pointers[i] == -1 ==> n.hashes[i] == SlotDigest(H, kind, store, n.keys[i])
  }

  predicate StagedSealed(H: Hasher, kind: Kind, store: map<string, string>, s: seq<Node>) {
    forall r :: 0 <= r < |s| ==> NodeStaged(H, kind, store, s[r])
  }

  // ---------------------------------------------------------------------
  // The stack commit starts from

  /** An empty record reads as no node. */
  lemma {:induction false} ParseEmpty(kind: Kind, key: string)
    ensures Parse(kind, key, "").Err?
  {
  }

  /** A node the store holds: in RatPrefix its unlinked slots carry the
      hashes of the children below them. */
  lemma {:induction false} StoredStaged(H: Hasher, kind: Kind, store: map<string, string>, key: string)
    requires Sealed(H, kind, store) && Parse(kind, key, ReadOr(store, key, "")).Ok?
    ensures NodeStaged(H, kind, store, Parse(kind, key, ReadOr(store, key, "")).value)
  {
    if key !in store {
      ParseEmpty(kind, key);
    }
    assert RecordSealed(H, kind, store, key);
  }

  /** The stack commit starts from, the root of the current version named
      at the new one, is a rooted trie that reads every key as the trie
      under the old root key does. */
  lemma {:induction false} RootStack(H: Hasher, kind: Kind, store: map<string, string>, s: string, v: string, height: int)
    requires Tidy(H, kind, store, height) && RootedAt(kind, store, RootKey(kind, s)) && IsUpperHex(v)
    ensures var root := ChangeVersion(kind, Parse(kind, RootKey(kind, s), store[RootKey(kind, s)]).value, v);
      root.key == RootKey(kind, v) && Fits(root, 1) && root.pointers == RatTree.Unlinked()
      && ArenaTrie(kind, store, [root], height) && Rooted([root]) && StagedSealed(H, kind, store, [root])
      && Promises(kind, store, [root], [], store, RootKey(kind, s), height)
  {
    var rk := RootKey(kind, s);
    var n := Parse(kind, rk, store[rk]).value;
    var root := ChangeVersion(kind, n, v);
    assert RecordTrie(kind, store, rk, height);
    RootRenamed(kind, n, s, v);
    RootKeyDash(kind, s);
    RootKeyDash(kind, v);
    assert CharAt(root.key, 0) == '*';
    assert NodeTrie(kind, store, root, height) by {
      forall i | 0 <= i < 16 && root.keys[i] != "" ensures Slot(kind, store, Reach(root), i, root.keys[i]) {
        assert Slot(kind, store, Reach(n), i, n.keys[i]);
      }
    }
    assert Fits(root, 1);
    StagedRecord(kind, store, [root], 0, height);
    StoredStaged(H, kind, store, rk);
    forall k ensures Seek(kind, store, [root], 0, k) == Look(kind, store, rk, k) {
      SeekUnlinked(kind, store, [root], 0, k);
      assert OfWhich(root, k) == OfWhich(n, k);
    }
  }

  // ---------------------------------------------------------------------
  // Placing one pair

  /** Staging new nodes whose unlinked slots agree with the store, and
      linking a slot, keeps the stack's slots agreeing with the store. */
  lemma {:induction false} LinkStaged(H: Hasher, kind: Kind, store: map<string, string>, s: seq<Node>, added: seq<Node>,
                                      pos: int, which: int, k: string, target: int)
    requires StagedSealed(H, kind, store, s) && 0 <= pos < |s| && 0 <= which < 16 && target >= 0
    requires which < |s[pos].pointers| && which < |s[pos].keys|
    requires forall j :: 0 <= j < |added| ==> NodeStaged(H, kind, store, added[j])
    ensures StagedSealed(H, kind, store, Link(s + added, pos, which, k, target))
  {
    var t := s + added;
    var l := Link(t, pos, which, k, target);
    forall r | 0 <= r < |l| ensures NodeStaged(H, kind, store, l[r]) {
      if r < |s| {
        assert NodeStaged(H, kind, store, s[r]);
      } else {
        assert l[r] == added[r - |s|];
      }
    }
  }

  /** The branch a split puts in: every slot with no link is empty, but
      the one that keeps an unstaged child. */
  lemma {:induction false} SplitStaged(H: Hasher, kind: Kind, store: map<string, string>, hex: string, ck: string, v: string,
                                       leaf: int, w2: int, link: int, h: string)
    requires leaf >= 0 && w2 == OfWhich(SplitBranch(kind, hex, ck, v, leaf), ck) && link >= -1
    requires link == -1 && kind == Prefix ==> h == SlotDigest(H, kind, store, ck)
    ensures var b := SplitBranch(kind, hex, ck, v, leaf);
      NodeStaged(H, kind, store, b.(hashes := b.hashes[w2 := h], pointers := b.pointers[w2 := if link == -1 then b.pointers[w2] else link]))
  {
  }

  /** One pass of commit's inner loop keeps the stack's slots agreeing with
      the store. */
  lemma {:induction false} StepStaged(H: Hasher, kind: Kind, store: map<string, string>, s: seq<Node>, hex: string, value: string,
                                      v: string, pos: int)
    requires Sealed(H, kind, store) && Shaped(s) && 0 <= pos < |s| && StagedSealed(H, kind, store, s)
    ensures var st := PlaceStep(kind, store, s, hex, value, v, pos);
      st.Stop? || st.Down? ==> StagedSealed(H, kind, store, st.arena)
  {
    var cur := s[pos];
    assert Fits(cur, |s|);
    if !cur.isLeaf {
      var which := OfWhich(cur, hex);
      if kind == Prefix && cur.keys[which] == "" {
        assert PlaceStep(kind, store, s, hex, value, v, pos) == AddLeaf(kind, s, hex, value, v, pos, which);
        LeafStaged(H, kind, store, s, hex, value, v, pos, which);
      } else if cur.pointers[which] != -1 {
        assert PlaceStep(kind, store, s, hex, value, v, pos) == PlaceStaged(kind, s, hex, value, v, pos, which);
        StagedStaged(H, kind, store, s, hex, value, v, pos, which);
      } else if cur.keys[which] == "" {
        assert PlaceStep(kind, store, s, hex, value, v, pos) == AddLeaf(kind, s, hex, value, v, pos, which);
        LeafStaged(H, kind, store, s, hex, value, v, pos, which);
      } else {
        assert PlaceStep(kind, store, s, hex, value, v, pos) == PlaceUnstaged(kind, store, s, hex, value, v, pos, which);
        UnstagedStaged(H, kind, store, s, hex, value, v, pos, which);
      }
    }
  }

  lemma {:induction false} LeafStaged(H: Hasher, kind: Kind, store: map<string, string>, s: seq<Node>, hex: string, value: string,
                                      v: string, pos: int, which: int)
    requires Shaped(s) && 0 <= pos < |s| && !s[pos].isLeaf && 0 <= which < 16 && StagedSealed(H, kind, store, s)
    ensures StagedSealed(H, kind, store, AddLeaf(kind, s, hex, value, v, pos, which).arena)
  {
    assert Fits(s[pos], |s|);
    var leaf := NewLeaf(KeyFor(kind, hex, v), value);
    LinkStaged(H, kind, store, s, [leaf], pos, which, leaf.key, |s|);
  }

  /** A pass at a slot linked to a staged child. */
  lemma {:induction false} StagedStaged(H: Hasher, kind: Kind, store: map<string, string>, s: seq<Node>, hex: string, value: string,
                                        v: string, pos: int, which: int)
    requires Shaped(s) && 0 <= pos < |s| && !s[pos].isLeaf && 0 <= which < 16 && StagedSealed(H, kind, store, s)
    requires s[pos].pointers[which] != -1
    ensures var st := PlaceStaged(kind, s, hex, value, v, pos, which);
      st.Stop? || st.Down? ==> StagedSealed(H, kind, store, st.arena)
  {
    var cur := s[pos];
    assert Fits(cur, |s|);
    var p := cur.pointers[which];
    if IsPrefix(s[p].key, hex) {
      ValueStaged(H, kind, store, s, p, value);
    } else if !IsPrefixChild(cur, which, hex) {
      SplitLinkStaged(H, kind, store, s, hex, value, v, pos, which, p);
    }
  }

  /** A staged node given a new value stays staged. */
  lemma {:induction false} ValueStaged(H: Hasher, kind: Kind, store: map<string, string>, s: seq<Node>, p: int, value: string)
    requires 0 <= p < |s| && StagedSealed(H, kind, store, s)
    ensures StagedSealed(H, kind, store, s[p := s[p].(value := value)])
  {
    var s' := s[p := s[p].(value := value)];
    assert NodeStaged(H, kind, store, s[p]);
    forall r | 0 <= r < |s'| ensures NodeStaged(H, kind, store, s'[r]) {
      assert NodeStaged(H, kind, store, s[r]);
    }
  }

  /** A staged child p split off under a new branch beside a new leaf
      leaves the stack staged. */
  lemma {:induction false} SplitLinkStaged(H: Hasher, kind: Kind, store: map<string, string>, s: seq<Node>, hex: string,
                                           value: string, v: string, pos: int, which: int, p: int)
    requires 0 <= pos < |s| && 0 <= which < 16 && which < |s[pos].pointers| && which < |s[pos].keys| && 0 <= p < |s|
    requires StagedSealed(H, kind, store, s)
    ensures var b := SplitBranch(kind, hex, s[p].key, v, |s|);
      StagedSealed(H, kind, store, Link(s + [NewLeaf(KeyFor(kind, hex, v), value), b.(pointers := b.pointers[OfWhich(b, s[p].key) := p])],
                                        pos, which, b.key, |s| + 1))
  {
    var q := |s|;
    var leaf := NewLeaf(KeyFor(kind, hex, v), value);
    var b := SplitBranch(kind, hex, s[p].key, v, q);
    var w2 := OfWhich(b, s[p].key);
    SplitStaged(H, kind, store, hex, s[p].key, v, q, w2, p, b.hashes[w2]);
    assert b.hashes[w2 := b.hashes[w2]] == b.hashes;
    LinkStaged(H, kind, store, s, [leaf, b.(pointers := b.pointers[w2 := p])], pos, which, b.key, q + 1);
  }

  /** A pass at a slot holding an unstaged child's key. */
  lemma {:induction false} UnstagedStaged(H: Hasher, kind: Kind, store: map<string, string>, s: seq<Node>, hex: string, value: string,
                                          v: string, pos: int, which: int)
    requires Sealed(H, kind, store) && Shaped(s) && 0 <= pos < |s| && !s[pos].isLeaf && 0 <= which < 16
    requires StagedSealed(H, kind, store, s) && s[pos].pointers[which] == -1
    ensures var st := PlaceUnstaged(kind, store, s, hex, value, v, pos, which);
      st.Stop? || st.Down? ==> StagedSealed(H, kind, store, st.arena)
  {
    var cur := s[pos];
    assert Fits(cur, |s|);
    var q := |s|;
    var ck := cur.keys[which];
    if IsPrefix(ck, hex) {
      LeafStaged(H, kind, store, s, hex, value, v, pos, which);
    } else if !IsPrefixChild(cur, which, hex) {
      PlaceSplitStaged(H, kind, store, s, hex, value, v, pos, which);
    } else if Parse(kind, ck, ReadOr(store, ck, "")).Ok? {
      StoredStaged(H, kind, store, ck);
      var c := ChangeVersion(kind, Parse(kind, ck, ReadOr(store, ck, "")).value, v);
      LinkStaged(H, kind, store, s, [c], pos, which, c.key, q);
    }
  }

  /** The split below an unstaged child keeps the stack's slots agreeing
      with the store: the new branch's slot for the child takes the hash
      the parent's slot held. */
  lemma {:induction false} PlaceSplitStaged(H: Hasher, kind: Kind, store: map<string, string>, s: seq<Node>, hex: string, value: string,
                                            v: string, pos: int, which: int)
    requires Shaped(s) && 0 <= pos < |s| && !s[pos].isLeaf && 0 <= which < 16
    requires StagedSealed(H, kind, store, s) && s[pos].pointers[which] == -1
    ensures StagedSealed(H, kind, store, PlaceSplit(kind, s, hex, value, v, pos, which).arena)
  {
    var cur := s[pos];
    assert Fits(cur, |s|);
    var q := |s|;
    var ck := cur.keys[which];
    var leaf := NewLeaf(KeyFor(kind, hex, v), value);
    var b := SplitBranch(kind, hex, ck, v, q);
    var w2 := OfWhich(b, ck);
    var h := if kind == Prefix then cur.hashes[which] else b.hashes[w2];
    assert NodeStaged(H, kind, store, cur);
    SplitStaged(H, kind, store, hex, ck, v, q, w2, -1, h);
    assert b.pointers[w2 := b.pointers[w2]] == b.pointers;
    var b' := if kind == Prefix then b.(hashes := b.hashes[w2 := h]) else b;
    assert b' == b.(hashes := b.hashes[w2 := h], pointers := b.pointers[w2 := b.pointers[w2]]);
    LinkStaged(H, kind, store, s, [leaf, b'], pos, which, b.key, q + 1);
  }

  /** commit's inner loop keeps the stack's slots agreeing with the store. */
  lemma {:induction false} DescendStaged(H: Hasher, kind: Kind, store: map<string, string>, s: seq<Node>, hex: string,
                                         value: string, v: string, pos: int, cnt: nat)
    requires Sealed(H, kind, store) && Shaped(s) && 0 <= pos < |s| && StagedSealed(H, kind, store, s)
    ensures var r := Descend(kind, store, s, hex, value, v, pos, cnt);
      r.Ok? ==> StagedSealed(H, kind, store, r.value)
    decreases 41 - cnt
  {
    if cnt <= 40 {
      StepStaged(H, kind, store, s, hex, value, v, pos);
      var st := PlaceStep(kind, store, s, hex, value, v, pos);
      if st.Down? {
        DescendStaged(H, kind, store, st.arena, hex, value, v, st.at, cnt + 1);
      }
    }
  }

  /** commit's inner loop for one more pair (hex, value): it is not cut
      off, and afterwards hex reads as value and every other key as
      before. */
  lemma {:induction false} PlaceKeeps(H: Hasher, kind: Kind, store: map<string, string>, s: seq<Node>, pairs: seq<(string, string)>,
                                      key0: string, hex: string, value: string, v: string, height: int)
    requires Tidy(H, kind, store, height) && ArenaTrie(kind, store, s, height) && Rooted(s) && StagedSealed(H, kind, store, s)
    requires IsUpperHex(hex) && |hex| == height && 0 < height <= 41 && IsUpperHex(v)
    requires Promises(kind, store, s, pairs, store, key0, height)
    ensures Descend(kind, store, s, hex, value, v, 0, 0).Ok?
    ensures var s' := Descend(kind, store, s, hex, value, v, 0, 0).value;
      ArenaTrie(kind, store, s', height) && Rooted(s') && StagedSealed(H, kind, store, s')
      && Promises(kind, store, s', pairs + [(hex, value)], store, key0, height)
  {
    assert Reach(s[0]) == "";
    DescendPlaces(kind, store, s, s, hex, value, v, 0, 0, height);
    DescendStaged(H, kind, store, s, hex, value, v, 0, 0);
    var s' := Descend(kind, store, s, hex, value, v, 0, 0).value;
    forall k | |k| == height ensures Seek(kind, store, s', 0, k) == Expected(kind, pairs + [(hex, value)], store, key0, k) {
      assert (pairs + [(hex, value)])[..|pairs|] == pairs;
    }
  }

  // ---------------------------------------------------------------------
  // What _compute keeps

  /** Every node of s' is walked, over store', as the node at the same
      place of s is walked over store. */
  ghost predicate SameView(kind: Kind, store: map<string, string>, s: seq<Node>, store': map<string, string>, s': seq<Node>) {
    Shaped(s) && Shaped(s') && |s'| == |s|
    && forall r, k :: 0 <= r < |s| ==> Seek(kind, store', s', r, k) == Seek(kind, store, s, r, k)
  }

  lemma {:induction false} SameViewTrans(kind: Kind, store: map<string, string>, s: seq<Node>, store': map<string, string>,
                                         s': seq<Node>, store'': map<string, string>, s'': seq<Node>)
    requires SameView(kind, store, s, store', s') && SameView(kind, store', s', store'', s'')
    ensures SameView(kind, store, s, store'', s'')
  {
  }

  /** The state _compute works in: a tidy store and a stack that is a trie
      over it whose unlinked slots agree with it. */
  ghost predicate Orderly(H: Hasher, kind: Kind, store: map<string, string>, s: seq<Node>, height: int) {
    Tidy(H, kind, store, height) && ArenaTrie(kind, store, s, height) && StagedSealed(H, kind, store, s)
  }

  /** No record named at v has a prefix extending p: every key _compute
      makes below a node with prefix p is still free. */
  predicate Fresh(store: map<string, string>, v: string, p: string) {
    forall k :: k in store && TagOf(k) == v ==> !(p <= KeyPrefix(k))
  }

  /** Every record written between the two stores has a hex prefix that
      extends p by a digit below i. */
  predicate WrittenUnder(before: map<string, string>, after: map<string, string>, p: string, i: int) {
    forall k :: k in after && k !in before ==>
      IsUpperHex(KeyPrefix(k)) && |p| < |KeyPrefix(k)| && p <= KeyPrefix(k) && Hti(KeyPrefix(k)[|p|]) < i
  }

  /** Every record written between the two stores has a hex prefix that
      extends p by the digit i. */
  predicate WrittenIn(before: map<string, string>, after: map<string, string>, p: string, i: int) {
    forall k :: k in after && k !in before ==>
      IsUpperHex(KeyPrefix(k)) && |p| < |KeyPrefix(k)| && p <= KeyPrefix(k) && Hti(KeyPrefix(k)[|p|]) == i
  }

  /** Every record written between the two stores has a prefix extending
      that of n, a hex one unless n is the root. */
  predicate WrittenBelow(before: map<string, string>, after: map<string, string>, n: Node) {
    forall k :: k in after && k !in before ==> Reach(n) <= KeyPrefix(k) && (n.isRoot || IsUpperHex(KeyPrefix(k)))
  }

  /** Slot j of n as _compute leaves it: its hash is what the child under
      its key stands for, and is the piece RatCompact and RatPadding read
      from the child's record. */
  predicate SlotSealed(H: Hasher, kind: Kind, store: map<string, string>, n: Node, j: int)
    requires 0 <= j < |n.keys| && 0 <= j < |n.hashes|
  {
    n.hashes[j] == SlotDigest(H, kind, store, n.keys[j]) && SlotHash(kind, store, n, j) == n.hashes[j]
  }

  /** n's record is stored under its key and reads back as n. */
  predicate Stored(kind: Kind, store: map<string, string>, n: Node) {
    n.key in store && store[n.key] == ToString(kind, n) && Printable(kind, n) && (kind == Padding ==> |n.key| >= 64)
    && n.isRoot == (CharAt(n.key, 0) == '*') && (!n.isLeaf ==> n.keyLen == RatTree.Find(n.key, '-', 0))
  }

  // Walks

  /** A walk reads neither a staged node's hash nor its slots' hashes. */
  lemma {:induction false} SeekRestamped(kind: Kind, store: map<string, string>, s: seq<Node>, s': seq<Node>, r: int, k: string)
    requires Shaped(s) && Shaped(s') && |s'| == |s| && 0 <= r < |s|
    requires forall j :: 0 <= j < |s| ==> s'[j] == s[j].(hash := s'[j].hash, hashes := s'[j].hashes)
    ensures Seek(kind, store, s', r, k) == Seek(kind, store, s, r, k)
    decreases RatLookup.Gap(Reach(s[r]), k)
  {
    var n := s[r];
    assert s'[r] == n.(hash := s'[r].hash, hashes := s'[r].hashes) && Fits(n, |s|);
    assert OfWhich(s'[r], k) == OfWhich(n, k);
    if Reach(n) != k && Reach(n) <= k && !n.isLeaf {
      var p := n.pointers[OfWhich(n, k)];
      if p != -1 && |Reach(s[p])| > |Reach(n)| {
        SeekRestamped(kind, store, s, s', p, k);
      }
    }
  }

  /** Setting the hash of node pos, or of one of its slots, changes no walk. */
  lemma {:induction false} RestampKeeps(kind: Kind, store: map<string, string>, s: seq<Node>, s': seq<Node>, pos: int)
    requires Shaped(s) && 0 <= pos < |s| && |s'| == |s|
    requires s'[pos] == s[pos].(hash := s'[pos].hash, hashes := s'[pos].hashes) && |s'[pos].hashes| == |s[pos].hashes|
    requires forall j :: 0 <= j < |s| && j != pos ==> s'[j] == s[j]
    ensures Shaped(s') && SameView(kind, store, s, store, s')
  {
    forall j | 0 <= j < |s'| ensures Fits(s'[j], |s'|) {
      assert Fits(s[j], |s|);
    }
    forall r, k | 0 <= r < |s| ensures Seek(kind, store, s', r, k) == Seek(kind, store, s, r, k) {
      SeekRestamped(kind, store, s, s', r, k);
    }
  }

  /** Records added to a store of trie records change no walk over a stack
      that is a trie over it. */
  lemma {:induction false} SeekGrown(kind: Kind, store: map<string, string>, store': map<string, string>, s: seq<Node>, r: int,
                                     k: string, height: int)
    requires StoreTrie(kind, store, height) && RatLookup.Kept(store, store') && ArenaTrie(kind, store, s, height) && 0 <= r < |s|
    ensures Seek(kind, store', s, r, k) == Seek(kind, store, s, r, k)
    decreases RatLookup.Gap(Reach(s[r]), k)
  {
    var n := s[r];
    assert Fits(n, |s|) && StagedFits(kind, store, s, r, height);
    if Reach(n) != k && Reach(n) <= k && !n.isLeaf {
      var w := OfWhich(n, k);
      var p := n.pointers[w];
      if p == -1 {
        assert SlotFits(kind, store, s, r, w);
        BeneathKept(kind, store, store', Reach(n), n.keys[w], k, height);
      } else if |Reach(s[p])| > |Reach(n)| {
        SeekGrown(kind, store, store', s, p, k, height);
      }
    }
  }

  lemma {:induction false} GrownKeeps(kind: Kind, store: map<string, string>, store': map<string, string>, s: seq<Node>, height: int)
    requires StoreTrie(kind, store, height) && RatLookup.Kept(store, store') && ArenaTrie(kind, store, s, height)
    ensures SameView(kind, store, s, store', s)
  {
    forall r, k | 0 <= r < |s| ensures Seek(kind, store', s, r, k) == Seek(kind, store, s, r, k) {
      SeekGrown(kind, store, store', s, r, k, height);
    }
  }

  /** A stored node's record reads back as a node walked as it is. */
  lemma {:induction false} RecordSees(kind: Kind, store: map<string, string>, n: Node)
    requires Stored(kind, store, n)
    ensures Parse(kind, n.key, store[n.key]).Ok?
    ensures var m := Parse(kind, n.key, store[n.key]).value;
      Reach(m) == Reach(n) && m.isLeaf == n.isLeaf && m.isRoot == n.isRoot && (n.isLeaf ==> m.value == n.value)
      && (kind != Prefix ==> m.hash == n.hash) && (!n.isLeaf ==> m.keys == n.keys && (kind == Prefix ==> m.hashes == n.hashes))
      && forall k :: LookAt(kind, store, m, k) == LookAt(kind, store, n, k)
  {
    ParsePrinted(kind, n.key, n);
    var m := Parse(kind, n.key, store[n.key]).value;
    forall k ensures LookAt(kind, store, m, k) == LookAt(kind, store, n, k) {
      if !n.isLeaf {
        assert OfWhich(m, k) == OfWhich(n, k);
      }
    }
  }

  /** _compute's step for slot i of the branch pos: the link to a child
      whose record is stored gives way to the child's key, and no walk
      changes. */
  lemma {:induction false} UnlinkKeeps(kind: Kind, store: map<string, string>, s: seq<Node>, pos: int, i: int, h: string)
    requires Shaped(s) && 0 <= pos < |s| && !s[pos].isLeaf && 0 <= i < 16 && Fits(s[pos], |s|)
    requires var p := s[pos].pointers[i];
      p != -1 && s[p].pointers == RatTree.Unlinked() && Stored(kind, store, s[p]) && s[pos].keys[i] == s[p].key && s[p].key != ""
      && RatLookup.Extends(Reach(s[p]), Reach(s[pos]), i)
    ensures var cur := s[pos];
      SameView(kind, store, s, store, s[pos := cur.(hashes := cur.hashes[i := h], pointers := cur.pointers[i := -1])])
  {
    var cur := s[pos];
    var p := cur.pointers[i];
    var s' := s[pos := cur.(hashes := cur.hashes[i := h], pointers := cur.pointers[i := -1])];
    assert Fits(s'[pos], |s'|);
    assert Shaped(s');
    assert OfWhich(s'[pos], "") == OfWhich(cur, "");
    forall k ensures Seek(kind, store, s', pos, k) == Seek(kind, store, s, pos, k) {
      assert OfWhich(s'[pos], k) == OfWhich(cur, k);
      if Reach(cur) <= k && Reach(cur) != k {
        if OfWhich(cur, k) == i {
          SeekUnlinked(kind, store, s, p, k);
          RecordSees(kind, store, s[p]);
        } else {
          var q := cur.pointers[OfWhich(cur, k)];
          if q != -1 && |Reach(s[q])| > |Reach(cur)| {
            SeekAbove(kind, store, s, s', q, k, |Reach(cur)| + 1);
          }
        }
      }
    }
    forall r, k | 0 <= r < |s| ensures Seek(kind, store, s', r, k) == Seek(kind, store, s, r, k) {
      SeekAround(kind, store, s, s', pos, r, k);
    }
  }

  // Stores that grow

  /** A slot whose key the store holds, or an empty one, stands for the
      same once the store grows. */
  lemma {:induction false} SlotDigestKept(H: Hasher, kind: Kind, store: map<string, string>, store': map<string, string>, sk: string)
    requires RatLookup.Kept(store, store') && (sk == "" || sk in store)
    ensures SlotDigest(H, kind, store', sk) == SlotDigest(H, kind, store, sk)
  {
  }

  lemma {:induction false} SlotGrown(kind: Kind, store: map<string, string>, store': map<string, string>, p: string, i: int, sk: string)
    requires RatLookup.Kept(store, store') && Slot(kind, store, p, i, sk)
    ensures Slot(kind, store', p, i, sk)
  {
  }

  /** A node of the trie stays one, and keeps agreeing with the records
      below it, as records are added. */
  lemma {:induction false} NodeGrown(H: Hasher, kind: Kind, store: map<string, string>, store': map<string, string>, n: Node,
                                     height: int)
    requires RatLookup.Kept(store, store') && NodeTrie(kind, store, n, height)
    ensures NodeTrie(kind, store', n, height)
    ensures Consistent(H, kind, store, n) ==> Consistent(H, kind, store', n)
  {
    if !n.isLeaf {
      forall i | 0 <= i < 16
        ensures (n.keys[i] != "" ==> Slot(kind, store', Reach(n), i, n.keys[i]))
          && SlotHash(kind, store', n, i) == SlotHash(kind, store, n, i)
          && SlotDigest(H, kind, store', n.keys[i]) == SlotDigest(H, kind, store, n.keys[i])
      {
        if n.keys[i] != "" {
          SlotGrown(kind, store, store', Reach(n), i, n.keys[i]);
        }
      }
      assert SlotHashes(kind, store', n) == SlotHashes(kind, store, n);
    }
  }

  /** Records added to a tidy store leave every record it held a sealed
      node of the trie. */
  lemma {:induction false} RecordsGrown(H: Hasher, kind: Kind, store: map<string, string>, store': map<string, string>, height: int)
    requires Tidy(H, kind, store, height) && RatLookup.Kept(store, store')
    ensures forall key :: key in store ==> RecordTrie(kind, store', key, height) && RecordSealed(H, kind, store', key)
  {
    forall key | key in store ensures RecordTrie(kind, store', key, height) && RecordSealed(H, kind, store', key) {
      assert RecordTrie(kind, store, key, height) && RecordSealed(H, kind, store, key);
      NodeGrown(H, kind, store, store', Parse(kind, key, store[key]).value, height);
    }
  }

  /** A stack that is a trie over a store, with its unlinked slots
      agreeing with it, stays so as records are added. */
  lemma {:induction false} TrieGrown(H: Hasher, kind: Kind, store: map<string, string>, store': map<string, string>, s: seq<Node>,
                                     height: int)
    requires RatLookup.Kept(store, store') && ArenaTrie(kind, store, s, height) && StagedSealed(H, kind, store, s)
    ensures ArenaTrie(kind, store', s, height) && StagedSealed(H, kind, store', s)
  {
    forall r, i | 0 <= r < |s| && !s[r].isLeaf && 0 <= i < 16
      ensures SlotFits(kind, store', s, r, i)
      ensures s[r].pointers[i] == -1 ==> SlotDigest(H, kind, store', s[r].keys[i]) == SlotDigest(H, kind, store, s[r].keys[i])
    {
      assert StagedFits(kind, store, s, r, height) && SlotFits(kind, store, s, r, i);
      if s[r].pointers[i] == -1 && s[r].keys[i] != "" {
        SlotGrown(kind, store, store', Reach(s[r]), i, s[r].keys[i]);
      }
    }
    forall r | 0 <= r < |s| ensures StagedFits(kind, store', s, r, height) && NodeStaged(H, kind, store', s[r]) {
      assert StagedFits(kind, store, s, r, height) && NodeStaged(H, kind, store, s[r]);
    }
  }

  /** A stack stays a trie over the store when one node's hash, or in
      RatCompact and RatPadding its slots' hashes, change. */
  lemma {:induction false} TrieRestamped(H: Hasher, kind: Kind, store: map<string, string>, s: seq<Node>, s': seq<Node>, pos: int,
                                         height: int)
    requires ArenaTrie(kind, store, s, height) && StagedSealed(H, kind, store, s) && 0 <= pos < |s| && |s'| == |s|
    requires s'[pos] == s[pos].(hash := s'[pos].hash, hashes := s'[pos].hashes) && |s'[pos].hashes| == |s[pos].hashes|
    requires kind == Prefix ==> s'[pos].hashes == s[pos].hashes
    requires forall j :: 0 <= j < |s| && j != pos ==> s'[j] == s[j]
    ensures ArenaTrie(kind, store, s', height) && StagedSealed(H, kind, store, s')
  {
    RestampKeeps(kind, store, s, s', pos);
    forall r | 0 <= r < |s'| ensures StagedFits(kind, store, s', r, height) && NodeStaged(H, kind, store, s'[r]) {
      assert StagedFits(kind, store, s, r, height) && NodeStaged(H, kind, store, s[r]);
      if !s[r].isLeaf {
        forall i | 0 <= i < 16 ensures SlotFits(kind, store, s', r, i) {
          assert SlotFits(kind, store, s, r, i);
        }
      }
    }
  }

  // _compute's write

  /** A branch all of whose slots _compute has finished. */
  predicate AllSealed(H: Hasher, kind: Kind, store: map<string, string>, n: Node) {
    !n.isLeaf ==> |n.keys| == 16 && |n.hashes| == 16 && forall j :: 0 <= j < 16 ==> SlotSealed(H, kind, store, n, j)
  }

  /** The record of a hashed node of the trie, written under its key,
      reads back as a node of the trie that agrees with the records below
      it and stands for the node's hash. */
  lemma {:induction false} WrittenRecord(H: Hasher, kind: Kind, store: map<string, string>, s: seq<Node>, pos: int, height: int)
    requires ArenaTrie(kind, store, s, height) && 0 <= pos < |s| && s[pos].pointers == RatTree.Unlinked()
    requires AllSealed(H, kind, store, s[pos]) && s[pos].key !in store && (kind == Padding ==> |s[pos].key| >= 64)
    ensures var n := s[pos].(hash := NodeHash(H, s[pos]));
      var store' := store[n.key := ToString(kind, n)];
      Stored(kind, store', n) && ChildDigest(H, kind, store', n.key) == n.hash
      && RecordTrie(kind, store', n.key, height) && RecordSealed(H, kind, store', n.key)
  {
    var n := s[pos].(hash := NodeHash(H, s[pos]));
    var store' := store[n.key := ToString(kind, n)];
    assert StagedFits(kind, store, s, pos, height);
    assert Sized(kind, n, height);
    assert Stored(kind, store', n);
    RecordSees(kind, store', n);
    var m := Parse(kind, n.key, store'[n.key]).value;
    if !n.isLeaf {
      forall i | 0 <= i < 16
        ensures n.keys[i] != "" ==> Slot(kind, store', Reach(m), i, m.keys[i])
        ensures SlotHash(kind, store', m, i) == n.hashes[i] == SlotDigest(H, kind, store', m.keys[i])
      {
        assert SlotFits(kind, store, s, pos, i) && SlotSealed(H, kind, store, s[pos], i);
        if n.keys[i] != "" {
          SlotGrown(kind, store, store', Reach(n), i, n.keys[i]);
        }
      }
      assert SlotHashes(kind, store', m) == n.hashes;
    }
    assert NodeTrie(kind, store', m, height);
    assert Consistent(H, kind, store', m);
  }

  /** A store stays tidy when a record that reads back as a sealed node of
      the trie is added under a new key other than the empty one. */
  lemma {:induction false} TidyWrite(H: Hasher, kind: Kind, store: map<string, string>, key: string, r: string, height: int)
    requires Tidy(H, kind, store, height) && key !in store && key != ""
    requires RecordTrie(kind, store[key := r], key, height) && RecordSealed(H, kind, store[key := r], key)
    ensures Tidy(H, kind, store[key := r], height)
  {
    var store' := store[key := r];
    RecordsGrown(H, kind, store, store', height);
    assert forall k :: k in store' ==> k in store || k == key;
  }

  /** _compute's write of node pos, hashed, under its key, which no record
      holds: the store stays tidy and the stack a trie over it, nothing
      stored before changes, no walk changes, and the record reads back as
      the node and stands for its hash. */
  lemma {:induction false} WriteStep(H: Hasher, kind: Kind, store: map<string, string>, s: seq<Node>, pos: int, height: int)
    requires Orderly(H, kind, store, s, height) && 0 <= pos < |s| && s[pos].pointers == RatTree.Unlinked()
    requires AllSealed(H, kind, store, s[pos]) && s[pos].key !in store && s[pos].key != ""
    requires kind == Padding ==> |s[pos].key| >= 64
    ensures var n := s[pos].(hash := NodeHash(H, s[pos]));
      var store' := store[n.key := ToString(kind, n)];
      Orderly(H, kind, store', s[pos := n], height) && RatLookup.Kept(store, store')
      && SameView(kind, store, s, store', s[pos := n]) && Stored(kind, store', n) && ChildDigest(H, kind, store', n.key) == n.hash
  {
    var n := s[pos].(hash := NodeHash(H, s[pos]));
    var store' := store[n.key := ToString(kind, n)];
    var s' := s[pos := n];
    WrittenRecord(H, kind, store, s, pos, height);
    TidyWrite(H, kind, store, n.key, ToString(kind, n), height);
    GrownKeeps(kind, store, store', s, height);
    TrieGrown(H, kind, store, store', s, height);
    TrieRestamped(H, kind, store', s, s', pos, height);
    RestampKeeps(kind, store', s, s', pos);
    SameViewTrans(kind, store, s, store', s, store', s');
  }

  // _compute's slots

  /** _compute's step for a linked slot i of the branch pos, once the
      child is written: the slot takes the child's hash and drops the link.
      The store stays tidy and the stack a trie over it, no walk changes,
      and the slot now agrees with the child's record. */
  lemma {:induction false} UnlinkStep(H: Hasher, kind: Kind, store: map<string, string>, s: seq<Node>, pos: int, i: int, height: int)
    requires Orderly(H, kind, store, s, height) && 0 <= pos < |s| && !s[pos].isLeaf && 0 <= i < 16
    requires Fits(s[pos], |s|) && s[pos].pointers[i] != -1
    requires var c := s[s[pos].pointers[i]];
      c.pointers == RatTree.Unlinked() && Stored(kind, store, c) && ChildDigest(H, kind, store, c.key) == c.hash && IsDigest(c.hash)
    ensures var cur := s[pos]; var h := s[cur.pointers[i]].hash;
      var s' := s[pos := cur.(hashes := cur.hashes[i := h], pointers := cur.pointers[i := -1])];
      Orderly(H, kind, store, s', height) && SameView(kind, store, s, store, s') && SlotSealed(H, kind, store, s'[pos], i)
  {
    var cur := s[pos];
    var c := s[cur.pointers[i]];
    assert StagedFits(kind, store, s, pos, height) && SlotFits(kind, store, s, pos, i);
    UnlinkKeeps(kind, store, s, pos, i, c.hash);
    UnlinkTrie(H, kind, store, s, pos, i, height);
    UnlinkSealed(H, kind, store, cur, c, i);
  }

  /** The stack stays a trie over the store when a linked slot whose
      child's record is written takes the child's hash and drops the link. */
  lemma {:induction false} UnlinkTrie(H: Hasher, kind: Kind, store: map<string, string>, s: seq<Node>, pos: int, i: int, height: int)
    requires ArenaTrie(kind, store, s, height) && StagedSealed(H, kind, store, s) && "" !in store
    requires 0 <= pos < |s| && !s[pos].isLeaf && 0 <= i < 16 && Fits(s[pos], |s|) && s[pos].pointers[i] != -1
    requires var c := s[s[pos].pointers[i]];
      Stored(kind, store, c) && ChildDigest(H, kind, store, c.key) == c.hash && IsDigest(c.hash)
    ensures var cur := s[pos]; var h := s[cur.pointers[i]].hash;
      var s' := s[pos := cur.(hashes := cur.hashes[i := h], pointers := cur.pointers[i := -1])];
      ArenaTrie(kind, store, s', height) && StagedSealed(H, kind, store, s')
  {
    var cur := s[pos];
    var c := s[cur.pointers[i]];
    var h := c.hash;
    var s' := s[pos := cur.(hashes := cur.hashes[i := h], pointers := cur.pointers[i := -1])];
    assert StagedFits(kind, store, s, pos, height) && SlotFits(kind, store, s, pos, i);
    RecordSees(kind, store, c);
    RatTree.FieldHasNoComma(h);
    assert Slot(kind, store, Reach(cur), i, c.key);
    assert Fits(s'[pos], |s'|);
    assert Shaped(s') && Sized(kind, s'[pos], height);
    forall r | 0 <= r < |s'| ensures StagedFits(kind, store, s', r, height) && NodeStaged(H, kind, store, s'[r]) {
      assert StagedFits(kind, store, s, r, height) && NodeStaged(H, kind, store, s[r]);
      UnlinkOther(H, kind, store, s, s', pos, i, r, height);
    }
  }

  /** One node of the stack after UnlinkTrie's update: every slot still fits. */
  lemma {:induction false} UnlinkOther(H: Hasher, kind: Kind, store: map<string, string>, s: seq<Node>, s': seq<Node>, pos: int, i: int, r: int, height: int)
    requires Shaped(s) && 0 <= pos < |s| && !s[pos].isLeaf && 0 <= i < 16 && s[pos].pointers[i] != -1
    requires var cur := s[pos]; var h := s[cur.pointers[i]].hash;
      s' == s[pos := cur.(hashes := cur.hashes[i := h], pointers := cur.pointers[i := -1])]
    requires Shaped(s') && Sized(kind, s'[pos], height) && Slot(kind, store, Reach(s[pos]), i, s[s[pos].pointers[i]].key)
    requires 0 <= r < |s| && StagedFits(kind, store, s, r, height)
    ensures StagedFits(kind, store, s', r, height)
  {
    if !s[r].isLeaf {
      forall j | 0 <= j < 16 ensures SlotFits(kind, store, s', r, j) {
        assert SlotFits(kind, store, s, r, j);
      }
    }
  }

  /** A slot that takes the hash of the child whose record is written under
      the slot's key agrees with that record. */
  lemma {:induction false} UnlinkSealed(H: Hasher, kind: Kind, store: map<string, string>, cur: Node, c: Node, i: int)
    requires |cur.keys| == 16 && |cur.hashes| == 16 && 0 <= i < 16 && cur.keys[i] == c.key && "" !in store
    requires Stored(kind, store, c) && ChildDigest(H, kind, store, c.key) == c.hash
    ensures SlotSealed(H, kind, store, cur.(hashes := cur.hashes[i := c.hash]), i)
  {
    if kind != Prefix {
      assert store[c.key] == c.hash + store[c.key][64..];
    }
  }

  /** _compute's step for an unlinked slot i of the branch pos: RatPrefix
      keeps the hash the slot carries, the other two read the piece at the
      head of the child's record. The store stays tidy and the stack a trie
      over it, no walk changes, and the slot agrees with the child's record. */
  lemma {:induction false} PieceStep(H: Hasher, kind: Kind, store: map<string, string>, s: seq<Node>, pos: int, i: int, height: int)
    requires Orderly(H, kind, store, s, height) && 0 <= pos < |s| && !s[pos].isLeaf && 0 <= i < 16
    requires Fits(s[pos], |s|) && s[pos].pointers[i] == -1
    ensures var cur := s[pos];
      var h := if kind == Prefix then cur.hashes[i] else Chunk(ReadOr(store, cur.keys[i], ""), 0);
      var s' := s[pos := cur.(hashes := cur.hashes[i := h])];
      Orderly(H, kind, store, s', height) && SameView(kind, store, s, store, s') && SlotSealed(H, kind, store, s'[pos], i)
  {
    var cur := s[pos];
    var h := if kind == Prefix then cur.hashes[i] else Chunk(ReadOr(store, cur.keys[i], ""), 0);
    var s' := s[pos := cur.(hashes := cur.hashes[i := h])];
    assert StagedFits(kind, store, s, pos, height) && SlotFits(kind, store, s, pos, i) && NodeStaged(H, kind, store, cur);
    RestampKeeps(kind, store, s, s', pos);
    TrieRestamped(H, kind, store, s, s', pos, height);
    if kind != Prefix && cur.keys[i] != "" {
      PieceIsDigest(H, kind, store, s'[pos], i);
    }
  }

  /** A finished slot stays finished as records are added, when its key
      is stored or empty. */
  lemma {:induction false} SlotSealedKept(H: Hasher, kind: Kind, store: map<string, string>, store': map<string, string>,
                                          n: Node, n': Node, j: int)
    requires RatLookup.Kept(store, store') && 0 <= j < |n.keys| && 0 <= j < |n.hashes| && 0 <= j < |n'.keys| && 0 <= j < |n'.hashes|
    requires n'.keys[j] == n.keys[j] && n'.hashes[j] == n.hashes[j] && (n.keys[j] == "" || n.keys[j] in store)
    requires SlotSealed(H, kind, store, n, j)
    ensures SlotSealed(H, kind, store', n', j)
  {
  }

  /** The slots of the branch pos finished before slot i stay finished
      while slot i is computed. */
  lemma {:induction false} SlotsGrown(H: Hasher, kind: Kind, mid: map<string, string>, store: map<string, string>, was: seq<Node>,
                                      out: seq<Node>, pos: int, i: int)
    requires Orderly(H, kind, mid, was, RatLookup.KeyDigits) && RatLookup.Kept(mid, store)
    requires 0 <= pos < |was| && !was[pos].isLeaf && 0 <= i < 16 && |out| == |was| && Fits(was[pos], |was|)
    requires forall j :: 0 <= j < i ==> was[pos].pointers[j] == -1
    requires |out[pos].hashes| == 16
    requires out[pos] == was[pos].(hashes := was[pos].hashes[i := out[pos].hashes[i]], pointers := was[pos].pointers[i := -1])
    requires forall j :: 0 <= j < i ==> SlotSealed(H, kind, mid, was[pos], j)
    requires SlotSealed(H, kind, store, out[pos], i)
    ensures forall j :: 0 <= j < i + 1 ==> SlotSealed(H, kind, store, out[pos], j)
  {
    forall j | 0 <= j < i ensures SlotSealed(H, kind, store, out[pos], j) {
      assert StagedFits(kind, mid, was, pos, RatLookup.KeyDigits) && SlotFits(kind, mid, was, pos, j);
      SlotSealedKept(H, kind, mid, store, was[pos], out[pos], j);
    }
  }

  // The keys _compute writes

  /** No record named at v has a prefix extending a linked child of slot
      i, once every record written since the branch was fresh lies under
      an earlier slot. */
  predicate ChildFresh(store: map<string, string>, v: string, s: seq<Node>, pos: int, i: int)
    requires Shaped(s) && 0 <= pos < |s| && !s[pos].isLeaf && 0 <= i < 16
  {
    assert Fits(s[pos], |s|);
    s[pos].pointers[i] != -1 ==> Fresh(store, v, Reach(s[s[pos].pointers[i]]))
  }

  /** The child in slot i of a branch that was fresh is fresh, once every
      record written since lies under an earlier slot. */
  lemma {:induction false} FreshChild(store0: map<string, string>, store: map<string, string>, v: string, p: string, i: int, c: string)
    requires Fresh(store0, v, p) && WrittenUnder(store0, store, p, i) && RatLookup.Extends(c, p, i)
    ensures Fresh(store, v, c)
  {
  }

  /** Before slot i of the branch pos is computed, its linked child has
      no record of the new version under it. */
  /** What _compute's loop keeps over a tidy store once slots 0 to i-1 of
      the node at pos are done: the stack is still a sealed trie, no record
      was overwritten, every walk reads as it did, every new record lies
      under one of those slots, and each of them agrees with its child. */
  ghost predicate ChildrenTidy(H: Hasher, kind: Kind, store0: map<string, string>, stack: seq<Node>, store: map<string, string>,
                               out: seq<Node>, pos: int, i: int)
    requires 0 <= pos < |stack| && 0 <= pos < |out| && 0 <= i <= 16 && |out[pos].keys| == 16 && |out[pos].hashes| == 16
  {
    Orderly(H, kind, store, out, RatLookup.KeyDigits) && RatLookup.Kept(store0, store)
    && SameView(kind, store0, stack, store, out) && WrittenUnder(store0, store, Reach(stack[pos]), i)
    && forall j :: 0 <= j < i ==> SlotSealed(H, kind, store, out[pos], j)
  }

  /** What one pass of _compute's loop over slot i promises over a tidy
      store: the stack is still a sealed trie, no record was overwritten,
      every walk reads as it did, every new record lies under slot i, and
      slot i agrees with its child. */
  ghost predicate SlotTidy(H: Hasher, kind: Kind, before: map<string, string>, s: seq<Node>, after: map<string, string>,
                           out: seq<Node>, pos: int, i: int)
    requires 0 <= pos < |s| && 0 <= pos < |out| && 0 <= i < 16 && |out[pos].keys| == 16 && |out[pos].hashes| == 16
  {
    Orderly(H, kind, after, out, RatLookup.KeyDigits) && RatLookup.Kept(before, after)
    && SameView(kind, before, s, after, out) && WrittenIn(before, after, Reach(s[pos]), i)
    && SlotSealed(H, kind, after, out[pos], i)
  }

  /** Before _compute's loop, with no slot done, ChildrenTidy holds of a
      sealed trie. */
  lemma {:induction false} ChildrenStart(H: Hasher, kind: Kind, store: map<string, string>, stack: seq<Node>, pos: int)
    requires Orderly(H, kind, store, stack, RatLookup.KeyDigits) && 0 <= pos < |stack|
    requires |stack[pos].keys| == 16 && |stack[pos].hashes| == 16
    ensures ChildrenTidy(H, kind, store, stack, store, stack, pos, 0)
  {
    assert Shaped(stack);
  }

  /** One pass of _compute's loop keeps ChildrenTidy, given what the pass
      promises about slot i. */
  lemma {:induction false} ChildrenStep(H: Hasher, kind: Kind, store0: map<string, string>, stack: seq<Node>, mid: map<string, string>,
                                        was: seq<Node>, store: map<string, string>, out: seq<Node>, pos: int, i: int)
    requires 0 <= pos < |stack| && |was| == |stack| && |out| == |stack| && !was[pos].isLeaf && 0 <= i < 16 && Fits(was[pos], |was|)
    requires |was[pos].keys| == 16 && |was[pos].hashes| == 16 && |out[pos].hashes| == 16 && Reach(was[pos]) == Reach(stack[pos])
    requires forall j :: 0 <= j < i ==> was[pos].pointers[j] == -1
    requires out[pos] == was[pos].(hashes := was[pos].hashes[i := out[pos].hashes[i]], pointers := was[pos].pointers[i := -1])
    requires ChildrenTidy(H, kind, store0, stack, mid, was, pos, i) && SlotTidy(H, kind, mid, was, store, out, pos, i)
    ensures ChildrenTidy(H, kind, store0, stack, store, out, pos, i + 1)
  {
    SlotsGrown(H, kind, mid, store, was, out, pos, i);
    SameViewTrans(kind, store0, stack, mid, was, store, out);
    WrittenGrows(store0, mid, store, Reach(stack[pos]), i);
  }

  lemma {:induction false} ChildReady(H: Hasher, kind: Kind, store0: map<string, string>, store: map<string, string>, v: string,
                                      s: seq<Node>, pos: int, i: int)
    requires Orderly(H, kind, store, s, RatLookup.KeyDigits) && 0 <= pos < |s| && !s[pos].isLeaf && 0 <= i < 16
    requires Fresh(store0, v, Reach(s[pos])) && WrittenUnder(store0, store, Reach(s[pos]), i)
    ensures ChildFresh(store, v, s, pos, i)
  {
    assert Fits(s[pos], |s|);
    assert StagedFits(kind, store, s, pos, RatLookup.KeyDigits) && SlotFits(kind, store, s, pos, i);
    var p := s[pos].pointers[i];
    if p != -1 {
      FreshChild(store0, store, v, Reach(s[pos]), i, Reach(s[p]));
    }
  }

  /** Everything a linked child's _compute writes lies under the child's
      slot. */
  lemma {:induction false} WrittenChild(before: map<string, string>, after: map<string, string>, c: Node, p: string, i: int)
    requires WrittenBelow(before, after, c) && RatLookup.Extends(Reach(c), p, i)
    ensures WrittenIn(before, after, p, i)
  {
    forall k | k in after && k !in before
      ensures IsUpperHex(KeyPrefix(k)) && |p| < |KeyPrefix(k)| && p <= KeyPrefix(k) && Hti(KeyPrefix(k)[|p|]) == i
    {
      assert KeyPrefix(k)[|p|] == Reach(c)[|p|];
    }
  }

  lemma {:induction false} WrittenGrows(a: map<string, string>, b: map<string, string>, c: map<string, string>, p: string, i: int)
    requires WrittenUnder(a, b, p, i) && WrittenIn(b, c, p, i)
    ensures WrittenUnder(a, c, p, i + 1)
  {
  }

  /** The key of a node of the trie named at v is free when no record
      named at v has a prefix extending the node's and every record written
      since extends it further by a hex digit. */
  lemma {:induction false} KeyFree(kind: Kind, store0: map<string, string>, store: map<string, string>, n: Node, v: string,
                                   height: int)
    requires Sized(kind, n, height) && Named(kind, n.key, v) && Fresh(store0, v, Reach(n)) && WrittenUnder(store0, store, Reach(n), 16)
    ensures n.key !in store
  {
  }

  /** What a node's _compute writes: its children's records, under its
      prefix, and its own, under its key. */
  lemma {:induction false} WrittenOwn(kind: Kind, store0: map<string, string>, store: map<string, string>, n: Node, r: string,
                                      height: int)
    requires Sized(kind, n, height) && WrittenUnder(store0, store, Reach(n), 16)
    ensures WrittenBelow(store0, store[n.key := r], n)
  {
    KeyPrefixOf(n.key);
  }

  // ---------------------------------------------------------------------
  // After commit

  /** The store init writes is tidy, and its root record, a root branch
      under the root key of version 0, stands for the hash of "". */
  lemma {:induction false} InitTidy(H: Hasher, kind: Kind, height: int)
    requires height > 0
    ensures var store := map[RootKey(kind, "0") := InitRecord(H, kind)];
      Tidy(H, kind, store, height) && RootedAt(kind, store, RootKey(kind, "0")) && RootAt(H, kind, store, RootKey(kind, "0")) == Hash(H, "")
  {
    var key := RootKey(kind, "0");
    var store := map[key := InitRecord(H, kind)];
    InitRootReads(H, kind);
    RootKeyDash(kind, "0");
    InitTrie(H, kind, store, height);
    InitSealed(H, kind, store);
    OneRecord(H, kind, key, InitRecord(H, kind), InitRoot(H, kind), height);
  }

  /** A store of one record, a root branch that is a node of the trie and
      agrees with the store, is tidy and rooted at that record. */
  lemma {:induction false} OneRecord(H: Hasher, kind: Kind, key: string, record: string, n: Node, height: int)
    requires key != "" && Parse(kind, key, record) == Ok(n) && n.isRoot && !n.isLeaf
    requires NodeTrie(kind, map[key := record], n, height) && Consistent(H, kind, map[key := record], n)
    ensures Tidy(H, kind, map[key := record], height) && RootedAt(kind, map[key := record], key)
    ensures RootAt(H, kind, map[key := record], key) == RootDigest(H, kind, n)
  {
    var store := map[key := record];
    assert RecordTrie(kind, store, key, height) && RecordSealed(H, kind, store, key);
  }

  /** The first root is a node of a trie over any store: all its slots are empty. */
  lemma {:induction false} InitTrie(H: Hasher, kind: Kind, store: map<string, string>, height: int)
    requires height > 0
    ensures NodeTrie(kind, store, InitRoot(H, kind), height)
  {
    var n := InitRoot(H, kind);
    InitPrintable(H, kind);
    RootKeyDash(kind, "0");
    assert CharAt(n.key, 0) == '*';
  }

  /** The first root agrees with any store: it hashes sixteen empty pieces. */
  lemma {:induction false} InitSealed(H: Hasher, kind: Kind, store: map<string, string>)
    ensures Consistent(H, kind, store, InitRoot(H, kind))
  {
    var n := InitRoot(H, kind);
    RatTree.JoinEmpty(Blanks());
    assert SlotHashes(kind, store, n) == Blanks();
  }

  /** The store init writes holds only the record of version 0. */
  lemma {:induction false} InitVersioned(H: Hasher, kind: Kind)
    ensures Versioned(map[RootKey(kind, "0") := InitRecord(H, kind)], 0)
  {
    TagOfKey(kind, "*", "0");
    assert TagOf(RootKey(kind, "0")) == StrVer(0);
  }

  /** No record names the version after one the store is versioned up to. */
  lemma {:induction false} NoneNamed(store: map<string, string>, version: nat)
    requires Versioned(store, version)
    ensures Fresh(store, StrVer(version + 1), "")
  {
    forall k | k in store ensures TagOf(k) != StrVer(version + 1) {
    }
  }

  /** What commit leaves: a tidy store whose root record under key is a
      root branch and reads every key as the pairs committed over the trie
      under key0 make it read. */
  ghost predicate Committed(H: Hasher, kind: Kind, store: map<string, string>, key: string, pairs: seq<(string, string)>,
                            store0: map<string, string>, key0: string, height: int) {
    Tidy(H, kind, store, height) && RootedAt(kind, store, key)
    && forall k :: |k| == height ==> Look(kind, store, key, k) == Expected(kind, pairs, store0, key0, k)
  }

  /** commit's last step: once _compute has settled the root of a stack
      that read every key as the pending pairs say, the root's record reads
      every key so, and stands for the root's hash. */
  lemma {:induction false} SettledRoot(H: Hasher, kind: Kind, store0: map<string, string>, stack: seq<Node>,
                                       store: map<string, string>, out: seq<Node>, pairs: seq<(string, string)>, key0: string,
                                       height: int)
    requires Tidy(H, kind, store, height) && SameView(kind, store0, stack, store, out)
    requires Promises(kind, store0, stack, pairs, store0, key0, height)
    requires |out| > 0 && out[0].isRoot && !out[0].isLeaf && out[0].pointers == RatTree.Unlinked()
    requires Stored(kind, store, out[0]) && ChildDigest(H, kind, store, out[0].key) == out[0].hash
    ensures Committed(H, kind, store, out[0].key, pairs, store0, key0, height)
    ensures RootAt(H, kind, store, out[0].key) == out[0].hash
  {
    RecordSees(kind, store, out[0]);
    forall k | |k| == height ensures Look(kind, store, out[0].key, k) == Expected(kind, pairs, store0, key0, k) {
      SeekUnlinked(kind, store, out, 0, k);
    }
  }

  /** gen_proof, then verify_proof, over a tidy store: a key that the
      trie under a root key reads as a leaf holding value has a proof that
      gen_proof finds within its bound and that verify_proof accepts for
      value against what the root stands for. */
  lemma {:induction false} HeldVerifies(H: Hasher, kind: Kind, store: map<string, string>, key: string, k: string,
                                        value: string, height: int)
    requires Tidy(H, kind, store, height) && RootedAt(kind, store, key)
    requires IsUpperHex(k) && |k| == height && Look(kind, store, key, k) == RatLookup.Holds(value)
    ensures var w := Walk(kind, store, key, k, |k| + 1);
      w.Ok? && w.value.Found? && ProofText(w).Ok? && Verify(H, RootAt(H, kind, store, key), value, ProofText(w).value)
  {
    var root := Parse(kind, key, store[key]).value;
    var rungs := WalkFolds(H, kind, store, key, root, k, value, |k| + 1, height);
    WalkVerifies(H, rungs, value, RootAt(H, kind, store, key));
  }

  /** commit, then gen_proof, then verify_proof: once the trie under a
      root key reads every key as the committed pairs say, a key that a
      pair of this commit gave value last, or that held value before and
      no pair touched, has a proof gen_proof finds and verify_proof
      accepts for value against what the root stands for. */
  lemma {:induction false} CommittedVerifies(H: Hasher, kind: Kind, store: map<string, string>, key: string,
                                             pairs: seq<(string, string)>, store0: map<string, string>, key0: string,
                                             k: string, value: string, height: int)
    requires Committed(H, kind, store, key, pairs, store0, key0, height)
    requires IsUpperHex(k) && |k| == height && Expected(kind, pairs, store0, key0, k) == RatLookup.Holds(value)
    ensures var w := Walk(kind, store, key, k, |k| + 1);
      w.Ok? && w.value.Found? && ProofText(w).Ok? && Verify(H, RootAt(H, kind, store, key), value, ProofText(w).value)
  {
    assert Look(kind, store, key, k) == Expected(kind, pairs, store0, key0, k);
    HeldVerifies(H, kind, store, key, k, value, height);
  }
}
