// The commit of the versioned tries of rattree.hpp (RatPrefix, RatCompact,
// RatPadding): the listed updates are placed into an arena of staged nodes
// (the source's `stack`), every staged node named under the new version,
// and _compute then hashes and writes the staged nodes children first.
// Records of older versions are never written again.
module VersionedTree {
  import opened Results
  import opened Tools
  import opened IO
  import opened Proof16
  import RatTree
  import opened RatVersioned

  // ---------------------------------------------------------------------
  // The arena

  /** A node fitting an arena of `size` nodes: sixteen links, each -1 or an
      index; a leaf links nowhere; a branch has sixteen keys and hashes. */
  predicate Fits(n: Node, size: int) {
    |n.pointers| == 16 && (forall i :: 0 <= i < 16 ==> -1 <= n.pointers[i] < size)
    && (n.isLeaf ==> n.pointers == RatTree.Unlinked())
    && (!n.isLeaf ==> |n.keys| == 16 && |n.hashes| == 16)
  }

  predicate Shaped(stack: seq<Node>) {
    forall i :: 0 <= i < |stack| ==> Fits(stack[i], |stack|)
  }

  /** Links run from a higher rank to a lower one, so following them ends. */
  predicate Arena(stack: seq<Node>, rank: seq<real>) {
    Shaped(stack) && |rank| == |stack|
    && forall i, j :: 0 <= i < |stack| && 0 <= j < 16 && stack[i].pointers[j] != -1 ==>
         rank[stack[i].pointers[j]] < rank[i]
  }

  /** A key written at version v: it names v, and in RatPadding it is
      padded to 64 characters. */
  predicate Named(kind: Kind, k: string, v: string) {
    TagOf(k) == v && (kind == Padding ==> |k| >= 64)
  }

  /** Every staged node is named at the new version. */
  predicate Tagged(kind: Kind, stack: seq<Node>, v: string) {
    forall i :: 0 <= i < |stack| ==> Named(kind, stack[i].key, v)
  }

  /** The nodes of `stack` keep their keys in `stack'`. */
  predicate KeysKept(stack: seq<Node>, stack': seq<Node>) {
    |stack| <= |stack'| && forall i :: 0 <= i < |stack| ==> stack'[i].key == stack[i].key
  }

  ghost function Below(rank: seq<real>, r: real): set<int> {
    set i | 0 <= i < |rank| && rank[i] < r
  }

  lemma {:induction false} BelowShrinks(rank: seq<real>, p: int, pos: int)
    requires 0 <= p < |rank| && 0 <= pos < |rank| && rank[p] < rank[pos]
    ensures Below(rank, rank[p]) < Below(rank, rank[pos])
  {
    assert p in Below(rank, rank[pos]) && p !in Below(rank, rank[p]);
  }

  // ---------------------------------------------------------------------
  // Placing one update: the body of commit's inner loop

  datatype Step = Stop(arena: seq<Node>) | Down(arena: seq<Node>, at: int) | Fail(error: Failure)

  /** The node at pos with slot `which` holding key k and linked to the node
      at `target`. */
  function Link(stack: seq<Node>, pos: int, which: int, k: string, target: int): (s: seq<Node>)
    requires 0 <= pos < |stack| && 0 <= which < |stack[pos].pointers| && 0 <= which < |stack[pos].keys|
    ensures |s| == |stack|
  {
    stack[pos := stack[pos].(keys := stack[pos].keys[which := k], pointers := stack[pos].pointers[which := target])]
  }

  lemma {:induction false} FitsGrows(n: Node, size: int, size': int)
    requires Fits(n, size) && size <= size'
    ensures Fits(n, size')
  {
  }

  /** Staging new nodes and linking a branch to one keeps the arena shaped. */
  lemma {:induction false} ShapedLink(stack: seq<Node>, added: seq<Node>, pos: int, which: int, k: string, target: int)
    requires Shaped(stack) && 0 <= pos < |stack| && !stack[pos].isLeaf && 0 <= which < 16
    requires forall j :: 0 <= j < |added| ==> Fits(added[j], |stack| + |added|)
    requires 0 <= target < |stack| + |added|
    ensures Shaped(Link(stack + added, pos, which, k, target))
  {
    var s := stack + added;
    forall i | 0 <= i < |s| ensures Fits(s[i], |s|) {
      if i < |stack| {
        FitsGrows(stack[i], |stack|, |s|);
      } else {
        assert s[i] == added[i - |stack|];
      }
    }
  }

  /** The branch a split puts above the child whose key is ck: its key is
      what hex and ck share, named at v; hex's slot takes the new leaf (at
      index leaf), then ck's slot takes ck. */
  function SplitBranch(kind: Kind, hex: string, ck: string, v: string, leaf: int): (b: Node)
    requires leaf >= 0
    ensures Fits(b, leaf + 1) && !b.isLeaf && b.key == KeyFor(kind, CommonPrefix(hex, ck), v)
    ensures forall i :: 0 <= i < 16 ==> (b.pointers[i] == -1 || b.pointers[i] == leaf)
  {
    var b := NewBranch(KeyFor(kind, CommonPrefix(hex, ck), v));
    var w1 := OfWhich(b, hex);
    var b1 := b.(keys := b.keys[w1 := KeyFor(kind, hex, v)], pointers := b.pointers[w1 := leaf]);
    var w2 := OfWhich(b1, ck);
    b1.(keys := b1.keys[w2 := ck])
  }

  /** One pass of commit's inner loop at the node pos. A leaf has no slots
      to look at (the source indexes its empty list of keys). RatPrefix
      takes an empty slot before looking at its link, the other two only
      for a slot with no link. */
  function PlaceStep(kind: Kind, store: map<string, string>, stack: seq<Node>, hex: string, value: string,
                     v: string, pos: int): (st: Step)
    requires Shaped(stack) && 0 <= pos < |stack|
    ensures st.Stop? ==> Shaped(st.arena) && |st.arena| >= |stack|
    ensures st.Down? ==> Shaped(st.arena) && 0 <= st.at < |st.arena|
  {
    var cur := stack[pos];
    if cur.isLeaf then Fail(BadRecord)
    else
      var which := OfWhich(cur, hex);
      if kind == Prefix && cur.keys[which] == "" then AddLeaf(kind, stack, hex, value, v, pos, which)
      else if cur.pointers[which] != -1 then PlaceStaged(kind, stack, hex, value, v, pos, which)
      else if cur.keys[which] == "" then AddLeaf(kind, stack, hex, value, v, pos, which)
      else PlaceUnstaged(kind, store, stack, hex, value, v, pos, which)
  }

  /** A new leaf for hex, named at v, in slot `which` of the node at pos. */
  function AddLeaf(kind: Kind, stack: seq<Node>, hex: string, value: string, v: string, pos: int, which: int): (st: Step)
    requires Shaped(stack) && 0 <= pos < |stack| && !stack[pos].isLeaf && 0 <= which < 16
    ensures st.Stop? && Shaped(st.arena) && |st.arena| >= |stack|
  {
    var leaf := NewLeaf(KeyFor(kind, hex, v), value);
    ShapedLink(stack, [leaf], pos, which, leaf.key, |stack|);
    Stop(Link(stack + [leaf], pos, which, leaf.key, |stack|))
  }

  /** hex's slot links to a staged child: a child whose key starts with hex
      takes the value; a child whose prefix hex does not extend is split
      off under a new branch beside a new leaf; otherwise the walk goes
      down. */
  function PlaceStaged(kind: Kind, stack: seq<Node>, hex: string, value: string, v: string, pos: int, which: int): (st: Step)
    requires Shaped(stack) && 0 <= pos < |stack| && !stack[pos].isLeaf && 0 <= which < 16
    requires stack[pos].pointers[which] != -1
    ensures st.Stop? ==> Shaped(st.arena) && |st.arena| >= |stack|
    ensures st.Down? ==> Shaped(st.arena) && 0 <= st.at < |st.arena|
  {
    var q := |stack|;
    var p := stack[pos].pointers[which];
    var next := stack[p];
    if IsPrefix(next.key, hex) then
      assert Fits(next.(value := value), q) by { assert Fits(next, q); }
      Stop(stack[p := next.(value := value)])
    else if !IsPrefixChild(stack[pos], which, hex) then
      var leaf := NewLeaf(KeyFor(kind, hex, v), value);
      var b := SplitBranch(kind, hex, next.key, v, q);
      var b' := b.(pointers := b.pointers[OfWhich(b, next.key) := p]);
      ShapedLink(stack, [leaf, b'], pos, which, b.key, q + 1);
      Stop(Link(stack + [leaf, b'], pos, which, b.key, q + 1))
    else Down(stack, p)
  }

  /** hex's slot of a staged branch holds the key of an unstaged child: a
      key starting with hex is replaced by a new leaf; a child whose prefix
      hex does not extend is split off, unstaged, under a new branch (in
      RatPrefix the branch keeps the child's hash); otherwise the child is
      read, named at v, staged and linked, and the walk goes down to it. */
  function PlaceUnstaged(kind: Kind, store: map<string, string>, stack: seq<Node>, hex: string, value: string,
                         v: string, pos: int, which: int): (st: Step)
    requires Shaped(stack) && 0 <= pos < |stack| && !stack[pos].isLeaf && 0 <= which < 16
    ensures st.Stop? ==> Shaped(st.arena) && |st.arena| >= |stack|
    ensures st.Down? ==> Shaped(st.arena) && 0 <= st.at < |st.arena|
  {
    var q := |stack|;
    var cur := stack[pos];
    var ck := cur.keys[which];
    if IsPrefix(ck, hex) then AddLeaf(kind, stack, hex, value, v, pos, which)
    else if !IsPrefixChild(cur, which, hex) then PlaceSplit(kind, stack, hex, value, v, pos, which)
    else
      match Parse(kind, ck, ReadOr(store, ck, ""))
      case Err(e) => Fail(e)
      case Ok(child) =>
        var c := ChangeVersion(kind, child, v);
        ShapedLink(stack, [c], pos, which, c.key, q);
        Down(Link(stack + [c], pos, which, c.key, q), q)
  }

  /** The split below an unstaged child that is not on hex's path: a new
      leaf and a branch over it and the child, linked in the child's place. */
  function PlaceSplit(kind: Kind, stack: seq<Node>, hex: string, value: string, v: string, pos: int, which: int): (st: Step)
    requires Shaped(stack) && 0 <= pos < |stack| && !stack[pos].isLeaf && 0 <= which < 16
    ensures st.Stop? && Shaped(st.arena) && |st.arena| == |stack| + 2
  {
    var q := |stack|;
    var cur := stack[pos];
    var ck := cur.keys[which];
    var leaf := NewLeaf(KeyFor(kind, hex, v), value);
    var b := SplitBranch(kind, hex, ck, v, q);
    var w2 := OfWhich(b, ck);
    var b' := if kind == Prefix then b.(hashes := b.hashes[w2 := cur.hashes[which]]) else b;
    ShapedLink(stack, [leaf, b'], pos, which, b.key, q + 1);
    Stop(Link(stack + [leaf, b'], pos, which, b.key, q + 1))
  }

  /** commit's inner loop from the node pos on, cnt passes made: the walk
      throws on its 42nd pass. */
  function Descend(kind: Kind, store: map<string, string>, stack: seq<Node>, hex: string, value: string,
                   v: string, pos: int, cnt: nat): Result<seq<Node>>
    requires Shaped(stack) && 0 <= pos < |stack|
    decreases 41 - cnt
  {
    if cnt > 40 then Err(InvalidLoop)
    else match PlaceStep(kind, store, stack, hex, value, v, pos)
      case Stop(s) => Ok(s)
      case Fail(e) => Err(e)
      case Down(s, p) => Descend(kind, store, s, hex, value, v, p, cnt + 1)
  }

  // ---------------------------------------------------------------------
  // What the inner loop keeps

  lemma {:induction false} NoCharPrefix(pre: string, s: string, c: char)
    requires pre <= s && RatTree.NoChar(s, c)
    ensures RatTree.NoChar(pre, c)
  {
    forall k | 0 <= k < |pre| ensures pre[k] != c {
      assert pre[k] == s[k];
    }
  }

  /** A key made at v from a prefix without '-' is named at v. */
  lemma {:induction false} NamedKey(kind: Kind, p: string, v: string)
    requires RatTree.NoChar(p, '-') && IsUpperHex(v)
    ensures Named(kind, KeyFor(kind, p, v), v)
  {
    UpperHexHasNo(v, '&');
    TagOfKey(kind, p, v);
  }

  /** The keys a split makes from hex are named at v. */
  lemma {:induction false} SplitNamed(kind: Kind, hex: string, ck: string, v: string)
    requires IsUpperHex(hex) && IsUpperHex(v)
    ensures Named(kind, KeyFor(kind, hex, v), v) && Named(kind, KeyFor(kind, CommonPrefix(hex, ck), v), v)
  {
    UpperHexHasNo(hex, '-');
    NoCharPrefix(CommonPrefix(hex, ck), hex, '-');
    NamedKey(kind, hex, v);
    NamedKey(kind, CommonPrefix(hex, ck), v);
  }

  /** A node read from its record and given version v is named at v. */
  lemma {:induction false} ChangeNamed(kind: Kind, n: Node, v: string)
    requires n.keyLen == RatTree.Find(n.key, '-', 0) && IsUpperHex(v)
    ensures Named(kind, ChangeVersion(kind, n, v).key, v)
  {
    UpperHexHasNo(v, '&');
    ChangeVersionTag(kind, n, v);
  }

  /** Staging nodes named at v and ranked below their links' sources, and
      linking the node at pos to one ranked below it, keeps the arena
      ranked and named and every staged node's key. */
  lemma {:induction false} Stage(kind: Kind, stack: seq<Node>, rank: seq<real>, added: seq<Node>, more: seq<real>,
                                 v: string, pos: int, which: int, k: string, target: int)
    requires Arena(stack, rank) && Tagged(kind, stack, v) && 0 <= pos < |stack| && 0 <= which < 16
    requires |stack[pos].keys| == 16 && |more| == |added|
    requires Shaped(Link(stack + added, pos, which, k, target)) && 0 <= target < |stack| + |added|
    requires forall j :: 0 <= j < |added| ==> Named(kind, added[j].key, v)
    requires forall j, l ::
               (0 <= j < |added| && 0 <= l < |added[j].pointers| && 0 <= added[j].pointers[l] < |rank| + |more|) ==>
               (rank + more)[added[j].pointers[l]] < more[j]
    requires (rank + more)[target] < rank[pos]
    ensures Arena(Link(stack + added, pos, which, k, target), rank + more)
    ensures Tagged(kind, Link(stack + added, pos, which, k, target), v)
    ensures KeysKept(stack, Link(stack + added, pos, which, k, target))
  {
    StageNamed(kind, stack, added, v, pos, which, k, target);
    StageRanked(stack, rank, added, more, pos, which, k, target);
  }

  lemma {:induction false} StageNamed(kind: Kind, stack: seq<Node>, added: seq<Node>,
                                      v: string, pos: int, which: int, k: string, target: int)
    requires Tagged(kind, stack, v) && 0 <= pos < |stack| && 0 <= which < 16
    requires |stack[pos].keys| == 16 && |stack[pos].pointers| == 16
    requires forall j :: 0 <= j < |added| ==> Named(kind, added[j].key, v)
    ensures Tagged(kind, Link(stack + added, pos, which, k, target), v)
    ensures KeysKept(stack, Link(stack + added, pos, which, k, target))
  {
    var s := Link(stack + added, pos, which, k, target);
    forall i | 0 <= i < |s| ensures Named(kind, s[i].key, v) {
      if i < |stack| {
        assert s[i].key == stack[i].key;
      } else {
        assert s[i] == added[i - |stack|];
      }
    }
  }

  lemma {:induction false} StageRanked(stack: seq<Node>, rank: seq<real>, added: seq<Node>, more: seq<real>,
                                       pos: int, which: int, k: string, target: int)
    requires Arena(stack, rank) && 0 <= pos < |stack| && 0 <= which < 16
    requires |stack[pos].keys| == 16 && |more| == |added|
    requires Shaped(Link(stack + added, pos, which, k, target)) && 0 <= target < |stack| + |added|
    requires forall j, l ::
               (0 <= j < |added| && 0 <= l < |added[j].pointers| && 0 <= added[j].pointers[l] < |rank| + |more|) ==>
               (rank + more)[added[j].pointers[l]] < more[j]
    requires (rank + more)[target] < rank[pos]
    ensures Arena(Link(stack + added, pos, which, k, target), rank + more)
  {
    var s := Link(stack + added, pos, which, k, target);
    var r := rank + more;
    forall i, j | 0 <= i < |s| && 0 <= j < 16 && s[i].pointers[j] != -1
      ensures r[s[i].pointers[j]] < r[i]
    {
      if i == pos {
        if j != which {
          assert s[i].pointers[j] == stack[i].pointers[j];
        }
      } else if i < |stack| {
        assert s[i] == stack[i];
      } else {
        assert s[i] == added[i - |stack|];
      }
    }
  }

  /** The ranks of a split's leaf and branch: the leaf below the branch,
      the branch below the parent and above the child it takes over. */
  lemma {:induction false} SplitRanked(rank: seq<real>, added: seq<Node>, p: int, rp: real, rc: real)
    requires |added| == 2 && (p == -1 || (0 <= p < |rank| && rank[p] == rp)) && rp < rc
    requires forall j :: 0 <= j < |added[0].pointers| ==> added[0].pointers[j] == -1
    requires forall j :: 0 <= j < |added[1].pointers| ==> (added[1].pointers[j] == -1 || added[1].pointers[j] == |rank| || added[1].pointers[j] == p)
    ensures forall k, j ::
              (0 <= k < |added| && 0 <= j < |added[k].pointers| && 0 <= added[k].pointers[j] < |rank| + 2) ==>
              (rank + [rp - 1.0, (rc + rp) / 2.0])[added[k].pointers[j]] < [rp - 1.0, (rc + rp) / 2.0][k]
  {
    var r := rank + [rp - 1.0, (rc + rp) / 2.0];
    assert r[|rank|] == rp - 1.0;
    if p != -1 {
      assert r[p] == rp;
    }
  }

  /** Setting a staged node's value keeps the arena and its names. */
  lemma {:induction false} ValueKeeps(kind: Kind, stack: seq<Node>, rank: seq<real>, v: string, p: int, value: string)
    requires Arena(stack, rank) && Tagged(kind, stack, v) && 0 <= p < |stack|
    ensures Arena(stack[p := stack[p].(value := value)], rank)
    ensures Tagged(kind, stack[p := stack[p].(value := value)], v)
    ensures KeysKept(stack, stack[p := stack[p].(value := value)])
  {
    var s := stack[p := stack[p].(value := value)];
    forall i | 0 <= i < |s| ensures Named(kind, s[i].key, v) {
      assert s[i].key == stack[i].key;
    }
    forall i, j | 0 <= i < |s| && 0 <= j < 16 && s[i].pointers[j] != -1
      ensures rank[s[i].pointers[j]] < rank[i]
    {
      assert s[i].pointers == stack[i].pointers;
    }
  }

  /** What one pass keeps: the arena stays ranked, every staged node named
      at v, and every node keeps its key. */
  predicate Keeps(kind: Kind, stack: seq<Node>, st: Step, rank': seq<real>, v: string) {
    (st.Stop? || st.Down?) ==> Arena(st.arena, rank') && Tagged(kind, st.arena, v) && KeysKept(stack, st.arena)
  }

  lemma {:induction false} AddLeafKeeps(kind: Kind, stack: seq<Node>, rank: seq<real>, hex: string, value: string,
                                        v: string, pos: int, which: int) returns (rank': seq<real>)
    requires Arena(stack, rank) && Tagged(kind, stack, v) && IsUpperHex(hex) && IsUpperHex(v)
    requires 0 <= pos < |stack| && !stack[pos].isLeaf && 0 <= which < 16
    ensures Keeps(kind, stack, AddLeaf(kind, stack, hex, value, v, pos, which), rank', v)
  {
    var leaf := NewLeaf(KeyFor(kind, hex, v), value);
    rank' := rank + [rank[pos] - 1.0];
    SplitNamed(kind, hex, hex, v);
    assert Fits(stack[pos], |stack|);
    Stage(kind, stack, rank, [leaf], [rank[pos] - 1.0], v, pos, which, leaf.key, |stack|);
  }

  lemma {:induction false} StagedKeeps(kind: Kind, stack: seq<Node>, rank: seq<real>, hex: string, value: string,
                                       v: string, pos: int, which: int) returns (rank': seq<real>)
    requires Arena(stack, rank) && Tagged(kind, stack, v) && IsUpperHex(hex) && IsUpperHex(v)
    requires 0 <= pos < |stack| && !stack[pos].isLeaf && 0 <= which < 16 && stack[pos].pointers[which] != -1
    ensures Keeps(kind, stack, PlaceStaged(kind, stack, hex, value, v, pos, which), rank', v)
  {
    var p := stack[pos].pointers[which];
    rank' := rank;
    if IsPrefix(stack[p].key, hex) {
      ValueKeeps(kind, stack, rank, v, p, value);
    } else if !IsPrefixChild(stack[pos], which, hex) {
      rank' := StagedSplitKeeps(kind, stack, rank, hex, value, v, pos, which);
    }
  }

  /** A split above a staged child. */
  lemma {:induction false} StagedSplitKeeps(kind: Kind, stack: seq<Node>, rank: seq<real>, hex: string, value: string,
                                            v: string, pos: int, which: int) returns (rank': seq<real>)
    requires Arena(stack, rank) && Tagged(kind, stack, v) && IsUpperHex(hex) && IsUpperHex(v)
    requires 0 <= pos < |stack| && !stack[pos].isLeaf && 0 <= which < 16 && stack[pos].pointers[which] != -1
    requires !IsPrefix(stack[stack[pos].pointers[which]].key, hex) && !IsPrefixChild(stack[pos], which, hex)
    ensures Keeps(kind, stack, PlaceStaged(kind, stack, hex, value, v, pos, which), rank', v)
  {
    var q := |stack|;
    var p := stack[pos].pointers[which];
    var next := stack[p];
    var leaf := NewLeaf(KeyFor(kind, hex, v), value);
    var b := SplitBranch(kind, hex, next.key, v, q);
    var b' := b.(pointers := b.pointers[OfWhich(b, next.key) := p]);
    assert PlaceStaged(kind, stack, hex, value, v, pos, which) == Stop(Link(stack + [leaf, b'], pos, which, b.key, q + 1));
    SplitNamed(kind, hex, next.key, v);
    rank' := SplitStage(kind, stack, rank, leaf, b', v, pos, which, p);
  }

  /** A split's leaf and branch staged at the end of the arena, the branch
      linked from the node at pos; the branch links to the leaf and to the
      child p, if any, that it takes over. */
  lemma {:induction false} SplitStage(kind: Kind, stack: seq<Node>, rank: seq<real>, leaf: Node, b: Node, v: string,
                                      pos: int, which: int, p: int) returns (rank': seq<real>)
    requires Arena(stack, rank) && Tagged(kind, stack, v) && 0 <= pos < |stack| && !stack[pos].isLeaf && 0 <= which < 16
    requires -1 <= p < |stack| && (p != -1 ==> rank[p] < rank[pos])
    requires leaf.isLeaf && leaf.pointers == RatTree.Unlinked() && Named(kind, leaf.key, v)
    requires Fits(b, |stack| + 2) && Named(kind, b.key, v)
    requires forall j :: 0 <= j < 16 ==> (b.pointers[j] == -1 || b.pointers[j] == |stack| || b.pointers[j] == p)
    ensures Keeps(kind, stack, Stop(Link(stack + [leaf, b], pos, which, b.key, |stack| + 1)), rank', v)
  {
    var rc := rank[pos];
    var rp := if p == -1 then rc - 1.0 else rank[p];
    rank' := rank + [rp - 1.0, (rc + rp) / 2.0];
    SplitArena(kind, stack, rank, leaf, b, v, pos, which, p, rank');
    SplitTagged(kind, stack, rank, leaf, b, v, pos, which);
  }

  lemma {:induction false} SplitArena(kind: Kind, stack: seq<Node>, rank: seq<real>, leaf: Node, b: Node, v: string,
                                      pos: int, which: int, p: int, rank': seq<real>)
    requires Arena(stack, rank) && 0 <= pos < |stack| && !stack[pos].isLeaf && 0 <= which < 16
    requires -1 <= p < |stack| && (p != -1 ==> rank[p] < rank[pos])
    requires leaf.isLeaf && leaf.pointers == RatTree.Unlinked()
    requires Fits(b, |stack| + 2)
    requires forall j :: 0 <= j < 16 ==> (b.pointers[j] == -1 || b.pointers[j] == |stack| || b.pointers[j] == p)
    requires var rp := if p == -1 then rank[pos] - 1.0 else rank[p]; rank' == rank + [rp - 1.0, (rank[pos] + rp) / 2.0]
    ensures Arena(Link(stack + [leaf, b], pos, which, b.key, |stack| + 1), rank')
  {
    var rc := rank[pos];
    var rp := if p == -1 then rc - 1.0 else rank[p];
    SplitShaped(stack, leaf, b, pos, which);
    SplitRanked(rank, [leaf, b], p, rp, rc);
    StageRanked(stack, rank, [leaf, b], [rp - 1.0, (rc + rp) / 2.0], pos, which, b.key, |stack| + 1);
  }

  /** A split's leaf and branch, appended and linked, keep the arena shaped. */
  lemma {:induction false} SplitShaped(stack: seq<Node>, leaf: Node, b: Node, pos: int, which: int)
    requires Shaped(stack) && 0 <= pos < |stack| && !stack[pos].isLeaf && 0 <= which < 16
    requires leaf.isLeaf && leaf.pointers == RatTree.Unlinked() && Fits(b, |stack| + 2)
    ensures Shaped(Link(stack + [leaf, b], pos, which, b.key, |stack| + 1)) && |stack[pos].keys| == 16
  {
    assert Fits(stack[pos], |stack|);
    assert Fits(leaf, |stack| + 2);
    ShapedLink(stack, [leaf, b], pos, which, b.key, |stack| + 1);
  }

  lemma {:induction false} SplitTagged(kind: Kind, stack: seq<Node>, rank: seq<real>, leaf: Node, b: Node, v: string,
                                       pos: int, which: int)
    requires Arena(stack, rank) && Tagged(kind, stack, v) && 0 <= pos < |stack| && !stack[pos].isLeaf && 0 <= which < 16
    requires Named(kind, leaf.key, v) && Named(kind, b.key, v)
    ensures var s := Link(stack + [leaf, b], pos, which, b.key, |stack| + 1);
      Tagged(kind, s, v) && KeysKept(stack, s)
  {
    assert Fits(stack[pos], |stack|);
    StageNamed(kind, stack, [leaf, b], v, pos, which, b.key, |stack| + 1);
  }

  lemma {:induction false} UnstagedKeeps(kind: Kind, store: map<string, string>, stack: seq<Node>, rank: seq<real>,
                                         hex: string, value: string, v: string, pos: int, which: int)
    returns (rank': seq<real>)
    requires Arena(stack, rank) && Tagged(kind, stack, v) && IsUpperHex(hex) && IsUpperHex(v)
    requires 0 <= pos < |stack| && !stack[pos].isLeaf && 0 <= which < 16
    ensures Keeps(kind, stack, PlaceUnstaged(kind, store, stack, hex, value, v, pos, which), rank', v)
  {
    var ck := stack[pos].keys[which];
    rank' := rank;
    if IsPrefix(ck, hex) {
      rank' := AddLeafKeeps(kind, stack, rank, hex, value, v, pos, which);
    } else if !IsPrefixChild(stack[pos], which, hex) {
      rank' := UnstagedSplitKeeps(kind, store, stack, rank, hex, value, v, pos, which);
    } else {
      rank' := ReadKeeps(kind, store, stack, rank, hex, value, v, pos, which);
    }
  }

  /** A split above an unstaged child. */
  lemma {:induction false} UnstagedSplitKeeps(kind: Kind, store: map<string, string>, stack: seq<Node>, rank: seq<real>,
                                              hex: string, value: string, v: string, pos: int, which: int)
    returns (rank': seq<real>)
    requires Arena(stack, rank) && Tagged(kind, stack, v) && IsUpperHex(hex) && IsUpperHex(v)
    requires 0 <= pos < |stack| && !stack[pos].isLeaf && 0 <= which < 16
    requires !IsPrefix(stack[pos].keys[which], hex) && !IsPrefixChild(stack[pos], which, hex)
    ensures Keeps(kind, stack, PlaceUnstaged(kind, store, stack, hex, value, v, pos, which), rank', v)
  {
    var q := |stack|;
    var cur := stack[pos];
    var ck := cur.keys[which];
    var rc := rank[pos];
    var leaf := NewLeaf(KeyFor(kind, hex, v), value);
    var b := SplitBranch(kind, hex, ck, v, q);
    var w2 := OfWhich(b, ck);
    var b' := if kind == Prefix then b.(hashes := b.hashes[w2 := cur.hashes[which]]) else b;
    assert PlaceUnstaged(kind, store, stack, hex, value, v, pos, which) == Stop(Link(stack + [leaf, b'], pos, which, b.key, q + 1));
    SplitNamed(kind, hex, ck, v);
    rank' := SplitStage(kind, stack, rank, leaf, b', v, pos, which, -1);
  }

  /** The unstaged child read, named at v and staged. */
  lemma {:induction false} ReadKeeps(kind: Kind, store: map<string, string>, stack: seq<Node>, rank: seq<real>,
                                     hex: string, value: string, v: string, pos: int, which: int)
    returns (rank': seq<real>)
    requires Arena(stack, rank) && Tagged(kind, stack, v) && IsUpperHex(hex) && IsUpperHex(v)
    requires 0 <= pos < |stack| && !stack[pos].isLeaf && 0 <= which < 16
    requires !IsPrefix(stack[pos].keys[which], hex) && IsPrefixChild(stack[pos], which, hex)
    ensures Keeps(kind, stack, PlaceUnstaged(kind, store, stack, hex, value, v, pos, which), rank', v)
  {
    var q := |stack|;
    var ck := stack[pos].keys[which];
    var rc := rank[pos];
    rank' := rank;
    var r := Parse(kind, ck, ReadOr(store, ck, ""));
    if r.Ok? {
      var c := ChangeVersion(kind, r.value, v);
      assert PlaceUnstaged(kind, store, stack, hex, value, v, pos, which) == Down(Link(stack + [c], pos, which, c.key, q), q);
      assert Fits(stack[pos], q);
      ChangeNamed(kind, r.value, v);
      rank' := rank + [rc - 1.0];
      Stage(kind, stack, rank, [c], [rc - 1.0], v, pos, which, c.key, q);
    }
  }

  lemma {:induction false} StepKeeps(kind: Kind, store: map<string, string>, stack: seq<Node>, rank: seq<real>,
                                     hex: string, value: string, v: string, pos: int) returns (rank': seq<real>)
    requires Arena(stack, rank) && Tagged(kind, stack, v) && IsUpperHex(hex) && IsUpperHex(v) && 0 <= pos < |stack|
    ensures Keeps(kind, stack, PlaceStep(kind, store, stack, hex, value, v, pos), rank', v)
  {
    rank' := rank;
    var cur := stack[pos];
    if !cur.isLeaf {
      var which := OfWhich(cur, hex);
      if kind == Prefix && cur.keys[which] == "" {
        rank' := AddLeafKeeps(kind, stack, rank, hex, value, v, pos, which);
      } else if cur.pointers[which] != -1 {
        rank' := StagedKeeps(kind, stack, rank, hex, value, v, pos, which);
      } else if cur.keys[which] == "" {
        rank' := AddLeafKeeps(kind, stack, rank, hex, value, v, pos, which);
      } else {
        rank' := UnstagedKeeps(kind, store, stack, rank, hex, value, v, pos, which);
      }
    }
  }

  /** commit's inner loop keeps the arena ranked, named at v, and every
      staged node's key. */
  lemma {:induction false} DescendKeeps(kind: Kind, store: map<string, string>, stack: seq<Node>, rank: seq<real>,
                                        hex: string, value: string, v: string, pos: int, cnt: nat)
    returns (rank': seq<real>)
    requires Arena(stack, rank) && Tagged(kind, stack, v) && IsUpperHex(hex) && IsUpperHex(v) && 0 <= pos < |stack|
    ensures var r := Descend(kind, store, stack, hex, value, v, pos, cnt);
      r.Ok? ==> Arena(r.value, rank') && Tagged(kind, r.value, v) && KeysKept(stack, r.value)
    decreases 41 - cnt
  {
    rank' := rank;
    if cnt <= 40 {
      var st := PlaceStep(kind, store, stack, hex, value, v, pos);
      rank' := StepKeeps(kind, store, stack, rank, hex, value, v, pos);
      if st.Down? {
        rank' := DescendKeeps(kind, store, st.arena, rank', hex, value, v, st.at, cnt + 1);
      }
    }
  }

  // ---------------------------------------------------------------------
  // _compute's writes

  /** Between two stores only records named at v were written: every other
      record is as it was, and no other record appeared. */
  predicate Preserves(before: map<string, string>, after: map<string, string>, v: string) {
    (forall k :: k in after ==> k in before || TagOf(k) == v)
    && (forall k :: k in before && TagOf(k) != v ==> k in after && after[k] == before[k])
  }

  lemma {:induction false} PreservesTrans(a: map<string, string>, b: map<string, string>, c: map<string, string>, v: string)
    requires Preserves(a, b, v) && Preserves(b, c, v)
    ensures Preserves(a, c, v)
  {
  }

  /** A record not named at v reads the same before and after. */
  lemma {:induction false} ReadPreserved(before: map<string, string>, after: map<string, string>, v: string, k: string)
    requires Preserves(before, after, v) && TagOf(k) != v
    ensures ReadOr(after, k, "") == ReadOr(before, k, "")
  {
  }

  /** What _compute leaves in slot j of a branch whose slot had no link: in
      RatPrefix the child's hash as read; in the other two the first 64
      characters of the child's record, read before anything at v was
      written (the model keeps these pieces in `hashes`). */
  predicate SlotKept(kind: Kind, n: Node, was: Node, j: int, v: string, before: map<string, string>)
    requires 0 <= j < |n.hashes| && 0 <= j < |was.hashes| && 0 <= j < |was.keys|
  {
    (kind == Prefix ==> n.hashes[j] == was.hashes[j])
    && (kind != Prefix && TagOf(was.keys[j]) != v ==> n.hashes[j] == Chunk(ReadOr(before, was.keys[j], ""), 0))
  }

  /** A branch that _compute's loop has carried through slot i: the slots
      before i unlinked and kept as SlotKept says, those from i on as they
      were, and nothing else of the node changed. */
  predicate SlotsDone(kind: Kind, n: Node, was: Node, i: int, v: string, before: map<string, string>) {
    0 <= i <= 16 && |n.hashes| == 16 && |n.pointers| == 16 && |n.keys| == 16
    && |was.hashes| == 16 && |was.pointers| == 16 && |was.keys| == 16
    && n == was.(hashes := n.hashes, pointers := n.pointers)
    && (forall j :: 0 <= j < 16 ==> n.pointers[j] == if j < i then -1 else was.pointers[j])
    && (forall j :: i <= j < 16 ==> n.hashes[j] == was.hashes[j])
    && (forall j :: 0 <= j < i && was.pointers[j] == -1 ==> SlotKept(kind, n, was, j, v, before))
  }

  /** One more pass of _compute's loop: slot i unlinked, its hash set as
      SlotKept says over a store that kept every record not named at v. */
  lemma {:induction false} SlotsStep(kind: Kind, n: Node, was: Node, i: int, v: string, before: map<string, string>,
                                     mid: map<string, string>, n': Node)
    requires SlotsDone(kind, n, was, i, v, before) && i < 16 && Preserves(before, mid, v)
    requires |n'.hashes| == 16 && n' == n.(hashes := n.hashes[i := n'.hashes[i]], pointers := n.pointers[i := -1])
    requires n.pointers[i] == -1 ==> SlotKept(kind, n', n, i, v, mid)
    ensures SlotsDone(kind, n', was, i + 1, v, before)
  {
    if was.pointers[i] == -1 && kind != Prefix && TagOf(was.keys[i]) != v {
      ReadPreserved(before, mid, v, was.keys[i]);
    }
  }

  /** Dropping a branch's link and setting its slot's hash keeps the arena
      and its names. */
  lemma {:induction false} Unlink(kind: Kind, out: seq<Node>, rank: seq<real>, v: string, pos: int, i: int, h: string, drop: bool)
    requires Arena(out, rank) && Tagged(kind, out, v) && 0 <= pos < |out| && !out[pos].isLeaf && 0 <= i < 16
    ensures var cur := out[pos];
      var out' := out[pos := cur.(hashes := cur.hashes[i := h], pointers := if drop then cur.pointers[i := -1] else cur.pointers)];
      Arena(out', rank) && Tagged(kind, out', v) && KeysKept(out, out')
  {
    var cur := out[pos];
    var out' := out[pos := cur.(hashes := cur.hashes[i := h], pointers := if drop then cur.pointers[i := -1] else cur.pointers)];
    assert Fits(cur, |out|);
    forall k | 0 <= k < |out'| ensures Named(kind, out'[k].key, v) {
      assert out'[k].key == out[k].key;
    }
    forall k, j | 0 <= k < |out'| && 0 <= j < 16 && out'[k].pointers[j] != -1
      ensures rank[out'[k].pointers[j]] < rank[k]
    {
      assert out'[k].pointers[j] == out[k].pointers[j];
    }
  }

  /** Setting a node's own hash keeps the arena and its names. */
  lemma {:induction false} Rehash(kind: Kind, out: seq<Node>, rank: seq<real>, v: string, pos: int, h: string)
    requires Arena(out, rank) && Tagged(kind, out, v) && 0 <= pos < |out|
    ensures var out' := out[pos := out[pos].(hash := h)];
      Arena(out', rank) && Tagged(kind, out', v) && KeysKept(out, out')
  {
    var out' := out[pos := out[pos].(hash := h)];
    assert Fits(out[pos], |out|);
    forall k | 0 <= k < |out'| ensures Named(kind, out'[k].key, v) {
      assert out'[k].key == out[k].key;
    }
    forall k, j | 0 <= k < |out'| && 0 <= j < 16 && out'[k].pointers[j] != -1
      ensures rank[out'[k].pointers[j]] < rank[k]
    {
      assert out'[k].pointers[j] == out[k].pointers[j];
    }
  }

  lemma {:induction false} KeysKeptTrans(a: seq<Node>, b: seq<Node>, c: seq<Node>)
    requires KeysKept(a, b) && KeysKept(b, c)
    ensures KeysKept(a, c)
  {
  }

  /** A root read at one version and renamed for the next keeps "*" as
      its prefix: its key is the root key of the new version. */
  lemma {:induction false} RootRenamed(kind: Kind, n: Node, s: string, v: string)
    requires n.key == RootKey(kind, s) && n.keyLen == RatTree.Find(n.key, '-', 0) && IsUpperHex(v)
    ensures ChangeVersion(kind, n, v).key == RootKey(kind, v) && Named(kind, ChangeVersion(kind, n, v).key, v)
  {
    RootKeyDash(kind, s);
    assert Base(n) == "*";
    UpperHexHasNo(v, '&');
    ChangeVersionTag(kind, n, v);
  }

  /** The record init writes under the root key of version 0: sixteen
      empty slots, after the digest of the empty string in RatCompact and
      RatPadding. */
  function InitRecord(H: Hasher, kind: Kind): string {
    if kind == Prefix then BlankPairs(16) else Hash(H, "") + Repeat(',', 15)
  }

  /** The root that record stands for. */
  function InitRoot(H: Hasher, kind: Kind): Node {
    Node(RootKey(kind, "0"), "", if kind == Prefix then "" else Hash(H, ""), Blanks(), Blanks(), RatTree.Unlinked(), true, false, 1)
  }

  /** The digest a root stands for: computeHash in RatPrefix, the stored
      hash in the other two. */
  function RootDigest(H: Hasher, kind: Kind, n: Node): string {
    if kind == Prefix then NodeHash(H, n) else n.hash
  }

  /** n empty "key:hash" pairs joined with commas. */
  function BlankPairs(n: nat): string {
    if n <= 1 then ":" else ":," + BlankPairs(n - 1)
  }

  lemma {:induction false} JoinBlankPairs(ks: seq<string>, hs: seq<string>)
    requires |ks| == |hs| >= 1
    requires forall i :: 0 <= i < |ks| ==> ks[i] == "" && hs[i] == ""
    ensures JoinPairs(ks, hs) == BlankPairs(|ks|)
    decreases |ks|
  {
    if |ks| > 1 {
      JoinBlankPairs(ks[1..], hs[1..]);
    }
  }

  lemma {:induction false} InitPrinted(H: Hasher, kind: Kind)
    ensures ToString(kind, InitRoot(H, kind)) == InitRecord(H, kind)
  {
    if kind == Prefix {
      InitPrintedPairs(H);
    } else {
      InitPrintedHashed(H, kind);
    }
  }

  /** In RatPrefix the empty root prints as sixteen blank pairs. */
  lemma {:induction false} InitPrintedPairs(H: Hasher)
    ensures ToString(Prefix, InitRoot(H, Prefix)) == InitRecord(H, Prefix)
  {
    JoinBlankPairs(Blanks(), Blanks());
  }

  /** In the other two the empty root prints as its hash and fifteen commas. */
  lemma {:induction false} InitPrintedHashed(H: Hasher, kind: Kind)
    requires kind != Prefix
    ensures ToString(kind, InitRoot(H, kind)) == InitRecord(H, kind)
  {
    RatTree.JoinEmpty(Blanks());
  }

  /** The root key of any version has its first '-' right after the '*'. */
  lemma {:induction false} RootKeyDash(kind: Kind, v: string)
    ensures RatTree.Find(RootKey(kind, v), '-', 0) == 1
  {
    var k := RootKey(kind, v);
    assert k[0] == '*' && k[1] == '-';
    assert RatTree.Find(k, '-', 1) == 1;
  }

  /** init's record reads back as the empty root, and that root stands for
      the digest init sets. */
  lemma {:induction false} InitRootReads(H: Hasher, kind: Kind)
    ensures Parse(kind, RootKey(kind, "0"), InitRecord(H, kind)) == Ok(InitRoot(H, kind))
    ensures RootDigest(H, kind, InitRoot(H, kind)) == Hash(H, "")
  {
    InitDigest(H, kind);
    InitPrinted(H, kind);
    InitPrintable(H, kind);
    RootKeyDash(kind, "0");
    ParsePrinted(kind, RootKey(kind, "0"), InitRoot(H, kind));
  }

  lemma {:induction false} InitDigest(H: Hasher, kind: Kind)
    ensures RootDigest(H, kind, InitRoot(H, kind)) == Hash(H, "")
  {
    RatTree.JoinEmpty(Blanks());
  }

  lemma {:induction false} InitPrintable(H: Hasher, kind: Kind)
    ensures Printable(kind, InitRoot(H, kind))
  {
    var n := InitRoot(H, kind);
    forall i | 0 <= i < 16
      ensures SlotKey(kind, n.keys[i]) && RatTree.NoChar(n.hashes[i], ',')
    {
      assert n.keys[i] == "" && n.hashes[i] == "";
    }
  }

  /** No stored record names a version after `version`. */
  ghost predicate Versioned(store: map<string, string>, version: nat) {
    forall k, j :: k in store && version < j ==> TagOf(k) != StrVer(j)
  }

  lemma {:induction false} VersionedGrows(store: map<string, string>, version: nat)
    requires Versioned(store, version)
    ensures Versioned(store, version + 1)
  {
  }

  /** A commit at version `version` + 1 keeps every record of the earlier
      versions, and every record names a version up to the new one. */
  lemma {:induction false} Persist(before: map<string, string>, after: map<string, string>, version: nat, v: string)
    requires Preserves(before, after, v) && v == StrVer(version + 1) && Versioned(before, version)
    ensures forall k :: k in before ==> k in after && after[k] == before[k]
    ensures Versioned(after, version + 1)
  {
    forall k, j | k in after && version + 1 < j
      ensures TagOf(k) != StrVer(j)
    {
      if k !in before {
        StrVerValue(j);
        StrVerValue(version + 1);
      }
    }
  }

  // ---------------------------------------------------------------------
  // gen_proof's walk

  /** What gen_proof writes for slot i of a branch: in RatPrefix the
      child's hash, null64 when empty; in the other two null64 for an empty
      key, otherwise the first 64 characters of the record under the key. */
  function SlotEntry(kind: Kind, store: map<string, string>, n: Node, i: int): string
    requires 0 <= i < |n.keys| && 0 <= i < |n.hashes|
  {
    if kind == Prefix then Entry(n.hashes[i])
    else if n.keys[i] == "" then Null64
    else Chunk(ReadOr(store, n.keys[i], ""), 0)
  }

  /** What _compute hashed for slot i: the child's hash in RatPrefix, the
      first 64 characters of the child's record in the other two ("" for an
      empty key). */
  function SlotHash(kind: Kind, store: map<string, string>, n: Node, i: int): string
    requires 0 <= i < |n.keys| && 0 <= i < |n.hashes|
  {
    if kind == Prefix then n.hashes[i]
    else if n.keys[i] == "" then ""
    else Chunk(ReadOr(store, n.keys[i], ""), 0)
  }

  function SlotEntries(kind: Kind, store: map<string, string>, n: Node): (es: seq<string>)
    requires |n.keys| == 16 && |n.hashes| == 16
    ensures |es| == 16 && forall i :: 0 <= i < 16 ==> es[i] == SlotEntry(kind, store, n, i)
  {
    seq(16, i requires 0 <= i < 16 => SlotEntry(kind, store, n, i))
  }

  function SlotHashes(kind: Kind, store: map<string, string>, n: Node): (hs: seq<string>)
    requires |n.keys| == 16 && |n.hashes| == 16
    ensures |hs| == 16 && forall i :: 0 <= i < 16 ==> hs[i] == SlotHash(kind, store, n, i)
  {
    seq(16, i requires 0 <= i < 16 => SlotHash(kind, store, n, i))
  }

  /** A branch whose non-empty child keys all name non-empty records. */
  predicate WellRead(kind: Kind, store: map<string, string>, n: Node)
    requires |n.keys| == 16
  {
    kind == Prefix || forall i :: 0 <= i < 16 && n.keys[i] != "" ==> ReadOr(store, n.keys[i], "") != ""
  }

  /** gen_proof's entries are those of Proof16 for the slots _compute
      hashed: always in RatPrefix, and in the other two when every child
      key names a non-empty record. */
  lemma {:induction false} EntriesOfSlots(kind: Kind, store: map<string, string>, n: Node)
    requires |n.keys| == 16 && |n.hashes| == 16 && WellRead(kind, store, n)
    ensures SlotEntries(kind, store, n) == Entries(SlotHashes(kind, store, n))
  {
    var es, hs := SlotEntries(kind, store, n), SlotHashes(kind, store, n);
    forall i | 0 <= i < 16
      ensures es[i] == Entries(hs)[i]
    {
      if kind != Prefix && n.keys[i] != "" {
        assert ReadOr(store, n.keys[i], "") != "";
      }
    }
  }

  /** A branch on the walked path: the slot taken, what _compute hashed for
      each slot, and what gen_proof writes for each. */
  datatype Rung = Rung(level: Level, entries: seq<string>)

  datatype Walked = Found(rungs: seq<Rung>) | Missing

  predicate Chosen(rungs: seq<Rung>) {
    forall k :: 0 <= k < |rungs| ==> 0 <= rungs[k].level.which < 16
  }

  /** gen_proof's walk from the record under key towards hex. It answers
      Missing where hex's slot is empty or holds a key that is not a prefix
      of hex, and stops after the branch whose slot holds a key starting
      with hex. A leaf on the way has no slots (the source indexes past the
      end). The source's walk has no bound; here it gives up after `fuel`
      records. */
  function Walk(kind: Kind, store: map<string, string>, key: string, hex: string, fuel: nat): (r: Result<Walked>)
    ensures r.Ok? && r.value.Found? ==> Chosen(r.value.rungs)
    decreases fuel, 1
  {
    if fuel == 0 then Err(InvalidLoop)
    else match Parse(kind, key, ReadOr(store, key, ""))
      case Err(e) => Err(e)
      case Ok(cur) => WalkNode(kind, store, cur, hex, fuel)
  }

  /** One step of the walk from a node just read: stop there, or go on
      down hex's slot. */
  function WalkNode(kind: Kind, store: map<string, string>, cur: Node, hex: string, fuel: nat): (r: Result<Walked>)
    requires fuel > 0 && (!cur.isLeaf ==> |cur.keys| == 16 && |cur.hashes| == 16)
    ensures r.Ok? && r.value.Found? ==> Chosen(r.value.rungs)
    decreases fuel, 0
  {
    if cur.isLeaf then Err(BadRecord)
    else
      var which := OfWhich(cur, hex);
      if cur.keys[which] == "" || !IsPrefixChild(cur, which, hex) then Ok(Missing)
      else
        var rung := RungOf(kind, store, cur, which);
        if IsPrefix(cur.keys[which], hex) then Ok(Found([rung]))
        else Under([rung], Walk(kind, store, cur.keys[which], hex, fuel - 1))
  }

  /** The walk so far, `above` root first, then the walk still to come. */
  function Under(above: seq<Rung>, r: Result<Walked>): Result<Walked> {
    match r
    case Err(e) => Err(e)
    case Ok(Missing) => Ok(Missing)
    case Ok(Found(rungs)) => Ok(Found(above + rungs))
  }

  /** The records gen_proof emits for the rungs, root first. */
  function RungsText(rungs: seq<Rung>): string
    requires Chosen(rungs)
  {
    if rungs == [] then ""
    else RungsText(rungs[..|rungs| - 1]) + ProofRecord(rungs[|rungs| - 1].level.which, rungs[|rungs| - 1].entries)
  }

  /** What gen_proof answers for a walk. */
  function ProofText(r: Result<Walked>): Result<string>
    requires r.Ok? && r.value.Found? ==> Chosen(r.value.rungs)
  {
    match r
    case Err(e) => Err(e)
    case Ok(Missing) => Ok("?")
    case Ok(Found(rungs)) => Ok(RungsText(rungs))
  }

  function Levels(rungs: seq<Rung>): (ls: seq<Level>)
    ensures |ls| == |rungs| && forall k :: 0 <= k < |rungs| ==> ls[k] == rungs[k].level
  {
    seq(|rungs|, k requires 0 <= k < |rungs| => rungs[k].level)
  }

  /** Every rung writes the Proof16 entries of what was hashed. */
  predicate Faithful(rungs: seq<Rung>) {
    forall k :: 0 <= k < |rungs| ==> rungs[k].entries == Entries(rungs[k].level.hashes)
  }

  lemma {:induction false} RungsArePath(rungs: seq<Rung>)
    requires Chosen(rungs) && Faithful(rungs)
    ensures Selects(Levels(rungs)) && RungsText(rungs) == PathProof(Levels(rungs))
    decreases |rungs|
  {
    if rungs != [] {
      var init := rungs[..|rungs| - 1];
      RungsArePath(init);
      assert Levels(rungs)[..|rungs| - 1] == Levels(init);
    }
  }

  /** The proof gen_proof emits along a walk is accepted by verify_proof
      whenever the walked levels fold, from the value's hash, to the
      digest. */
  lemma {:induction false} WalkVerifies(H: Hasher, rungs: seq<Rung>, value: string, digest: string)
    requires Chosen(rungs) && Faithful(rungs) && LevelsOk(Levels(rungs))
    requires FoldLevels(H, Levels(rungs), Hash(H, value)) == digest
    ensures Verify(H, digest, value, RungsText(rungs))
  {
    RungsArePath(rungs);
    VerifyPathComplete(H, digest, value, Levels(rungs));
  }

  /** One more level taken off the rest of a walk and added to what is
      above it leaves the whole walk as it was. */
  lemma {:induction false} UnderStep(above: seq<Rung>, l: Rung, r: Result<Walked>)
    ensures Under(above, Under([l], r)) == Under(above + [l], r)
  {
    if r.Ok? && r.value.Found? {
      assert above + ([l] + r.value.rungs) == above + [l] + r.value.rungs;
    }
  }

  lemma {:induction false} RungsAppend(rungs: seq<Rung>, l: Rung)
    requires Chosen(rungs) && 0 <= l.level.which < 16
    ensures Chosen(rungs + [l]) && RungsText(rungs + [l]) == RungsText(rungs) + ProofRecord(l.level.which, l.entries)
  {
    assert (rungs + [l])[..|rungs|] == rungs;
  }

  /** The rung the walk records for a branch. */
  function RungOf(kind: Kind, store: map<string, string>, cur: Node, which: int): Rung
    requires |cur.keys| == 16 && |cur.hashes| == 16
  {
    Rung(Level(which, SlotHashes(kind, store, cur)), SlotEntries(kind, store, cur))
  }

  /** Where the walk ends at the record under key, and where it goes on. */
  lemma {:induction false} WalkReads(kind: Kind, store: map<string, string>, key: string, hex: string, fuel: nat)
    requires fuel > 0
    ensures var p := Parse(kind, key, ReadOr(store, key, ""));
      Walk(kind, store, key, hex, fuel) == if p.Err? then Err(p.error) else WalkNode(kind, store, p.value, hex, fuel)
  {
  }

  lemma {:induction false} WalkMissing(kind: Kind, store: map<string, string>, cur: Node, hex: string, fuel: nat)
    requires fuel > 0 && !cur.isLeaf && |cur.keys| == 16 && |cur.hashes| == 16
    requires cur.keys[OfWhich(cur, hex)] == "" || !IsPrefixChild(cur, OfWhich(cur, hex), hex)
    ensures WalkNode(kind, store, cur, hex, fuel) == Ok(Missing)
  {
  }

  lemma {:induction false} WalkLast(kind: Kind, store: map<string, string>, cur: Node, hex: string, fuel: nat)
    requires fuel > 0 && !cur.isLeaf && |cur.keys| == 16 && |cur.hashes| == 16
    requires cur.keys[OfWhich(cur, hex)] != "" && IsPrefixChild(cur, OfWhich(cur, hex), hex)
    requires IsPrefix(cur.keys[OfWhich(cur, hex)], hex)
    ensures WalkNode(kind, store, cur, hex, fuel) == Ok(Found([RungOf(kind, store, cur, OfWhich(cur, hex))]))
  {
  }

  lemma {:induction false} WalkDown(kind: Kind, store: map<string, string>, cur: Node, hex: string, fuel: nat,
                                    which: int, next: string, fuel': nat)
    requires fuel > 0 && !cur.isLeaf && |cur.keys| == 16 && |cur.hashes| == 16
    requires which == OfWhich(cur, hex) && next == cur.keys[which] && fuel' == fuel - 1
    requires next != "" && IsPrefixChild(cur, which, hex) && !IsPrefix(next, hex)
    ensures WalkNode(kind, store, cur, hex, fuel) == Under([RungOf(kind, store, cur, which)], Walk(kind, store, next, hex, fuel'))
  {
    assert WalkNode(kind, store, cur, hex, fuel)
        == Under([RungOf(kind, store, cur, OfWhich(cur, hex))], Walk(kind, store, cur.keys[OfWhich(cur, hex)], hex, fuel - 1));
  }

  /** gen_proof's emission for one branch: the selector, then every other
      slot's entry in order. */
  method EmitRung(kind: Kind, store: map<string, string>, cur: Node, which: int) returns (s: string)
    requires |cur.keys| == 16 && |cur.hashes| == 16 && 0 <= which < 16
    ensures s == ProofRecord(which, SlotEntries(kind, store, cur))
  {
    var es := SlotEntries(kind, store, cur);
    s := [Selector(which)];
    var i := 0;
    while i < 16
      invariant 0 <= i <= 16
      invariant s == [Selector(which)] + SiblingsPrefix(es, which, i)
    {
      if i != which {
        var e := EmitSlot(kind, store, cur, i);
        SiblingsGrow([Selector(which)], es, which, i, s, e);
        s := s + e;
      } else {
        SiblingsGrow([Selector(which)], es, which, i, s, "");
      }
      i := i + 1;
    }
    SiblingsSplit(es, which, 16);
  }

  /** The entry gen_proof emits for slot i: the child's hash in RatPrefix,
      else the first 64 characters of the child's record, Null64 for none. */
  method EmitSlot(kind: Kind, store: map<string, string>, cur: Node, i: int) returns (e: string)
    requires |cur.keys| == 16 && |cur.hashes| == 16 && 0 <= i < 16
    ensures e == SlotEntry(kind, store, cur, i)
  {
    if kind == Prefix {
      e := if cur.hashes[i] == "" then Null64 else cur.hashes[i];
    } else if cur.keys[i] == "" {
      e := Null64;
    } else {
      var t := ReadOr(store, cur.keys[i], "");
      e := Chunk(t, 0);
    }
  }

  /** gen_proof: the walk from key, emitting each branch's record. */
  method WalkProof(kind: Kind, store: map<string, string>, key: string, hex: string) returns (r: Result<string>)
    ensures r == ProofText(Walk(kind, store, key, hex, |hex| + 1))
  {
    var output, at := "", key;
    var fuel: nat := |hex| + 1;
    ghost var top := Walk(kind, store, key, hex, fuel);
    ghost var rest, rungs: seq<Rung> := top, [];
    if top.Ok? && top.value.Found? {
      assert [] + top.value.rungs == top.value.rungs;
    }
    while true
      invariant rest == Walk(kind, store, at, hex, fuel)
      invariant top == Under(rungs, rest)
      invariant Chosen(rungs) && output == RungsText(rungs)
      decreases fuel
    {
      if fuel == 0 {
        r := Err(InvalidLoop);
        break;
      }
      var done;
      done, at, rest, rungs, output, fuel := Visit(kind, store, at, hex, fuel, rest, rungs, output);
      if done.Some? {
        r := done.value;
        break;
      }
    }
  }

  /** One pass of gen_proof's loop: read the record under key, then either
      stop with the answer, or emit the branch's record and go on to the
      key in hex's slot. */
  method Visit(kind: Kind, store: map<string, string>, key: string, hex: string, fuel: nat, ghost rest: Result<Walked>,
               ghost rungs: seq<Rung>, output: string)
    returns (done: Option<Result<string>>, key': string, ghost rest': Result<Walked>, ghost rungs': seq<Rung>, output': string,
             fuel': nat)
    requires fuel > 0 && rest == Walk(kind, store, key, hex, fuel)
    requires Chosen(rungs) && output == RungsText(rungs)
    ensures fuel' < fuel
    ensures done.Some? ==> done.value == ProofText(Under(rungs, rest))
    ensures done.None? ==> rest' == Walk(kind, store, key', hex, fuel') && Under(rungs, rest) == Under(rungs', rest')
    ensures done.None? ==> Chosen(rungs') && output' == RungsText(rungs')
  {
    key', rest', rungs', output', fuel' := key, rest, rungs, output, fuel - 1;
    var parsed := Parse(kind, key, ReadOr(store, key, ""));
    WalkReads(kind, store, key, hex, fuel);
    if parsed.Err? {
      return Some(Err(parsed.error)), key', rest', rungs', output', fuel';
    }
    var cur := parsed.value;
    if cur.isLeaf {
      return Some(Err(BadRecord)), key', rest', rungs', output', fuel';
    }
    var which := OfWhich(cur, hex);
    if cur.keys[which] == "" || !IsPrefixChild(cur, which, hex) {
      WalkMissing(kind, store, cur, hex, fuel);
      return Some(Ok("?")), key', rest', rungs', output', fuel';
    }
    var l := RungOf(kind, store, cur, which);
    var record := EmitRung(kind, store, cur, which);
    RungsAppend(rungs, l);
    if IsPrefix(cur.keys[which], hex) {
      WalkLast(kind, store, cur, hex, fuel);
      return Some(Ok(output + record)), key', rest', rungs', output', fuel';
    }
    key' := cur.keys[which];
    WalkDown(kind, store, cur, hex, fuel, which, key', fuel');
    rest' := Walk(kind, store, key', hex, fuel');
    UnderStep(rungs, l, rest');
    rungs', output' := rungs + [l], output + record;
    done := None;
  }
}
