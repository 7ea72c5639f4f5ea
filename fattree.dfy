// FatTree (fattree.hpp): a 16-ary trie without versions whose update
// rewrites the records on the key's path in the store straight away.
// A branch is stored under its prefix (the root under "*"), a leaf under
// its whole key, and a branch names each child by key and hash.
module FatTrees {
  import opened Results
  import opened Tools
  import opened IO
  import opened Proof16
  import RatTree
  import RatVersioned
  import VersionedTree

  /** NodeFat: a leaf holds a value; a branch holds sixteen child keys and
      the children's hashes. */
  datatype Node = Node(key: string, value: string, keys: seq<string>, hashes: seq<string>, isRoot: bool, isLeaf: bool)

  const RootKey: string := "*"

  /** The record init writes for the root: sixteen empty key:hash pairs. */
  function EmptyRecord(): string {
    VersionedTree.BlankPairs(16)
  }

  /** The root that record stands for. */
  function EmptyRoot(): Node {
    Node(RootKey, "", RatVersioned.Blanks(), RatVersioned.Blanks(), true, false)
  }

  function NewLeaf(key: string, value: string): Node {
    Node(key, value, [], [], false, true)
  }

  // ---------------------------------------------------------------------
  // Records

  /** The reading constructor: a record starting with '!' is a leaf whose
      value is the rest; any other holds sixteen key:hash pairs. */
  function Parse(key: string, v: string): (r: Result<Node>)
    ensures r.Ok? ==> r.value.key == key && r.value.isRoot == (key == RootKey)
    ensures r.Ok? && !r.value.isLeaf ==> |r.value.keys| == 16 && |r.value.hashes| == 16
  {
    if CharAt(v, 0) == '!' then Ok(Node(key, v[1..], [], [], key == RootKey, true))
    else
      match RatVersioned.PairsOf(v, 16)
      case Err(e) => Err(e)
      case Ok(p) => Ok(Node(key, "", p.0, p.1, key == RootKey, false))
  }

  /** to_string: "!" and the value, or the sixteen pairs. */
  function ToString(n: Node): string {
    if n.isLeaf || |n.keys| != |n.hashes| then "!" + n.value else RatVersioned.JoinPairs(n.keys, n.hashes)
  }

  /** computeHash: a leaf hashes its value, a branch its children's hashes
      appended in slot order, an empty slot adding nothing. */
  function NodeHash(H: Hasher, n: Node): string {
    if n.isLeaf then Hash(H, n.value) else Hash(H, Concat(n.hashes))
  }

  /** The position of the nibble a node's children differ in: 0 at the
      root, the length of the prefix below it. */
  function Depth(n: Node): nat {
    if n.isRoot then 0 else |n.key|
  }

  /** The prefix every key under the node starts with. */
  function Base(n: Node): string {
    if n.isRoot then "" else n.key
  }

  /** ofWhich: the slot for key k, from k's nibble at the node's depth. */
  function OfWhich(n: Node, k: string): (w: int)
    ensures 0 <= w < 16
  {
    Hti(CharAt(k, Depth(n)))
  }

  /** isPrefixChild: the child's key is a prefix of k. */
  function IsPrefixChild(n: Node, c: int, k: string): (r: bool)
    requires 0 <= c < |n.keys|
    ensures r <==> n.keys[c] <= k
  {
    IsPrefix(k, n.keys[c])
  }

  /** A node whose record reads back as itself. */
  predicate Printable(n: Node) {
    n.isRoot == (n.key == RootKey)
    && (n.isLeaf ==> n.keys == [] && n.hashes == [])
    && (!n.isLeaf ==>
          n.value == "" && |n.keys| == 16 && |n.hashes| == 16 && CharAt(n.keys[0], 0) != '!'
          && forall i :: 0 <= i < 16 ==> RatTree.NoChar(n.keys[i], ':') && RatTree.NoChar(n.hashes[i], ','))
  }

  /** to_string and the reading constructor are inverse on printable
      nodes. */
  lemma {:induction false} ParsePrinted(n: Node)
    requires Printable(n)
    ensures Parse(n.key, ToString(n)) == Ok(n)
  {
    var v := ToString(n);
    if n.isLeaf {
      assert v[1..] == n.value;
    } else {
      var tail := v[|n.keys[0]|..];
      assert v == n.keys[0] + tail && tail[0] == ':';
      assert CharAt(v, 0) != '!';
      RatVersioned.PairsOfJoin(n.keys, n.hashes);
    }
  }

  // ---------------------------------------------------------------------
  // What update keeps true of every record

  /** Slot i of branch n as update leaves it: the hash is a digest or
      nothing, and a key is upper-case hex that extends the node's prefix,
      has slot i's nibble at the node's depth and is at most `height`
      long. */
  predicate SlotOk(n: Node, i: int, height: int)
    requires |n.keys| == 16 && |n.hashes| == 16 && 0 <= i < 16
  {
    (n.hashes[i] == "" || IsDigest(n.hashes[i]))
    && (n.keys[i] != "" ==>
          IsUpperHex(n.keys[i]) && Depth(n) < |n.keys[i]| <= height
          && Base(n) <= n.keys[i] && Hti(n.keys[i][Depth(n)]) == i)
  }

  /** A record as update writes it: leaves under whole keys of `height`
      upper-case hex digits, branches under shorter prefixes or "*". */
  predicate Sound(n: Node, height: int) {
    n.isRoot == (n.key == RootKey)
    && (n.isLeaf ==> n.keys == [] && n.hashes == [] && |n.key| == height && IsUpperHex(n.key))
    && (!n.isLeaf ==>
          n.value == "" && |n.keys| == 16 && |n.hashes| == 16
          && (!n.isRoot ==> |n.key| < height)
          && forall i :: 0 <= i < 16 ==> SlotOk(n, i, height))
  }

  /** Every child a branch names is stored. */
  predicate Linked(nodes: map<string, Node>, n: Node) {
    !n.isLeaf && |n.keys| == 16 ==> forall i :: 0 <= i < 16 && n.keys[i] != "" ==> n.keys[i] in nodes
  }

  /** The store holds, under each key, the record of a sound node with that
      key whose children are stored. */
  ghost predicate Stored(store: map<string, string>, nodes: map<string, Node>, height: int) {
    store.Keys == nodes.Keys
    && forall k {:trigger Filed(store, nodes, height, k)} :: k in nodes ==> Filed(store, nodes, height, k)
  }

  /** The record under k is that of a sound node with key k whose children
      are stored. */
  ghost predicate Filed(store: map<string, string>, nodes: map<string, Node>, height: int, k: string)
    requires k in nodes
  {
    nodes[k].key == k && Sound(nodes[k], height) && Linked(nodes, nodes[k])
    && k in store && store[k] == ToString(nodes[k])
  }

  /** What a sound store says of the node under k. */
  lemma {:induction false} StoredAt(store: map<string, string>, nodes: map<string, Node>, height: int, k: string)
    requires Stored(store, nodes, height) && k in nodes
    ensures nodes[k].key == k && Sound(nodes[k], height) && Linked(nodes, nodes[k])
    ensures k in store && store[k] == ToString(nodes[k])
  {
    assert Filed(store, nodes, height, k);
  }

  lemma {:induction false} SoundPrintable(n: Node, height: int)
    requires Sound(n, height)
    ensures Printable(n)
  {
    if !n.isLeaf {
      forall i | 0 <= i < 16
        ensures RatTree.NoChar(n.keys[i], ':') && RatTree.NoChar(n.hashes[i], ',')
      {
        assert SlotOk(n, i, height);
        if n.hashes[i] != "" {
          assert forall k :: 0 <= k < 64 ==> IsLowerHexChar(n.hashes[i][k]);
        }
      }
      assert SlotOk(n, 0, height);
      if n.keys[0] != "" {
        assert IsUpperHexChar(n.keys[0][0]);
      }
    }
  }

  /** A stored key reads back as its node. */
  lemma {:induction false} ReadStored(store: map<string, string>, nodes: map<string, Node>, height: int, k: string)
    requires Stored(store, nodes, height) && k in nodes
    ensures Parse(k, ReadOr(store, k, "")) == Ok(nodes[k])
  {
    StoredAt(store, nodes, height, k);
    SoundPrintable(nodes[k], height);
    ParsePrinted(nodes[k]);
  }

  /** Writing a sound node whose children are stored keeps the store
      sound. */
  lemma {:induction false} WriteStored(store: map<string, string>, nodes: map<string, Node>, height: int, n: Node)
    requires Stored(store, nodes, height) && Sound(n, height) && Linked(nodes, n)
    ensures Stored(store[n.key := ToString(n)], nodes[n.key := n], height)
  {
    var store', nodes' := store[n.key := ToString(n)], nodes[n.key := n];
    forall k | k in nodes'
      ensures Filed(store', nodes', height, k)
    {
      if k != n.key {
        StoredAt(store, nodes, height, k);
        assert Linked(nodes, nodes[k]);
      }
    }
  }

  /** A branch's slots are entries a proof can carry. */
  lemma {:induction false} SoundSlots(n: Node, height: int)
    requires Sound(n, height) && !n.isLeaf
    ensures Slots(n.hashes)
  {
    forall i | 0 <= i < 16
      ensures ChildHashOk(n.hashes[i])
    {
      assert SlotOk(n, i, height);
      if n.hashes[i] != "" {
        DigestIsNotNull(n.hashes[i]);
      }
    }
  }

  /** "*" is not a key of hex digits, so the root and any other node on a
      key's path have different keys, as do two nodes at different depths. */
  lemma {:induction false} KeysApart(a: Node, b: Node, hex: string)
    requires a.isRoot == (a.key == RootKey) && b.isRoot == (b.key == RootKey)
    requires IsUpperHex(hex) && Base(a) <= hex && Base(b) <= hex && Depth(a) < Depth(b)
    ensures a.key != b.key
  {
    assert !b.isRoot && |b.key| >= 1;
    assert b.key[0] == hex[0] && IsUpperHexChar(hex[0]);
  }

  // ---------------------------------------------------------------------
  // Paths

  /** The key slot j of a path leads to: the next node's, or the leaf's. */
  function EntryKey(route: seq<Node>, j: nat, hex: string): string {
    if j < |route| then route[j].key else hex
  }

  /** The hash slot j of a path should hold: the next node's, or the
      leaf's. */
  function EntryHash(H: Hasher, route: seq<Node>, j: nat, value: string): string {
    if j < |route| then NodeHash(H, route[j]) else Hash(H, value)
  }

  /** Node j of a path is a branch other than hex's leaf whose slot for hex
      holds the key and the hash of what comes next. */
  predicate Hop(H: Hasher, route: seq<Node>, j: int, hex: string, value: string)
    requires 0 <= j < |route|
  {
    var n := route[j];
    !n.isLeaf && |n.keys| == 16 && |n.hashes| == 16 && n.key != hex
    && n.keys[OfWhich(n, hex)] == EntryKey(route, j + 1, hex)
    && n.hashes[OfWhich(n, hex)] == EntryHash(H, route, j + 1, value)
  }

  /** route is a chain of branches down hex's slots to the leaf with the
      value. */
  predicate Chain(H: Hasher, route: seq<Node>, hex: string, value: string) {
    forall j :: 0 <= j < |route| ==> Hop(H, route, j, hex, value)
  }

  /** A stored branch. */
  predicate Placed(nodes: map<string, Node>, n: Node) {
    n.key in nodes && nodes[n.key] == n
  }

  /** route is a chain of stored branches down hex's slots to the leaf
      under hex, each slot on the way holding the key and the hash of what
      it leads to. */
  ghost predicate Path(H: Hasher, nodes: map<string, Node>, route: seq<Node>, hex: string, value: string) {
    Chain(H, route, hex, value) && forall j :: 0 <= j < |route| ==> Placed(nodes, route[j])
  }

  lemma {:induction false} ChainTail(H: Hasher, route: seq<Node>, hex: string, value: string)
    requires Chain(H, route, hex, value) && |route| >= 1
    ensures Chain(H, route[1..], hex, value)
  {
    var r := route[1..];
    forall j | 0 <= j < |r|
      ensures Hop(H, r, j, hex, value)
    {
      assert Hop(H, route, j + 1, hex, value);
      assert r[j] == route[j + 1];
      assert EntryKey(r, j + 1, hex) == EntryKey(route, j + 2, hex);
      assert EntryHash(H, r, j + 1, value) == EntryHash(H, route, j + 2, value);
    }
  }

  /** A branch whose slot leads to the start of a chain heads a longer
      one. */
  lemma {:induction false} ChainCons(H: Hasher, n: Node, route: seq<Node>, hex: string, value: string)
    requires Chain(H, route, hex, value) && !n.isLeaf && |n.keys| == 16 && |n.hashes| == 16 && n.key != hex
    requires n.keys[OfWhich(n, hex)] == EntryKey(route, 0, hex)
    requires n.hashes[OfWhich(n, hex)] == EntryHash(H, route, 0, value)
    ensures Chain(H, [n] + route, hex, value)
  {
    var r := [n] + route;
    forall j | 0 <= j < |r|
      ensures Hop(H, r, j, hex, value)
    {
      if j > 0 {
        assert Hop(H, route, j - 1, hex, value);
        assert r[j] == route[j - 1];
        assert EntryKey(r, j + 1, hex) == EntryKey(route, j, hex);
        assert EntryHash(H, r, j + 1, value) == EntryHash(H, route, j, value);
      }
    }
  }

  /** Writing a node under a key no node of the path has keeps the path. */
  lemma {:induction false} PathWrite(H: Hasher, nodes: map<string, Node>, route: seq<Node>, hex: string, value: string, n: Node)
    requires Path(H, nodes, route, hex, value)
    requires forall j :: 0 <= j < |route| ==> route[j].key != n.key
    ensures Path(H, nodes[n.key := n], route, hex, value)
  {
    var nodes' := nodes[n.key := n];
    forall j | 0 <= j < |route|
      ensures Placed(nodes', route[j])
    {
      assert Placed(nodes, route[j]);
    }
  }

  /** gen_proof's levels along a path. */
  function Levels(route: seq<Node>, hex: string): (ls: seq<Level>)
    ensures |ls| == |route|
    ensures Selects(ls)
  {
    if route == [] then [] else [Level(OfWhich(route[0], hex), route[0].hashes)] + Levels(route[1..], hex)
  }

  /** Every branch of the path has slots a proof can carry. */
  predicate SlotsAlong(route: seq<Node>) {
    forall j :: 0 <= j < |route| ==> |route[j].hashes| == 16 && Slots(route[j].hashes)
  }

  /** Every branch of the path reads back from the store as itself. */
  predicate ReadAlong(store: map<string, string>, route: seq<Node>) {
    forall j {:trigger ReadsAs(store, route[j])} :: 0 <= j < |route| ==> ReadsAs(store, route[j])
  }

  /** The record under n's key reads back as n. */
  predicate ReadsAs(store: map<string, string>, n: Node) {
    Parse(n.key, ReadOr(store, n.key, "")) == Ok(n)
  }

  /** The nodes of a path in a sound store are printable branches with
      proof-ready slots. */
  lemma {:induction false} StoredAlong(H: Hasher, store: map<string, string>, nodes: map<string, Node>, height: int,
                                       route: seq<Node>, hex: string, value: string)
    requires Stored(store, nodes, height) && Path(H, nodes, route, hex, value)
    ensures SlotsAlong(route) && ReadAlong(store, route)
  {
    forall j | 0 <= j < |route|
      ensures |route[j].hashes| == 16 && Slots(route[j].hashes)
      ensures ReadsAs(store, route[j])
    {
      var n := route[j];
      assert Placed(nodes, n) && Hop(H, route, j, hex, value);
      StoredAt(store, nodes, height, n.key);
      SoundSlots(n, height);
      ReadStored(store, nodes, height, n.key);
    }
  }

  /** Folding a chain's levels from the leaf's hash gives the hash of its
      first node. */
  lemma {:induction false} ChainFolds(H: Hasher, route: seq<Node>, hex: string, value: string)
    requires Chain(H, route, hex, value) && SlotsAlong(route)
    ensures LevelsOk(Levels(route, hex))
    ensures FoldLevels(H, Levels(route, hex), Hash(H, value)) == EntryHash(H, route, 0, value)
    decreases |route|
  {
    if route != [] {
      var n := route[0];
      assert Hop(H, route, 0, hex, value);
      var l := Level(OfWhich(n, hex), n.hashes);
      var tail := route[1..];
      ChainTail(H, route, hex, value);
      assert SlotsAlong(tail) by {
        forall j | 0 <= j < |tail| ensures |tail[j].hashes| == 16 && Slots(tail[j].hashes) {
          assert tail[j] == route[j + 1];
        }
      }
      ChainFolds(H, tail, hex, value);
      var rest := Levels(tail, hex);
      assert Levels(route, hex) == [l] + rest;
      FoldLevelsPrepend(H, l, rest, Hash(H, value));
      assert EntryHash(H, tail, 0, value) == EntryHash(H, route, 1, value);
      assert n.hashes[l.which := EntryHash(H, route, 1, value)] == n.hashes;
    }
  }

  // ---------------------------------------------------------------------
  // gen_proof

  /** gen_proof's walk from the record under key towards hex: each branch
      passed gives a level, and the walk stops at the branch whose slot for
      hex names hex itself. The source gives up after 41 records; a leaf or
      a missing record on the way is undefined there and an error here. */
  function Walk(store: map<string, string>, key: string, hex: string, fuel: nat): (r: Result<seq<Level>>)
    ensures r.Ok? ==> Selects(r.value)
    decreases fuel, 2
  {
    if fuel == 0 then Err(InvalidLoop) else WalkRecord(store, key, hex, fuel)
  }

  /** One pass of the walk: read key's record. */
  function WalkRecord(store: map<string, string>, key: string, hex: string, fuel: nat): (r: Result<seq<Level>>)
    requires fuel > 0
    ensures r.Ok? ==> Selects(r.value)
    decreases fuel, 1
  {
    match Parse(key, ReadOr(store, key, ""))
    case Err(e) => Err(e)
    case Ok(cur) => WalkNode(store, cur, hex, fuel)
  }

  /** The rest of the pass, over the node just read: emit its level, and
      stop if the slot for hex names hex or go on to the child it names. */
  function WalkNode(store: map<string, string>, cur: Node, hex: string, fuel: nat): (r: Result<seq<Level>>)
    requires fuel > 0
    ensures r.Ok? ==> Selects(r.value)
    decreases fuel, 0
  {
    if cur.isLeaf || |cur.keys| != 16 || |cur.hashes| != 16 then Err(BadRecord)
    else
      var l := Level(OfWhich(cur, hex), cur.hashes);
      if cur.keys[l.which] == hex then Ok([l])
      else Under([l], Walk(store, cur.keys[l.which], hex, fuel - 1))
  }

  /** A pass over a record that reads as cur is a pass over cur. */
  lemma {:induction false} WalkReads(store: map<string, string>, key: string, hex: string, fuel: nat, cur: Node)
    requires fuel > 0 && Parse(key, ReadOr(store, key, "")) == Ok(cur)
    ensures Walk(store, key, hex, fuel) == WalkNode(store, cur, hex, fuel)
  {
  }

  /** A pass over a branch whose slot for hex names hex ends the walk. */
  lemma {:induction false} WalkEnds(store: map<string, string>, key: string, hex: string, fuel: nat, cur: Node)
    requires fuel > 0 && Parse(key, ReadOr(store, key, "")) == Ok(cur)
    requires !cur.isLeaf && |cur.keys| == 16 && |cur.hashes| == 16 && cur.keys[OfWhich(cur, hex)] == hex
    ensures Walk(store, key, hex, fuel) == Ok([Level(OfWhich(cur, hex), cur.hashes)])
  {
    WalkReads(store, key, hex, fuel, cur);
  }

  /** A pass over a branch whose slot for hex names another key goes on to
      that key. */
  lemma {:induction false} WalkGoesOn(store: map<string, string>, key: string, hex: string, fuel: nat, cur: Node,
                                      next: string, fuel': nat, l: Level)
    requires fuel > 0 && fuel' == fuel - 1 && Parse(key, ReadOr(store, key, "")) == Ok(cur)
    requires !cur.isLeaf && |cur.keys| == 16 && |cur.hashes| == 16 && cur.keys[OfWhich(cur, hex)] == next != hex
    requires l == Level(OfWhich(cur, hex), cur.hashes)
    ensures Walk(store, key, hex, fuel) == Under([l], Walk(store, next, hex, fuel'))
  {
    WalkReads(store, key, hex, fuel, cur);
    NodeGoesOn(store, cur, hex, fuel, next, fuel', l);
  }

  /** The pass over such a branch, once read. */
  lemma {:induction false} NodeGoesOn(store: map<string, string>, cur: Node, hex: string, fuel: nat, next: string,
                                      fuel': nat, l: Level)
    requires fuel > 0 && fuel' == fuel - 1
    requires !cur.isLeaf && |cur.keys| == 16 && |cur.hashes| == 16 && cur.keys[OfWhich(cur, hex)] == next != hex
    requires l == Level(OfWhich(cur, hex), cur.hashes)
    ensures WalkNode(store, cur, hex, fuel) == Under([l], Walk(store, next, hex, fuel'))
  {
    assert cur.keys[l.which] == next;
  }

  /** The walk so far, `above` root first, then the walk still to come. */
  function Under(above: seq<Level>, r: Result<seq<Level>>): Result<seq<Level>> {
    match r
    case Err(e) => Err(e)
    case Ok(ls) => Ok(above + ls)
  }

  /** gen_proof: "?" when nothing is stored under the key, otherwise the
      records of the branches the walk from the root passes. */
  function ProofFor(store: map<string, string>, hex: string): Result<string> {
    if ReadOr(store, hex, "") == "" then Ok("?") else ProofText(Walk(store, RootKey, hex, 41))
  }

  /** The records of the levels a walk passed, or its failure. */
  function ProofText(r: Result<seq<Level>>): Result<string>
    requires r.Ok? ==> Selects(r.value)
  {
    match r
    case Err(e) => Err(e)
    case Ok(ls) => Ok(PathProof(ls))
  }

  /** One more level taken off the rest of a walk and added to what is
      above it leaves the whole walk as it was. */
  lemma {:induction false} UnderStep(above: seq<Level>, l: Level, r: Result<seq<Level>>)
    ensures Under(above, Under([l], r)) == Under(above + [l], r)
  {
    if r.Ok? {
      assert above + ([l] + r.value) == above + [l] + r.value;
    }
  }

  /** The walk over a chain of stored branches passes exactly its nodes. */
  lemma {:induction false} WalkChain(H: Hasher, store: map<string, string>, route: seq<Node>, hex: string, value: string,
                                     fuel: nat)
    requires Chain(H, route, hex, value) && ReadAlong(store, route)
    requires 1 <= |route| <= fuel
    ensures WalkNode(store, route[0], hex, fuel) == Ok(Levels(route, hex))
    decreases |route|
  {
    if |route| == 1 {
      WalkChainEnds(H, store, route, hex, value, fuel);
    } else {
      ChainRest(H, store, route, hex, value);
      WalkChain(H, store, route[1..], hex, value, fuel - 1);
      WalkChainCons(H, store, route, hex, value, fuel);
    }
  }

  /** The chain and the reads go on past the first branch. */
  lemma {:induction false} ChainRest(H: Hasher, store: map<string, string>, route: seq<Node>, hex: string,
                                     value: string)
    requires Chain(H, route, hex, value) && ReadAlong(store, route) && |route| >= 1
    ensures Chain(H, route[1..], hex, value) && ReadAlong(store, route[1..])
  {
    ChainTail(H, route, hex, value);
    ReadAlongTail(store, route);
  }

  /** A walk along the chain's tail extends to the whole chain. */
  lemma {:induction false} WalkChainCons(H: Hasher, store: map<string, string>, route: seq<Node>, hex: string,
                                         value: string, fuel: nat)
    requires Chain(H, route, hex, value) && ReadAlong(store, route) && 2 <= |route| <= fuel
    requires WalkNode(store, route[1], hex, fuel - 1) == Ok(Levels(route[1..], hex))
    ensures WalkNode(store, route[0], hex, fuel) == Ok(Levels(route, hex))
  {
    HopOn(H, route, hex, value);
    ReadAt(store, route, 1);
    WalkOn(store, route[0], route[1], hex, fuel, Levels(route[1..], hex));
    LevelsCons(route, hex);
  }

  /** The last branch of a chain ends the walk. */
  lemma {:induction false} WalkChainEnds(H: Hasher, store: map<string, string>, route: seq<Node>, hex: string,
                                         value: string, fuel: nat)
    requires Chain(H, route, hex, value) && |route| == 1 && fuel >= 1
    ensures WalkNode(store, route[0], hex, fuel) == Ok(Levels(route, hex))
  {
    var n := route[0];
    assert Hop(H, route, 0, hex, value);
    var l := Level(OfWhich(n, hex), n.hashes);
    assert n.keys[l.which] == hex;
    assert Levels(route, hex) == [l];
  }

  /** The first hop of a chain of two or more branches leads to the
      second branch. */
  lemma {:induction false} HopOn(H: Hasher, route: seq<Node>, hex: string, value: string)
    requires Chain(H, route, hex, value) && |route| >= 2
    ensures !route[0].isLeaf && |route[0].keys| == 16 && |route[0].hashes| == 16
    ensures route[0].keys[OfWhich(route[0], hex)] == route[1].key != hex
  {
    assert Hop(H, route, 0, hex, value) && Hop(H, route, 1, hex, value);
  }

  lemma {:induction false} ReadAt(store: map<string, string>, route: seq<Node>, j: int)
    requires ReadAlong(store, route) && 0 <= j < |route|
    ensures Parse(route[j].key, ReadOr(store, route[j].key, "")) == Ok(route[j])
  {
    assert ReadsAs(store, route[j]);
  }

  lemma {:induction false} LevelsCons(route: seq<Node>, hex: string)
    requires route != []
    ensures Levels(route, hex) == [Level(OfWhich(route[0], hex), route[0].hashes)] + Levels(route[1..], hex)
  {
  }

  lemma {:induction false} ReadAlongTail(store: map<string, string>, route: seq<Node>)
    requires ReadAlong(store, route) && |route| >= 1
    ensures ReadAlong(store, route[1..])
  {
    var tail := route[1..];
    forall j | 0 <= j < |tail|
      ensures ReadsAs(store, tail[j])
    {
      assert tail[j] == route[j + 1];
    }
  }

  /** A pass over branch n whose slot for hex names the stored branch next
      continues with the pass over next. */
  lemma {:induction false} WalkOn(store: map<string, string>, n: Node, next: Node, hex: string, fuel: nat,
                                  rest: seq<Level>)
    requires fuel > 1 && !n.isLeaf && |n.keys| == 16 && |n.hashes| == 16 && n.keys[OfWhich(n, hex)] == next.key != hex
    requires Parse(next.key, ReadOr(store, next.key, "")) == Ok(next)
    requires WalkNode(store, next, hex, fuel - 1) == Ok(rest)
    ensures WalkNode(store, n, hex, fuel) == Ok([Level(OfWhich(n, hex), n.hashes)] + rest)
  {
    WalkReads(store, next.key, hex, fuel - 1, next);
  }

  /** After an update: gen_proof for the key walks the path the update
      wrote, and verify_proof accepts that proof with the key's value
      against the hash of the path's root, as written and as intended. */
  lemma {:induction false} PathProves(H: Hasher, store: map<string, string>, nodes: map<string, Node>, height: int,
                                      route: seq<Node>, hex: string, value: string)
    requires Stored(store, nodes, height) && Path(H, nodes, route, hex, value)
    requires 1 <= |route| <= 41 && route[0].key == RootKey && hex in nodes && nodes[hex] == NewLeaf(hex, value)
    ensures ProofFor(store, hex) == Ok(PathProof(Levels(route, hex)))
    ensures Verify(H, NodeHash(H, route[0]), value, PathProof(Levels(route, hex)))
    ensures VerifyChecked(H, NodeHash(H, route[0]), value, PathProof(Levels(route, hex)))
  {
    StoredAlong(H, store, nodes, height, route, hex, value);
    PathWalks(H, store, nodes, height, route, hex, value);
    PathFolds(H, route, hex, value);
  }

  /** gen_proof finds a stored path's levels. */
  lemma {:induction false} PathWalks(H: Hasher, store: map<string, string>, nodes: map<string, Node>, height: int,
                                     route: seq<Node>, hex: string, value: string)
    requires Stored(store, nodes, height) && Chain(H, route, hex, value) && ReadAlong(store, route)
    requires 1 <= |route| <= 41 && route[0].key == RootKey && hex in nodes && nodes[hex] == NewLeaf(hex, value)
    ensures ProofFor(store, hex) == Ok(PathProof(Levels(route, hex)))
  {
    StoredAt(store, nodes, height, hex);
    assert ReadOr(store, hex, "") == "!" + value;
    WalkChain(H, store, route, hex, value, 41);
    ReadAt(store, route, 0);
    WalkReads(store, RootKey, hex, 41, route[0]);
  }

  /** verify_proof accepts the levels of a chain, as written and as
      intended. */
  lemma {:induction false} PathFolds(H: Hasher, route: seq<Node>, hex: string, value: string)
    requires Chain(H, route, hex, value) && SlotsAlong(route) && |route| >= 1
    ensures Verify(H, NodeHash(H, route[0]), value, PathProof(Levels(route, hex)))
    ensures VerifyChecked(H, NodeHash(H, route[0]), value, PathProof(Levels(route, hex)))
  {
    ChainFolds(H, route, hex, value);
    VerifyPathComplete(H, NodeHash(H, route[0]), value, Levels(route, hex));
    CheckedPathComplete(H, NodeHash(H, route[0]), value, Levels(route, hex));
  }

  /** gen_proof's loop: from the root down hex's path, emitting one record
      per branch passed. */
  method WalkProof(store: map<string, string>, hex: string) returns (r: Result<string>)
    ensures r == ProofText(Walk(store, RootKey, hex, 41))
  {
    var output, key := "", RootKey;
    var fuel: nat := 41;
    ghost var top := Walk(store, RootKey, hex, fuel);
    ghost var rest, levels: seq<Level> := top, [];
    if top.Ok? {
      assert [] + top.value == top.value;
    }
    while true
      invariant rest == Walk(store, key, hex, fuel)
      invariant top == Under(levels, rest)
      invariant Selects(levels) && output == PathProof(levels)
      decreases fuel
    {
      if fuel == 0 {
        r := Err(InvalidLoop);
        break;
      }
      var done, fuel';
      done, key, rest, levels, output, fuel' := Visit(store, key, hex, fuel, rest, levels, output);
      if done.Some? {
        r := done.value;
        break;
      }
      fuel := fuel';
    }
  }

  /** One pass of gen_proof's loop: read key's record, emit its record, and
      stop if the slot names hex or go on to the child it names. */
  method Visit(store: map<string, string>, key: string, hex: string, fuel: nat, ghost rest: Result<seq<Level>>,
               ghost levels: seq<Level>, output: string)
    returns (done: Option<Result<string>>, key': string, ghost rest': Result<seq<Level>>, ghost levels': seq<Level>,
             output': string, fuel': nat)
    requires fuel > 0 && rest == Walk(store, key, hex, fuel)
    requires Selects(levels) && output == PathProof(levels)
    ensures fuel' < fuel
    ensures done.Some? ==> done.value == ProofText(Under(levels, rest))
    ensures done.None? ==> rest' == Walk(store, key', hex, fuel') && Under(levels, rest) == Under(levels', rest')
    ensures done.None? ==> Selects(levels') && output' == PathProof(levels')
  {
    key', rest', levels', output', fuel' := key, rest, levels, output, fuel - 1;
    done := None;
    var parsed := Parse(key, ReadOr(store, key, ""));
    if parsed.Err? {
      done := Some(Err(parsed.error));
    } else {
      var cur := parsed.value;
      if cur.isLeaf || |cur.keys| != 16 || |cur.hashes| != 16 {
        WalkReads(store, key, hex, fuel, cur);
        done := Some(Err(BadRecord));
      } else {
        var which := OfWhich(cur, hex);
        var l := Level(which, cur.hashes);
        var record := EmitRecord(which, cur.hashes);
        RatTree.PathProofAppend(levels, l);
        if cur.keys[which] == hex {
          WalkEnds(store, key, hex, fuel, cur);
          done := Some(Ok(output + record));
        } else {
          key' := cur.keys[which];
          WalkGoesOn(store, key, hex, fuel, cur, key', fuel', l);
          rest' := Walk(store, key', hex, fuel');
          UnderStep(levels, l, rest');
          levels', output' := levels + [l], output + record;
        }
      }
    }
  }

  /** init's store: the all-empty root record alone, which is sound and
      hashes to H(""). */
  lemma EmptyRootStored(H: Hasher, height: int)
    ensures 0 < height ==> Stored(map[RootKey := EmptyRecord()], map[RootKey := EmptyRoot()], height)
    ensures !EmptyRoot().isLeaf && NodeHash(H, EmptyRoot()) == Hash(H, "")
  {
    EmptyRootHash(H);
    if 0 < height {
      EmptyRootAlone(height);
    }
  }

  /** The empty root is a branch over sixteen empty hashes. */
  lemma EmptyRootHash(H: Hasher)
    ensures !EmptyRoot().isLeaf && NodeHash(H, EmptyRoot()) == Hash(H, "")
  {
    RatTree.JoinEmpty(EmptyRoot().hashes);
  }

  /** init's store holds the empty root's record and nothing else. */
  lemma EmptyRootAlone(height: int)
    requires 0 < height
    ensures Stored(map[RootKey := EmptyRecord()], map[RootKey := EmptyRoot()], height)
  {
    EmptyRootSound(height);
    EmptyRootPrinted();
    assert Linked(map[RootKey := EmptyRoot()], EmptyRoot());
    StoredAlone(RootKey, EmptyRecord(), EmptyRoot(), height);
  }

  /** A store of one record, of a sound node that names no other. */
  lemma StoredAlone(k: string, record: string, n: Node, height: int)
    requires n.key == k && Sound(n, height) && Linked(map[k := n], n) && record == ToString(n)
    ensures Stored(map[k := record], map[k := n], height)
  {
    assert map[k := record].Keys == map[k := n].Keys == {k};
    assert Filed(map[k := record], map[k := n], height, k);
  }

  /** init's record is what the empty root prints as. */
  lemma EmptyRootPrinted()
    ensures ToString(EmptyRoot()) == EmptyRecord()
  {
    var root := EmptyRoot();
    VersionedTree.JoinBlankPairs(root.keys, root.hashes);
  }

  lemma EmptyRootSound(height: int)
    requires 0 < height
    ensures Sound(EmptyRoot(), height)
  {
    var root := EmptyRoot();
    forall i | 0 <= i < 16
      ensures SlotOk(root, i, height)
    {
      assert root.keys[i] == "" && root.hashes[i] == "";
    }
  }

  // ---------------------------------------------------------------------
  // update's pieces

  /** The branch update puts where a key leaves a child's prefix: keyed by
      the two keys' common prefix, with the new leaf and the old child,
      key and hash unchanged, in their own slots and every other slot
      empty. */
  function SplitBranch(hex: string, leafHash: string, child: string, childHash: string): (b: Node)
    requires IsUpperHex(hex) && IsUpperHex(child) && !(child <= hex) && |child| <= |hex|
    ensures b.key == CommonPrefix(hex, child) && !b.isLeaf && !b.isRoot && b.value == ""
    ensures |b.keys| == 16 && |b.hashes| == 16 && Depth(b) < |hex| && Depth(b) < |child|
    ensures OfWhich(b, hex) != OfWhich(b, child)
    ensures b.keys[OfWhich(b, hex)] == hex && b.hashes[OfWhich(b, hex)] == leafHash
    ensures b.keys[OfWhich(b, child)] == child && b.hashes[OfWhich(b, child)] == childHash
    ensures forall i :: 0 <= i < 16 && i != OfWhich(b, hex) && i != OfWhich(b, child) ==> b.keys[i] == "" && b.hashes[i] == ""
  {
    var newKey := CommonPrefix(hex, child);
    assert |newKey| < |child|;
    assert hex[|newKey|] != child[|newKey|];
    var b := Node(newKey, "", RatVersioned.Blanks(), RatVersioned.Blanks(), newKey == RootKey, false);
    assert !b.isRoot;
    var w1 := OfWhich(b, hex);
    var b1 := b.(keys := b.keys[w1 := hex], hashes := b.hashes[w1 := leafHash]);
    var w2 := OfWhich(b1, child);
    assert w1 != w2 by {
      if w1 == w2 {
        HtiInjectiveOnUpperHex(hex[|newKey|], child[|newKey|]);
      }
    }
    b1.(keys := b1.keys[w2 := child], hashes := b1.hashes[w2 := childHash])
  }

  /** Two keys of hex digits that agree up to n characters have a common
      prefix at least that long. */
  lemma {:induction false} CommonPrefixAtLeast(s1: string, s2: string, n: nat)
    requires n <= |s1| && n <= |s2| && s1[..n] == s2[..n]
    ensures |CommonPrefix(s1, s2)| >= n
  {
    var r := CommonPrefix(s1, s2);
  }

  /** update's descent, and the nodes its write-back rewrites: sound
      branches from the root down hex's path at growing depths, each naming
      the next in its slot for hex, with the slot for hex of each in lefts. */
  ghost predicate Ladder(stack: seq<Node>, lefts: seq<int>, hex: string, height: int) {
    |stack| >= 1 && |lefts| == |stack| && stack[0].key == RootKey
    && (forall j {:trigger Rung(stack, lefts, hex, height, j)} :: 0 <= j < |stack| ==>
          Rung(stack, lefts, hex, height, j))
    && (forall j {:trigger Joined(stack, lefts, hex, j)} :: 0 <= j < |stack| - 1 ==> Joined(stack, lefts, hex, j))
  }

  /** Node j of the descent is a sound branch on hex's path, lefts[j] its
      slot for hex. */
  ghost predicate Rung(stack: seq<Node>, lefts: seq<int>, hex: string, height: int, j: int)
    requires 0 <= j < |stack| && |lefts| == |stack|
  {
    Sound(stack[j], height) && !stack[j].isLeaf && Base(stack[j]) <= hex && j <= Depth(stack[j])
    && lefts[j] == OfWhich(stack[j], hex)
  }

  /** Node j's slot for hex names node j + 1, which is deeper. */
  ghost predicate Joined(stack: seq<Node>, lefts: seq<int>, hex: string, j: int)
    requires 0 <= j < |stack| - 1 && |lefts| == |stack|
  {
    0 <= lefts[j] < |stack[j].keys| && stack[j].keys[lefts[j]] == stack[j + 1].key != hex
    && Depth(stack[j]) < Depth(stack[j + 1])
  }

  /** What the ladder says of node j. */
  lemma {:induction false} LadderAt(stack: seq<Node>, lefts: seq<int>, hex: string, height: int, j: int)
    requires Ladder(stack, lefts, hex, height) && 0 <= j < |stack|
    ensures Sound(stack[j], height) && !stack[j].isLeaf && Base(stack[j]) <= hex && j <= Depth(stack[j])
    ensures lefts[j] == OfWhich(stack[j], hex) && |stack[j].keys| == 16 && |stack[j].hashes| == 16
  {
    assert Rung(stack, lefts, hex, height, j);
  }

  /** Every node of the stack is the one stored under its key. */
  ghost predicate OnRecord(nodes: map<string, Node>, stack: seq<Node>) {
    forall j :: 0 <= j < |stack| ==> Placed(nodes, stack[j])
  }

  /** Where update's descent stops: at a branch whose slot for hex is
      empty, names hex, or names a key that is not a prefix of hex. */
  ghost predicate Descended(nodes: map<string, Node>, stack: seq<Node>, lefts: seq<int>, hex: string, height: int) {
    Ladder(stack, lefts, hex, height) && OnRecord(nodes, stack) && |stack| <= height
    && Rung(stack, lefts, hex, height, |stack| - 1)
    && var c := stack[|stack| - 1].keys[lefts[|stack| - 1]];
       c == "" || c == hex || !(c <= hex)
  }

  /** A child a stored branch names is stored. */
  lemma {:induction false} ChildStored(store: map<string, string>, nodes: map<string, Node>, height: int, n: Node, i: int)
    requires Stored(store, nodes, height) && Placed(nodes, n) && !n.isLeaf && |n.keys| == 16 && 0 <= i < 16
    requires n.keys[i] != ""
    ensures n.keys[i] in nodes
  {
    StoredAt(store, nodes, height, n.key);
  }

  /** update's descent: from the root, follow the slot for hex while it
      names a proper prefix of hex. The source throws once it has read 42
      records, which a key of at most 42 digits never reaches. */
  method Descend(store: map<string, string>, ghost nodes: map<string, Node>, height: int, hex: string)
    returns (r: Result<(seq<Node>, seq<int>)>)
    requires Stored(store, nodes, height) && RootKey in nodes && !nodes[RootKey].isLeaf && 0 < height
    requires IsUpperHex(hex) && |hex| == height
    ensures height <= 42 ==> r.Ok?
    ensures r.Ok? ==> Descended(nodes, r.value.0, r.value.1, hex, height)
  {
    DescendStart(store, nodes, height, hex);
    var root := Parse(RootKey, ReadOr(store, RootKey, "")).value;
    var stack, lefts := [root], [OfWhich(root, hex)];
    var cnt := 0;
    while true
      invariant Ladder(stack, lefts, hex, height) && OnRecord(nodes, stack)
      invariant cnt == |stack| - 1 && |stack| <= height
      decreases height - |stack|
    {
      cnt := cnt + 1;
      if cnt > 42 {
        return Err(InvalidLoop);
      }
      LadderAt(stack, lefts, hex, height, |stack| - 1);
      var cur, which := stack[|stack| - 1], lefts[|stack| - 1];
      if cur.keys[which] == "" || cur.keys[which] == hex || !IsPrefixChild(cur, which, hex) {
        assert Rung(stack, lefts, hex, height, |stack| - 1);
        assert Descended(nodes, stack, lefts, hex, height);
        return Ok((stack, lefts));
      }
      var child := cur.keys[which];
      DescendNext(store, nodes, height, stack, lefts, hex, child);
      var next := Parse(child, ReadOr(store, child, "")).value;
      stack, lefts := stack + [next], lefts + [OfWhich(next, hex)];
    }
  }

  /** The descent starts at the stored root. */
  lemma {:induction false} DescendStart(store: map<string, string>, nodes: map<string, Node>, height: int, hex: string)
    requires Stored(store, nodes, height) && RootKey in nodes && !nodes[RootKey].isLeaf && 0 < height
    requires IsUpperHex(hex)
    ensures Parse(RootKey, ReadOr(store, RootKey, "")) == Ok(nodes[RootKey])
    ensures Ladder([nodes[RootKey]], [OfWhich(nodes[RootKey], hex)], hex, height)
    ensures OnRecord(nodes, [nodes[RootKey]])
  {
    ReadStored(store, nodes, height, RootKey);
    StoredAt(store, nodes, height, RootKey);
    assert Rung([nodes[RootKey]], [OfWhich(nodes[RootKey], hex)], hex, height, 0);
  }

  /** The child the slot for hex of the descent's last node names, when
      it is a proper prefix of hex, is stored, reads back, and extends the
      descent. */
  lemma {:induction false} DescendNext(store: map<string, string>, nodes: map<string, Node>, height: int,
                                       stack: seq<Node>, lefts: seq<int>, hex: string, child: string)
    requires Stored(store, nodes, height) && IsUpperHex(hex) && |hex| == height
    requires Ladder(stack, lefts, hex, height) && Rung(stack, lefts, hex, height, |stack| - 1) && OnRecord(nodes, stack)
    requires child == stack[|stack| - 1].keys[lefts[|stack| - 1]] && child != "" && child != hex && child <= hex
    ensures Parse(child, ReadOr(store, child, "")).Ok?
    ensures var next := Parse(child, ReadOr(store, child, "")).value;
      Ladder(stack + [next], lefts + [OfWhich(next, hex)], hex, height)
      && OnRecord(nodes, stack + [next]) && |stack| + 1 <= height
  {
    var cur, which := stack[|stack| - 1], lefts[|stack| - 1];
    assert Placed(nodes, cur);
    ChildStored(store, nodes, height, cur, which);
    var next := nodes[child];
    ReadStored(store, nodes, height, child);
    ChildBranch(store, nodes, height, cur, which, hex, next);
    DescendStep(nodes, height, stack, lefts, hex, next);
  }

  /** One more record on the descent: the child the slot for hex names is
      a stored branch deeper than the node above it. */
  lemma {:induction false} DescendStep(nodes: map<string, Node>, height: int, stack: seq<Node>, lefts: seq<int>,
                                       hex: string, next: Node)
    requires Ladder(stack, lefts, hex, height) && Rung(stack, lefts, hex, height, |stack| - 1) && OnRecord(nodes, stack)
    requires next.key == stack[|stack| - 1].keys[lefts[|stack| - 1]] != hex && Placed(nodes, next)
    requires Sound(next, height) && !next.isLeaf && Base(next) <= hex && Depth(stack[|stack| - 1]) < Depth(next) < height
    ensures Ladder(stack + [next], lefts + [OfWhich(next, hex)], hex, height) && OnRecord(nodes, stack + [next])
    ensures |stack| + 1 <= height
  {
    var last := |stack| - 1;
    var cur := stack[last];
    var s, ls := stack + [next], lefts + [OfWhich(next, hex)];
    forall j | 0 <= j < |s|
      ensures Rung(s, ls, hex, height, j) && Placed(nodes, s[j])
    {
      if j < |stack| {
        assert Rung(stack, lefts, hex, height, j);
        assert s[j] == stack[j] && ls[j] == lefts[j];
      }
    }
    forall j | 0 <= j < |s| - 1
      ensures Joined(s, ls, hex, j)
    {
      if j < last {
        assert Joined(stack, lefts, hex, j);
      }
      assert s[j] == stack[j] && ls[j] == lefts[j];
    }
  }

  /** The child a branch on hex's path names, when it is a proper prefix of
      hex, is a deeper branch on the path. */
  lemma {:induction false} ChildBranch(store: map<string, string>, nodes: map<string, Node>, height: int, cur: Node,
                                       which: int, hex: string, next: Node)
    requires Stored(store, nodes, height) && IsUpperHex(hex) && |hex| == height
    requires Sound(cur, height) && !cur.isLeaf && Base(cur) <= hex && which == OfWhich(cur, hex)
    requires var c := cur.keys[which]; c != "" && c != hex && c <= hex && c in nodes && next == nodes[c]
    ensures next.key == cur.keys[which] && Sound(next, height) && !next.isLeaf && !next.isRoot
    ensures Base(next) <= hex && Depth(cur) < Depth(next) < height
  {
    var c := cur.keys[which];
    assert SlotOk(cur, which, height);
    StoredAt(store, nodes, height, c);
    assert !next.isRoot by {
      assert IsUpperHexChar(c[0]);
    }
    assert !next.isLeaf by {
      if next.isLeaf {
        assert false;
      }
    }
  }

  /** Repointing a sound branch's slot at a key that belongs there keeps it
      sound. */
  lemma {:induction false} RepointSound(n: Node, which: int, k: string, height: int)
    requires Sound(n, height) && !n.isLeaf && 0 <= which < 16
    requires IsUpperHex(k) && Depth(n) < |k| <= height && Base(n) <= k && Hti(k[Depth(n)]) == which
    ensures Sound(n.(keys := n.keys[which := k]), height)
  {
    var t := n.(keys := n.keys[which := k]);
    forall i | 0 <= i < 16
      ensures SlotOk(t, i, height)
    {
      assert SlotOk(n, i, height);
    }
  }

  /** Putting a digest into a sound branch's slot keeps it sound. */
  lemma {:induction false} RehashSound(n: Node, which: int, h: string, height: int)
    requires Sound(n, height) && !n.isLeaf && 0 <= which < 16 && IsDigest(h)
    ensures Sound(n.(hashes := n.hashes[which := h]), height)
  {
    var t := n.(hashes := n.hashes[which := h]);
    forall i | 0 <= i < 16
      ensures SlotOk(t, i, height)
    {
      assert SlotOk(n, i, height);
    }
  }

  /** The key that leaves top's slot for hex shares with hex the nibble at
      top's depth, so their common prefix reaches below top. */
  lemma {:induction false} SplitDeeper(top: Node, which: int, hex: string, height: int)
    requires Sound(top, height) && !top.isLeaf && IsUpperHex(hex) && |hex| == height
    requires Base(top) <= hex && which == OfWhich(top, hex) && top.keys[which] != ""
    ensures Depth(top) < |hex| && Depth(top) < |top.keys[which]|
    ensures |CommonPrefix(hex, top.keys[which])| > Depth(top)
  {
    var child := top.keys[which];
    assert SlotOk(top, which, height);
    var D := Depth(top);
    assert D < |hex| by {
      if !top.isRoot {
        assert |top.key| < height;
      }
    }
    assert hex[..D] == Base(top) == child[..D];
    HtiInjectiveOnUpperHex(hex[D], child[D]);
    assert hex[..D + 1] == child[..D + 1];
    CommonPrefixAtLeast(hex, child, D + 1);
  }

  /** The split branch is sound, and its children are stored. */
  lemma {:induction false} SplitSound(nodes: map<string, Node>, top: Node, which: int, hex: string, leafHash: string,
                                      height: int, b: Node)
    requires Sound(top, height) && !top.isLeaf && Linked(nodes, top) && IsUpperHex(hex) && |hex| == height
    requires Base(top) <= hex && which == OfWhich(top, hex) && IsDigest(leafHash) && hex in nodes
    requires top.keys[which] != "" && !(top.keys[which] <= hex)
    requires IsUpperHex(top.keys[which]) && |top.keys[which]| <= |hex|
    requires b == SplitBranch(hex, leafHash, top.keys[which], top.hashes[which])
    ensures Sound(b, height) && Linked(nodes, b)
  {
    var child := top.keys[which];
    assert SlotOk(top, which, height);
    var w1, w2 := OfWhich(b, hex), OfWhich(b, child);
    forall i | 0 <= i < 16
      ensures SlotOk(b, i, height)
    {
      if i == w1 {
        assert b.keys[i] == hex;
      } else if i == w2 {
        assert b.keys[i] == child;
      }
    }
  }

  /** The end of update's descent, at branch top: write the leaf, and where
      the slot for hex names a key that is not a prefix of hex, the branch
      that splits the two. top comes back with its slot for hex naming what
      lies below it, hashUp is that thing's hash, and below is the split
      branch if there is one. */
  method Place(H: Hasher, height: int, store: map<string, string>, ghost nodes: map<string, Node>, top: Node,
               which: int, hex: string, value: string)
    returns (store': map<string, string>, ghost nodes': map<string, Node>, top': Node, hashUp: string,
             ghost below: seq<Node>)
    requires Stored(store, nodes, height) && IsUpperHex(hex) && |hex| == height && 0 < height
    requires Sound(top, height) && !top.isLeaf && Linked(nodes, top) && Base(top) <= hex && which == OfWhich(top, hex)
    requires top.keys[which] == "" || top.keys[which] == hex || !(top.keys[which] <= hex)
    ensures Stored(store', nodes', height) && hex in nodes' && nodes'[hex] == NewLeaf(hex, value)
    ensures nodes.Keys <= nodes'.Keys
    ensures forall k :: k in store && !(k <= hex) ==> k in store' && store'[k] == store[k]
    ensures forall k :: k in store' ==> k in store || k <= hex
    ensures top'.key == top.key && top'.isRoot == top.isRoot && top'.hashes == top.hashes && !top'.isLeaf
    ensures Sound(top', height) && Linked(nodes', top')
    ensures Path(H, nodes', below, hex, value) && |below| <= 1
    ensures top'.keys[which] == EntryKey(below, 0, hex) && hashUp == EntryHash(H, below, 0, value)
    ensures forall k :: 0 <= k < |below| ==>
      below[k].isRoot == (below[k].key == RootKey) && Base(below[k]) <= hex && Depth(top) < Depth(below[k]) < height
  {
    var child := top.keys[which];
    if child != "" && child != hex {
      store', nodes', top', hashUp, below := PlaceSplit(H, height, store, nodes, top, which, hex, value);
      return;
    }
    var leaf := NewLeaf(hex, value);
    WriteStored(store, nodes, height, leaf);
    store', nodes' := store[hex := ToString(leaf)], nodes[hex := leaf];
    hashUp := NodeHash(H, leaf);
    top', below := top, [];
    assert Sound(top, height) && SlotOk(top, which, height);
    if child == "" {
      assert Depth(top) < |hex| by {
        if !top.isRoot {
          assert |top.key| < height;
        }
      }
      RepointSound(top, which, hex, height);
      top' := top.(keys := top.keys[which := hex]);
    }
  }

  /** The split case of update's placement: the top's slot names a key
      that is not a prefix of hex, so a new branch at their common prefix
      takes the leaf and that child, and the top's slot names the new
      branch. */
  method PlaceSplit(H: Hasher, height: int, store: map<string, string>, ghost nodes: map<string, Node>, top: Node,
                    which: int, hex: string, value: string)
    returns (store': map<string, string>, ghost nodes': map<string, Node>, top': Node, hashUp: string,
                  ghost below: seq<Node>)
    requires Stored(store, nodes, height) && IsUpperHex(hex) && |hex| == height && 0 < height
    requires Sound(top, height) && !top.isLeaf && Linked(nodes, top) && Base(top) <= hex && which == OfWhich(top, hex)
    requires top.keys[which] != "" && top.keys[which] != hex && !(top.keys[which] <= hex)
    ensures Stored(store', nodes', height) && hex in nodes' && nodes'[hex] == NewLeaf(hex, value)
    ensures nodes.Keys <= nodes'.Keys
    ensures forall k :: k in store && !(k <= hex) ==> k in store' && store'[k] == store[k]
    ensures forall k :: k in store' ==> k in store || k <= hex
    ensures top'.key == top.key && top'.isRoot == top.isRoot && top'.hashes == top.hashes && !top'.isLeaf
    ensures Sound(top', height) && Linked(nodes', top')
    ensures Path(H, nodes', below, hex, value) && |below| <= 1
    ensures top'.keys[which] == EntryKey(below, 0, hex) && hashUp == EntryHash(H, below, 0, value)
    ensures forall k :: 0 <= k < |below| ==>
      below[k].isRoot == (below[k].key == RootKey) && Base(below[k]) <= hex && Depth(top) < Depth(below[k]) < height
  {
    var child := top.keys[which];
    var leaf := NewLeaf(hex, value);
    assert SlotOk(top, which, height);
    var b := SplitBranch(hex, NodeHash(H, leaf), child, top.hashes[which]);
    SplitWrites(H, store, nodes, height, top, which, hex, value, b);
    store' := store[hex := ToString(leaf)][b.key := ToString(b)];
    nodes' := nodes[hex := leaf][b.key := b];
    top' := top.(keys := top.keys[which := b.key]);
    below := [b];
    SplitHop(H, nodes', b, hex, value, NodeHash(H, leaf));
    WritesUnder(store, hex, ToString(leaf), b.key, ToString(b), hex);
    hashUp := NodeHash(H, b);
    SplitBelow(below, b, top, hex, height);
  }

  /** The one branch a split passes back lies strictly between the top and
      the leaf. */
  lemma SplitBelow(below: seq<Node>, b: Node, top: Node, hex: string, height: int)
    requires below == [b] && !b.isRoot && b.key != RootKey && Base(b) <= hex && Depth(top) < Depth(b) < height
    ensures forall k :: 0 <= k < |below| ==>
      below[k].isRoot == (below[k].key == RootKey) && Base(below[k]) <= hex && Depth(top) < Depth(below[k]) < height
  {
  }

  /** Writing two prefixes of hex changes no record outside them. */
  lemma WritesUnder(store: map<string, string>, k1: string, t1: string, k2: string, t2: string, hex: string)
    requires k1 <= hex && k2 <= hex
    ensures forall k :: k in store && !(k <= hex) ==> k in store[k1 := t1][k2 := t2] && store[k1 := t1][k2 := t2][k] == store[k]
    ensures forall k :: k in store[k1 := t1][k2 := t2] ==> k in store || k <= hex
  {
  }

  /** Writing the leaf and the branch a split makes keeps the store sound,
      and the top, repointed to the branch, stays sound and linked. */
  lemma {:induction false} SplitWrites(H: Hasher, store: map<string, string>, nodes: map<string, Node>, height: int,
                                       top: Node, which: int, hex: string, value: string, b: Node)
    requires Stored(store, nodes, height) && IsUpperHex(hex) && |hex| == height && 0 < height
    requires Sound(top, height) && !top.isLeaf && Linked(nodes, top) && Base(top) <= hex && which == OfWhich(top, hex)
    requires top.keys[which] != "" && !(top.keys[which] <= hex)
    requires IsUpperHex(top.keys[which]) && |top.keys[which]| <= |hex|
    requires b == SplitBranch(hex, NodeHash(H, NewLeaf(hex, value)), top.keys[which], top.hashes[which])
    ensures Stored(store[hex := ToString(NewLeaf(hex, value))][b.key := ToString(b)],
                   nodes[hex := NewLeaf(hex, value)][b.key := b], height)
    ensures Sound(top.(keys := top.keys[which := b.key]), height)
    ensures Linked(nodes[hex := NewLeaf(hex, value)][b.key := b], top.(keys := top.keys[which := b.key]))
    ensures b.key != hex && b.key <= hex && Base(b) <= hex && Depth(top) < Depth(b) < height
  {
    var leaf := NewLeaf(hex, value);
    WriteStored(store, nodes, height, leaf);
    var store1, nodes1 := store[hex := ToString(leaf)], nodes[hex := leaf];
    SplitReady(H, nodes1, top, which, hex, value, height, b);
    WriteStored(store1, nodes1, height, b);
    RepointLinked(nodes1, top, which, b);
  }

  /** The branch a split makes is sound and its children are stored once
      the leaf is, and the top repointed to it stays sound. */
  lemma {:induction false} SplitReady(H: Hasher, nodes: map<string, Node>, top: Node, which: int, hex: string,
                                      value: string, height: int, b: Node)
    requires IsUpperHex(hex) && |hex| == height && 0 < height && hex in nodes
    requires Sound(top, height) && !top.isLeaf && Linked(nodes, top) && Base(top) <= hex && which == OfWhich(top, hex)
    requires top.keys[which] != "" && !(top.keys[which] <= hex)
    requires IsUpperHex(top.keys[which]) && |top.keys[which]| <= |hex|
    requires b == SplitBranch(hex, NodeHash(H, NewLeaf(hex, value)), top.keys[which], top.hashes[which])
    ensures Sound(b, height) && Linked(nodes, b)
    ensures Sound(top.(keys := top.keys[which := b.key]), height)
    ensures b.key != hex && b.key <= hex && Base(b) <= hex && Depth(top) < Depth(b) < height
  {
    SplitSound(nodes, top, which, hex, NodeHash(H, NewLeaf(hex, value)), height, b);
    SplitDeeper(top, which, hex, height);
    PrefixBetween(Base(top), b.key, hex);
    RepointSound(top, which, b.key, height);
  }

  /** A prefix of hex longer than another prefix of it extends that one and
      agrees with hex at the first character past it. */
  lemma {:induction false} PrefixBetween(base: string, key: string, hex: string)
    requires IsUpperHex(hex) && base <= hex && key <= hex && |base| < |key| < |hex|
    ensures IsUpperHex(key) && key == hex[..|key|] && key[|base|] == hex[|base|] && base <= key
  {
    assert forall i :: 0 <= i < |key| ==> key[i] == hex[i];
  }

  /** Repointing a linked branch's slot to a stored key keeps it linked. */
  lemma {:induction false} RepointLinked(nodes: map<string, Node>, top: Node, which: int, b: Node)
    requires !top.isLeaf && |top.keys| == 16 && 0 <= which < 16 && Linked(nodes, top)
    ensures Linked(nodes[b.key := b], top.(keys := top.keys[which := b.key]))
  {
  }

  /** The branch a split makes is a one-node path to the leaf. */
  lemma SplitHop(H: Hasher, nodes: map<string, Node>, b: Node, hex: string, value: string, leafHash: string)
    requires !b.isLeaf && |b.keys| == 16 && |b.hashes| == 16 && Depth(b) < |hex| && !b.isRoot
    requires b.keys[OfWhich(b, hex)] == hex && b.hashes[OfWhich(b, hex)] == leafHash
    requires leafHash == NodeHash(H, NewLeaf(hex, value)) && Placed(nodes, b)
    ensures Path(H, nodes, [b], hex, value)
  {
    assert b.key != hex;
    assert Hop(H, [b], 0, hex, value);
  }

  /** update once the descent has stopped: place the leaf under the top
      of the descent, then write every branch passed back from the bottom
      up with the hash coming up. The store stays sound, the root's hash
      comes out, the leaf's record holds the value, the records passed
      form a path to it, and only "*" and prefixes of hex change. */
  method Attach(H: Hasher, height: int, store: map<string, string>, ghost nodes: map<string, Node>,
                stack: seq<Node>, lefts: seq<int>, hex: string, value: string)
    returns (store': map<string, string>, ghost nodes': map<string, Node>, up: string, ghost route: seq<Node>)
    requires Stored(store, nodes, height) && RootKey in nodes && 0 < height && IsUpperHex(hex) && |hex| == height
    requires Descended(nodes, stack, lefts, hex, height)
    ensures Stored(store', nodes', height) && RootKey in nodes' && !nodes'[RootKey].isLeaf
    ensures up == NodeHash(H, nodes'[RootKey])
    ensures hex in nodes' && nodes'[hex] == NewLeaf(hex, value) && store'[hex] == "!" + value
    ensures Path(H, nodes', route, hex, value) && 1 <= |route| <= height && route[0].key == RootKey
    ensures forall k :: k in store && k != RootKey && !(k <= hex) ==> k in store' && store'[k] == store[k]
    ensures forall k :: k in store' ==> k in store || k <= hex
  {
    StackLinked(store, nodes, height, stack);
    var store1, nodes1, hashUp, stack', below := PlaceTop(H, height, store, nodes, stack, lefts, hex, value);
    store', nodes', up, route := Rehash(H, height, store1, nodes1, stack', lefts, hashUp, hex, value, below);
    StoredKey(store, nodes, height, RootKey);
    Attached(H, height, store, store1, store', nodes', route, up, hex, value);
  }

  lemma StoredKey(store: map<string, string>, nodes: map<string, Node>, height: int, k: string)
    requires Stored(store, nodes, height) && k in nodes
    ensures k in store
  {
  }

  /** update's placement under the top of the descent, set up for the
      write-back: the top is replaced by its repointed copy, the ladder
      holds, and nothing is rewritten yet. */
  method PlaceTop(H: Hasher, height: int, store: map<string, string>, ghost nodes: map<string, Node>,
                  stack: seq<Node>, lefts: seq<int>, hex: string, value: string)
    returns (store1: map<string, string>, ghost nodes1: map<string, Node>, hashUp: string, stack': seq<Node>,
             ghost below: seq<Node>)
    requires Stored(store, nodes, height) && 0 < height && IsUpperHex(hex) && |hex| == height
    requires Ladder(stack, lefts, hex, height) && Rung(stack, lefts, hex, height, |stack| - 1) && |stack| <= height
    requires forall j :: 0 <= j < |stack| ==> Linked(nodes, stack[j])
    requires var c := stack[|stack| - 1].keys[lefts[|stack| - 1]]; c == "" || c == hex || !(c <= hex)
    ensures Ladder(stack', lefts, hex, height) && |stack'| + |below| <= height
    ensures StoreKept(store1, store1, nodes1, stack', hex, value, height)
    ensures PathKept(H, nodes1, stack', lefts, |stack'| - 1, hashUp, below, hex, value)
    ensures forall k :: k in store && !(k <= hex) ==> k in store1 && store1[k] == store[k]
    ensures forall k :: k in store1 ==> k in store || k <= hex
  {
    var top, which := stack[|stack| - 1], lefts[|lefts| - 1];
    LadderAt(stack, lefts, hex, height, |stack| - 1);
    assert Linked(nodes, top);
    var top';
    store1, nodes1, top', hashUp, below := Place(H, height, store, nodes, top, which, hex, value);
    stack' := stack[|stack| - 1 := top'];
    LadderTop(stack, lefts, hex, height, top');
    PlacedWriteBack(H, height, store1, nodes, nodes1, stack, lefts, top, top', hashUp, below, hex, value, stack');
  }

  /** What update's write-back leaves: the root heads the path, so it is a
      stored branch whose hash comes out, and the frames of the placement
      and the write-back compose. */
  lemma {:induction false} Attached(H: Hasher, height: int, store: map<string, string>, store1: map<string, string>,
                                    store': map<string, string>, nodes': map<string, Node>, route: seq<Node>,
                                    up: string, hex: string, value: string)
    requires Stored(store', nodes', height) && hex in nodes' && nodes'[hex] == NewLeaf(hex, value)
    requires Path(H, nodes', route, hex, value) && |route| >= 1 && route[0].key == RootKey
    requires up == NodeHash(H, route[0]) && RootKey in store
    requires forall k :: k in store && !(k <= hex) ==> k in store1 && store1[k] == store[k]
    requires forall k :: k in store1 ==> k in store || k <= hex
    requires forall k :: k in store' ==> k in store1 || k == RootKey || k <= hex
    requires forall k :: k in store1 && k != RootKey && !(k <= hex) ==> k in store' && store'[k] == store1[k]
    ensures RootKey in nodes' && !nodes'[RootKey].isLeaf && up == NodeHash(H, nodes'[RootKey])
    ensures store'[hex] == "!" + value
    ensures forall k :: k in store && k != RootKey && !(k <= hex) ==> k in store' && store'[k] == store[k]
    ensures forall k :: k in store' ==> k in store || k <= hex
  {
    assert Placed(nodes', route[0]) && Hop(H, route, 0, hex, value);
    StoredAt(store', nodes', height, hex);
    StoredAt(store', nodes', height, RootKey);
  }

  /** The nodes of a descent on record are stored, so their children are
      too. */
  lemma StackLinked(store: map<string, string>, nodes: map<string, Node>, height: int, stack: seq<Node>)
    requires Stored(store, nodes, height) && OnRecord(nodes, stack)
    ensures forall j :: 0 <= j < |stack| ==> Linked(nodes, stack[j])
  {
    forall j | 0 <= j < |stack|
      ensures Linked(nodes, stack[j])
    {
      assert Placed(nodes, stack[j]);
      StoredAt(store, nodes, height, stack[j].key);
    }
  }

  /** update's write-back: from the top of the descent to the root, put
      the hash coming up into the slot for hex, hash the node and write it.
      The nodes written head the path below, and the last hash is the
      root's. */
  method Rehash(H: Hasher, height: int, store: map<string, string>, ghost nodes: map<string, Node>,
                stack: seq<Node>, lefts: seq<int>, hashUp: string, hex: string, ghost value: string,
                ghost below: seq<Node>)
    returns (store': map<string, string>, ghost nodes': map<string, Node>, up: string, ghost route: seq<Node>)
    requires IsUpperHex(hex) && |hex| == height && 0 < height && Ladder(stack, lefts, hex, height)
    requires StoreKept(store, store, nodes, stack, hex, value, height)
    requires PathKept(H, nodes, stack, lefts, |stack| - 1, hashUp, below, hex, value)
    ensures Stored(store', nodes', height) && hex in nodes' && nodes'[hex] == NewLeaf(hex, value)
    ensures Path(H, nodes', route, hex, value) && |route| == |stack| + |below|
    ensures route[0].key == RootKey && up == NodeHash(H, route[0])
    ensures forall k :: k in store' ==> k in store || k == RootKey || k <= hex
    ensures forall k :: k in store && k != RootKey && !(k <= hex) ==> k in store' && store'[k] == store[k]
  {
    var i := |stack| - 1;
    store', nodes', up, route := store, nodes, hashUp, below;
    while i >= 0
      invariant StoreKept(store, store', nodes', stack, hex, value, height)
      invariant PathKept(H, nodes', stack, lefts, i, up, route, hex, value)
      invariant |route| == |stack| - 1 - i + |below|
    {
      LadderAt(stack, lefts, hex, height, i);
      var cur := stack[i].(hashes := stack[i].hashes[lefts[i] := up]);
      var i' := i - 1;
      StoreNext(H, height, store, store', nodes', stack, i, stack[i], lefts[i], up, route, hex, value, cur);
      PathNext(H, height, nodes', stack, lefts, i, up, route, hex, value, cur, i');
      up := NodeHash(H, cur);
      store', nodes' := store'[cur.key := ToString(cur)], nodes'[cur.key := cur];
      route := [cur] + route;
      i := i';
    }
  }

  /** The write-back's invariant on the store: it is sound with the leaf in
      place, the descent's children are stored, and only "*" and prefixes
      of hex have changed since store0. */
  ghost predicate StoreKept(store0: map<string, string>, store: map<string, string>, nodes: map<string, Node>,
                            stack: seq<Node>, hex: string, value: string, height: int)
  {
    Stored(store, nodes, height) && hex in nodes && nodes[hex] == NewLeaf(hex, value)
    && (forall j :: 0 <= j < |stack| ==> Linked(nodes, stack[j]))
    && (forall k :: k in store ==> k in store0 || k == RootKey || k <= hex)
    && (forall k :: k in store0 && k != RootKey && !(k <= hex) ==> k in store && store[k] == store0[k])
  }

  /** The write-back's invariant on the path, with the nodes from i + 1 to
      the top written: they and the branch split off head a path to the
      leaf, and the hash for slot i of the descent comes up from it. */
  ghost predicate PathKept(H: Hasher, nodes: map<string, Node>, stack: seq<Node>, lefts: seq<int>, i: int, up: string,
                           route: seq<Node>, hex: string, value: string)
  {
    -1 <= i < |stack| && |lefts| == |stack| && |route| >= |stack| - 1 - i && |stack| >= 1
    && Path(H, nodes, route, hex, value)
    && (forall k :: 0 <= k < |route| ==> route[k].isRoot == (route[k].key == RootKey) && Base(route[k]) <= hex)
    && (i >= 0 ==> |stack[i].keys| == 16 && 0 <= lefts[i] < 16
                   && stack[i].keys[lefts[i]] == EntryKey(route, 0, hex) && up == EntryHash(H, route, 0, value)
                   && forall k :: 0 <= k < |route| ==> Depth(stack[i]) < Depth(route[k]))
    && (i < 0 ==> route[0].key == RootKey && up == NodeHash(H, route[0]))
  }

  /** Writing one node of the write-back keeps the store's invariant. */
  lemma {:induction false} StoreNext(H: Hasher, height: int, store0: map<string, string>, store: map<string, string>,
                                     nodes: map<string, Node>, stack: seq<Node>, i: int, n: Node, which: int,
                                     up: string, route: seq<Node>, hex: string, value: string, cur: Node)
    requires IsUpperHex(hex) && |hex| == height && 0 < height && 0 <= i < |stack| && n == stack[i]
    requires Sound(n, height) && !n.isLeaf && Base(n) <= hex && 0 <= which < 16
    requires StoreKept(store0, store, nodes, stack, hex, value, height) && up == EntryHash(H, route, 0, value)
    requires cur == n.(hashes := n.hashes[which := up])
    ensures StoreKept(store0, store[cur.key := ToString(cur)], nodes[cur.key := cur], stack, hex, value, height)
    ensures cur.key != hex
  {
    RehashStored(H, height, store, nodes, stack, i, n, which, up, hex, value, route, cur);
    WriteBackFrame(store0, store, cur.key, ToString(cur), hex);
  }

  /** Writing one node of the write-back keeps the path's invariant. */
  lemma {:induction false} PathNext(H: Hasher, height: int, nodes: map<string, Node>, stack: seq<Node>, lefts: seq<int>,
                                    i: int, up: string, route: seq<Node>, hex: string, value: string, cur: Node, i': int)
    requires IsUpperHex(hex) && |hex| == height && Ladder(stack, lefts, hex, height)
    requires PathKept(H, nodes, stack, lefts, i, up, route, hex, value) && i >= 0 && i' == i - 1
    requires Rung(stack, lefts, hex, height, i)
    requires cur == stack[i].(hashes := stack[i].hashes[lefts[i] := up]) && cur.key != hex
    ensures PathKept(H, nodes[cur.key := cur], stack, lefts, i', NodeHash(H, cur), [cur] + route, hex, value)
  {
    RehashPath(H, height, nodes, stack, lefts, i, up, hex, value, route, cur);
    RehashNearer(H, height, stack, lefts, i, up, hex, value, route, cur, i');
  }

  /** Writing "*" or a prefix of hex keeps the write-back's frame. */
  lemma WriteBackFrame(store0: map<string, string>, store: map<string, string>, key: string, text: string, hex: string)
    requires key == RootKey || key <= hex
    requires forall k :: k in store ==> k in store0 || k == RootKey || k <= hex
    requires forall k :: k in store0 && k != RootKey && !(k <= hex) ==> k in store && store[k] == store0[k]
    ensures forall k :: k in store[key := text] ==> k in store0 || k == RootKey || k <= hex
    ensures forall k :: k in store0 && k != RootKey && !(k <= hex) ==> k in store[key := text] && store[key := text][k] == store0[k]
  {
  }

  /** The node written keeps the facts about the path's nodes and the slot
      above it. */
  lemma {:induction false} RehashNearer(H: Hasher, height: int, stack: seq<Node>, lefts: seq<int>, i: int, up: string,
                                        hex: string, value: string, route: seq<Node>, cur: Node, i': int)
    requires IsUpperHex(hex) && Ladder(stack, lefts, hex, height) && 0 <= i < |stack| && i' == i - 1
    requires Rung(stack, lefts, hex, height, i)
    requires forall k :: 0 <= k < |route| ==> route[k].isRoot == (route[k].key == RootKey) && Base(route[k]) <= hex
    requires forall k :: 0 <= k < |route| ==> Depth(stack[i]) < Depth(route[k])
    requires cur == stack[i].(hashes := stack[i].hashes[lefts[i] := up])
    ensures forall k :: 0 <= k < |route| + 1 ==>
      ([cur] + route)[k].isRoot == (([cur] + route)[k].key == RootKey) && Base(([cur] + route)[k]) <= hex
    ensures i' >= 0 ==> (|stack[i'].keys| == 16 && 0 <= lefts[i'] < 16
      && stack[i'].keys[lefts[i']] == EntryKey([cur] + route, 0, hex)
      && NodeHash(H, cur) == EntryHash(H, [cur] + route, 0, value)
      && forall k :: 0 <= k < |route| + 1 ==> Depth(stack[i']) < Depth(([cur] + route)[k]))
    ensures i' < 0 ==> ([cur] + route)[0].key == RootKey
  {
    ConsFacts(route, cur, hex);
    if i' >= 0 {
      LadderRung(stack, lefts, hex, height, i', i);
      ConsDeeper(route, cur, Depth(stack[i']));
    }
  }

  /** Two neighbouring rungs of the ladder: the upper one's slot for hex
      names the lower one, which is deeper. */
  lemma LadderRung(stack: seq<Node>, lefts: seq<int>, hex: string, height: int, j: int, j1: int)
    requires Ladder(stack, lefts, hex, height) && 0 <= j && j1 == j + 1 && j1 < |stack|
    ensures Sound(stack[j], height) && |stack[j].keys| == 16 && 0 <= lefts[j] < 16
    ensures stack[j].keys[lefts[j]] == stack[j1].key && Depth(stack[j]) < Depth(stack[j1])
  {
    assert Rung(stack, lefts, hex, height, j) && Joined(stack, lefts, hex, j);
  }

  /** A node that is root exactly when its key is "*" and whose base is a
      prefix of hex keeps those facts for the whole route it heads. */
  lemma {:induction false} ConsFacts(route: seq<Node>, cur: Node, hex: string)
    requires forall k :: 0 <= k < |route| ==> route[k].isRoot == (route[k].key == RootKey) && Base(route[k]) <= hex
    requires cur.isRoot == (cur.key == RootKey) && Base(cur) <= hex
    ensures forall k :: 0 <= k < |route| + 1 ==>
      ([cur] + route)[k].isRoot == (([cur] + route)[k].key == RootKey) && Base(([cur] + route)[k]) <= hex
  {
    var r := [cur] + route;
    forall k | 0 <= k < |r|
      ensures r[k].isRoot == (r[k].key == RootKey) && Base(r[k]) <= hex
    {
      if k > 0 {
        assert r[k] == route[k - 1];
      }
    }
  }

  /** Every node of a route headed by cur is deeper than d when cur and
      the rest are. */
  lemma {:induction false} ConsDeeper(route: seq<Node>, cur: Node, d: int)
    requires forall k :: 0 <= k < |route| ==> Depth(cur) < Depth(route[k])
    requires d < Depth(cur)
    ensures forall k :: 0 <= k < |route| + 1 ==> d < Depth(([cur] + route)[k])
  {
    var r := [cur] + route;
    forall k | 0 <= k < |r|
      ensures d < Depth(r[k])
    {
      if k > 0 {
        assert r[k] == route[k - 1];
      }
    }
  }

  /** Writing a node of the write-back keeps the store sound and the leaf
      in place. */
  lemma {:induction false} RehashStored(H: Hasher, height: int, store: map<string, string>, nodes: map<string, Node>,
                                        stack: seq<Node>, i: int, n: Node, which: int, up: string, hex: string,
                                        value: string, route: seq<Node>, cur: Node)
    requires Stored(store, nodes, height) && IsUpperHex(hex) && |hex| == height && 0 < height
    requires hex in nodes && nodes[hex] == NewLeaf(hex, value)
    requires 0 <= i < |stack| && n == stack[i] && forall j :: 0 <= j < |stack| ==> Linked(nodes, stack[j])
    requires Sound(n, height) && !n.isLeaf && Base(n) <= hex && 0 <= which < 16
    requires up == EntryHash(H, route, 0, value)
    requires cur == n.(hashes := n.hashes[which := up])
    ensures Stored(store[cur.key := ToString(cur)], nodes[cur.key := cur], height)
    ensures cur.key != hex && cur.isRoot == (cur.key == RootKey) && (cur.key != RootKey ==> cur.key <= hex)
    ensures forall j :: 0 <= j < |stack| ==> Linked(nodes[cur.key := cur], stack[j])
  {
    assert IsDigest(up) by {
      if |route| > 0 {
        assert NodeHash(H, route[0]) == up;
      }
    }
    RehashSound(n, which, up, height);
    assert Linked(nodes, n);
    WriteStored(store, nodes, height, cur);
    assert cur.key != hex by {
      if !n.isRoot {
        assert |n.key| < height;
      } else {
        assert IsUpperHexChar(hex[0]);
      }
    }
  }

  /** The node written heads the path below it. */
  lemma {:induction false} RehashPath(H: Hasher, height: int, nodes: map<string, Node>, stack: seq<Node>,
                                      lefts: seq<int>, i: int, up: string, hex: string, value: string,
                                      route: seq<Node>, cur: Node)
    requires IsUpperHex(hex) && |hex| == height
    requires Ladder(stack, lefts, hex, height) && 0 <= i < |stack| && Rung(stack, lefts, hex, height, i)
    requires Path(H, nodes, route, hex, value)
    requires stack[i].keys[lefts[i]] == EntryKey(route, 0, hex) && up == EntryHash(H, route, 0, value)
    requires forall k :: 0 <= k < |route| ==> route[k].isRoot == (route[k].key == RootKey) && Base(route[k]) <= hex
    requires forall k :: 0 <= k < |route| ==> Depth(stack[i]) < Depth(route[k])
    requires cur == stack[i].(hashes := stack[i].hashes[lefts[i] := up]) && cur.key != hex
    ensures Path(H, nodes[cur.key := cur], [cur] + route, hex, value)
  {
    var n := stack[i];
    forall k | 0 <= k < |route|
      ensures route[k].key != cur.key
    {
      KeysApart(cur, route[k], hex);
    }
    PathWrite(H, nodes, route, hex, value, cur);
    ChainCons(H, cur, route, hex, value);
    var nodes', r := nodes[cur.key := cur], [cur] + route;
    forall j | 0 <= j < |r|
      ensures Placed(nodes', r[j])
    {
      if j > 0 {
        assert r[j] == route[j - 1];
      }
    }
  }

  /** After the leaf is placed under the top of the descent, the
      write-back's invariant holds with nothing yet rewritten. */
  lemma {:induction false} PlacedWriteBack(H: Hasher, height: int, store: map<string, string>,
                                           nodes: map<string, Node>, nodes': map<string, Node>,
                                           stack: seq<Node>, lefts: seq<int>, top: Node, top': Node, hashUp: string,
                                           below: seq<Node>, hex: string, value: string, stack': seq<Node>)
    requires Ladder(stack, lefts, hex, height) && top == stack[|stack| - 1] && stack' == stack[|stack| - 1 := top']
    requires Rung(stack, lefts, hex, height, |stack| - 1)
    requires forall j :: 0 <= j < |stack| ==> Linked(nodes, stack[j])
    requires Stored(store, nodes', height) && hex in nodes' && nodes'[hex] == NewLeaf(hex, value)
    requires nodes.Keys <= nodes'.Keys
    requires top'.key == top.key && top'.isRoot == top.isRoot && Sound(top', height) && !top'.isLeaf
    requires Linked(nodes', top') && Path(H, nodes', below, hex, value)
    requires top'.keys[lefts[|lefts| - 1]] == EntryKey(below, 0, hex) && hashUp == EntryHash(H, below, 0, value)
    requires forall k :: 0 <= k < |below| ==>
      below[k].isRoot == (below[k].key == RootKey) && Base(below[k]) <= hex && Depth(top) < Depth(below[k])
    ensures StoreKept(store, store, nodes', stack', hex, value, height)
    ensures PathKept(H, nodes', stack', lefts, |stack'| - 1, hashUp, below, hex, value)
  {
    var i := |stack| - 1;
    LadderAt(stack, lefts, hex, height, i);
    assert Depth(stack'[i]) == Depth(top);
    forall j | 0 <= j < |stack'|
      ensures Linked(nodes', stack'[j])
    {
      if j < i {
        assert stack'[j] == stack[j] && Linked(nodes, stack[j]);
      }
    }
  }

  /** Replacing the top of the descent by a sound branch with its key
      keeps the ladder. */
  lemma {:induction false} LadderTop(stack: seq<Node>, lefts: seq<int>, hex: string, height: int, top': Node)
    requires Ladder(stack, lefts, hex, height)
    requires top'.key == stack[|stack| - 1].key && top'.isRoot == stack[|stack| - 1].isRoot
    requires Sound(top', height) && !top'.isLeaf
    ensures Ladder(stack[|stack| - 1 := top'], lefts, hex, height)
  {
    var last := |stack| - 1;
    var s := stack[last := top'];
    forall j | 0 <= j < |s|
      ensures Rung(s, lefts, hex, height, j)
    {
      assert Rung(stack, lefts, hex, height, j);
      if j < last {
        assert s[j] == stack[j];
      } else {
        assert Depth(s[j]) == Depth(stack[j]) && Base(s[j]) == Base(stack[j]);
      }
    }
    forall j | 0 <= j < |s| - 1
      ensures Joined(s, lefts, hex, j)
    {
      assert Joined(stack, lefts, hex, j);
      assert s[j] == stack[j];
      assert s[j + 1].key == stack[j + 1].key && Depth(s[j + 1]) == Depth(stack[j + 1]);
    }
  }

  // ---------------------------------------------------------------------
  // The tree

  class FatTree {
    const H: Hasher
    const height: int
    var store: map<string, string>
    var digest: string
    /** The node each record stands for. */
    ghost var nodes: map<string, Node>

    /** The store is sound, its root is a branch, and the digest is the
        root's hash. */
    ghost predicate Valid()
      reads this
    {
      0 < height && Stored(store, nodes, height) && RootKey in nodes && !nodes[RootKey].isLeaf
      && digest == NodeHash(H, nodes[RootKey])
    }

    constructor(H: Hasher, height: int)
      ensures this.H == H && this.height == height && digest == "" && store == map[] && nodes == map[]
    {
      this.H := H;
      this.height := height;
      digest := "";
      store := map[];
      nodes := map[];
    }

    /** init: with a fresh store, write the empty root; the digest is the
        hash of nothing, which is the empty root's hash. */
    method Init(dbOpened: bool, createDb: bool) returns (ok: bool)
      modifies this`store, this`digest, this`nodes
      ensures ok == dbOpened
      ensures ok && createDb ==> store == map[RootKey := EmptyRecord()] && digest == Hash(H, "")
      ensures ok && createDb && 0 < height ==> Valid()
      ensures !(ok && createDb) ==> store == old(store) && digest == old(digest) && nodes == old(nodes)
    {
      if !dbOpened {
        return false;
      }
      if createDb {
        store := map[RootKey := EmptyRecord()];
        nodes := map[RootKey := EmptyRoot()];
        digest := Hash(H, "");
        EmptyValid();
      }
      ok := true;
    }

    /** The store init writes is sound. */
    lemma EmptyValid()
      requires store == map[RootKey := EmptyRecord()] && nodes == map[RootKey := EmptyRoot()] && digest == Hash(H, "")
      ensures 0 < height ==> Valid()
    {
      EmptyRootStored(H, height);
    }

    /** update: descend from the root to the slot for hex, write the leaf
        (and the branch a split needs), then rewrite every branch passed
        from the bottom up with the hash coming up, and make the root's
        hash the digest. Only records under "*" and prefixes of hex change,
        the leaf's record holds the value, and the records passed form a
        path whose proof folds from the value to the digest. */
    method Update(hex: string, value: string) returns (r: Result<()>, ghost route: seq<Node>)
      requires Valid() && IsUpperHex(hex) && |hex| == height
      modifies this`store, this`digest, this`nodes
      ensures Valid()
      ensures r.Err? ==> store == old(store) && digest == old(digest) && nodes == old(nodes)
      ensures height <= 42 ==> r.Ok?
      ensures r.Ok? ==> hex in nodes && nodes[hex] == NewLeaf(hex, value) && store[hex] == "!" + value
      ensures r.Ok? ==> Path(H, nodes, route, hex, value) && 1 <= |route| <= height && route[0].key == RootKey
      ensures r.Ok? ==> forall k :: k in old(store) && k != RootKey && !(k <= hex) ==> k in store && store[k] == old(store)[k]
      ensures r.Ok? ==> forall k :: k in store ==> k in old(store) || k <= hex
    {
      route := [];
      var d := Descend(store, nodes, height, hex);
      if d.Err? {
        return Err(d.error), route;
      }
      store, nodes, digest, route := Attach(H, height, store, nodes, d.value.0, d.value.1, hex, value);
      r := Ok(());
    }

    /** gen_proof. */
    method GenProof(hex: string) returns (r: Result<string>)
      ensures r == ProofFor(store, hex)
    {
      if ReadOr(store, hex, "") == "" {
        return Ok("?");
      }
      r := WalkProof(store, hex);
    }

    /** verify_proof; the key argument is not used. */
    method VerifyProof(hex: string, value: string, proof: string) returns (ok: bool)
      ensures ok == Verify(H, digest, value, proof)
    {
      ok := Proof16.VerifyProof(H, digest, value, proof);
    }

    /** The round trip: right after update(hex, value), gen_proof(hex) is
        accepted by verify_proof with that value, for keys of at most 41
        digits (gen_proof's own depth guard). */
    lemma UpdatedKeyVerifies(route: seq<Node>, hex: string, value: string)
      requires Valid() && height <= 41 && hex in nodes && nodes[hex] == NewLeaf(hex, value)
      requires Path(H, nodes, route, hex, value) && 1 <= |route| <= height && route[0].key == RootKey
      ensures ProofFor(store, hex).Ok? && Verify(H, digest, value, ProofFor(store, hex).value)
    {
      assert Placed(nodes, route[0]);
      PathProves(H, store, nodes, height, route, hex, value);
    }
  }
}
