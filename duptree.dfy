// DupTree (duptree.hpp): a heap-numbered binary Merkle tree whose nodes on
// levels 2 .. hb are not stored as nodes. The nodes on level hb, the
// boundary (ids B/2 .. B-1 with B = 2^hb; the root is level 1), each keep
// copies of the hashes a proof from below them needs: the sibling of their
// ancestor on each level hb .. 2. DupTreeSimple keeps copy (j, level) under
// itos(j)-itos(level); DupTreeBlock keeps all of j's copies in one record
// under itos(j), level hb first. Nodes at or below level hb + 1 are stored
// Merkle-style under itos(id), a leaf as its raw value. As in the Merkle
// trees, the records under itos(id) are kept in a map indexed by id
// (Tools.ItosInjective), and DupTreeSimple's copies in a second map indexed
// by (id, level).
module DupTrees {
  import opened Results
  import opened Tools
  import opened IO
  import opened MemChecker
  import opened Heap
  import Merkle
  import Nodes
  import Proof16

  datatype Layout = Simple | Block

  /** j halved k times: its ancestor k levels up. */
  function Up(j: int, k: nat): int {
    if k == 0 then j else Up(j, k - 1) / 2
  }

  /** The hash of node id in the tree over `values`; "" off the tree. */
  function HashAt(H: Hasher, values: seq<string>, N: int, id: int): string {
    if 1 <= id < 2 * N && |values| == N then TreeHash(H, values, N, id) else ""
  }

  // ---------------------------------------------------------------------
  // DupTreeBlock's record: (hb - 1) chunks of 64, the copy of level l at
  // offset (hb - l) * 64, which is the order read_self and get_high use.

  /** The chunk of a block record that holds the copy of `level`. */
  function Slot(rec: string, hb: int, level: int): string {
    var at := (hb - level) * 64;
    if 0 <= at && at + 64 <= |rec| then rec[at .. at + 64] else ""
  }

  /** modify_id_level of DupTreeBlock as written: a missing or empty record
      is made from (hb - 1) * 64 '0's with the copy put at (level - 2) * 64,
      an existing one gets it at (hb - level) * 64. */
  function ModifyAsWritten(hb: int, level: int, pre: string, key: string): Option<string>
    requires 2 <= level <= hb
  {
    if pre == "" then Replace(Repeat('0', (hb - 1) * 64), (level - 2) * 64, 64, key)
    else Replace(pre, (hb - level) * 64, 64, key)
  }

  /** A record created by a copy of level 3 with hb = 3 holds that copy in
      the slot of level 2 and zeros in its own: read_self and get_high then
      return the zeros for level 3. */
  lemma {:induction false} FirstCopyMisplaced(key: string)
    requires |key| == 64
    ensures ModifyAsWritten(3, 3, "", key).Some?
    ensures Slot(ModifyAsWritten(3, 3, "", key).value, 3, 3) == Repeat('0', 64)
    ensures Slot(ModifyAsWritten(3, 3, "", key).value, 3, 2) == key
  {
    var z := Repeat('0', 128);
    ReplaceBlock(z, 64, key);
    var r := z[..64] + key + z[128..];
    assert r[0 .. 64] == z[..64];
    assert r[64 .. 128] == key;
  }

  /** modify_id_level with both branches using offset (hb - level) * 64. */
  function Modify(hb: int, level: int, pre: string, key: string): Option<string>
    requires 2 <= level <= hb
  {
    Replace(if pre == "" then Repeat('0', (hb - 1) * 64) else pre, (hb - level) * 64, 64, key)
  }

  /** The corrected write puts the copy in its level's slot, keeps the
      record's length and every other level's copy. */
  lemma {:induction false} ModifyPlacesCopy(hb: int, level: int, pre: string, key: string)
    requires 2 <= level <= hb && |key| == 64
    requires pre == "" || |pre| == (hb - 1) * 64
    ensures Modify(hb, level, pre, key).Some?
    ensures var r := Modify(hb, level, pre, key).value;
      |r| == (hb - 1) * 64 && Slot(r, hb, level) == key
    ensures forall l :: 2 <= l <= hb && l != level ==>
      Slot(Modify(hb, level, pre, key).value, hb, l) == Slot(if pre == "" then Repeat('0', (hb - 1) * 64) else pre, hb, l)
  {
    var base := if pre == "" then Repeat('0', (hb - 1) * 64) else pre;
    var at := (hb - level) * 64;
    ReplaceBlock(base, at, key);
    var r := base[..at] + key + base[at + 64..];
    assert r[at .. at + 64] == key;
    forall l | 2 <= l <= hb && l != level
      ensures Slot(r, hb, l) == Slot(base, hb, l)
    {
      SpliceOutside(base, at, key, (hb - l) * 64);
    }
  }

  /** Splicing a chunk into a string leaves every other chunk alone. */
  lemma {:induction false} SpliceOutside(base: string, at: int, key: string, o: int)
    requires 0 <= at && at + 64 <= |base| && |key| == 64
    requires 0 <= o && o + 64 <= |base| && (o + 64 <= at || at + 64 <= o)
    ensures (base[..at] + key + base[at + 64..])[o .. o + 64] == base[o .. o + 64]
  {
    var r := base[..at] + key + base[at + 64..];
    assert |r| == |base|;
    forall i | o <= i < o + 64
      ensures r[i] == base[i]
    {
      if i >= at + 64 {
        assert r[i] == base[at + 64..][i - at - 64];
      }
    }
  }

  // ---------------------------------------------------------------------
  // gen_proof

  /** The loop of gen_proof below the boundary: from id while id >= B, the
      sibling's record; a missing record leaves the previous string. */
  function Low(store: map<int, string>, B: int, id: int, prev: string): string
    requires B >= 1
    decreases id
  {
    if id < B then ""
    else
      var s := ReadOr(store, SiblingId(id), prev);
      s + Low(store, B, id / 2, s)
  }

  /** Where that loop stops: the first ancestor of id below B. */
  function Top(B: int, id: int): int
    requires B >= 1
    decreases id
  {
    if id < B then id else Top(B, id / 2)
  }

  /** DupTreeSimple's get_high(j): the copies of levels i, i - 1, .. 2. */
  function HighSimple(copies: map<(int, int), string>, j: int, i: int, prev: string): string
    decreases i
  {
    if i <= 1 then ""
    else
      var s := ReadOr(copies, (j, i), prev);
      s + HighSimple(copies, j, i - 1, s)
  }

  /** get_high(j) of either layout. */
  function High(layout: Layout, store: map<int, string>, copies: map<(int, int), string>, hb: int, j: int): string {
    match layout
    case Simple => HighSimple(copies, j, hb, "")
    case Block => ReadOr(store, j, "")
  }

  /** gen_proof for leaf id: the low siblings, then the boundary copies. */
  function DupProof(layout: Layout, store: map<int, string>, copies: map<(int, int), string>, B: int, hb: int, id: int)
    : string
    requires B >= 1
  {
    Low(store, B, id, "") + High(layout, store, copies, hb, Top(B, id))
  }

  // ---------------------------------------------------------------------
  // What the records are meant to hold, and why gen_proof then verifies.

  /** Every node at or below level hb + 1 is stored with its hash. */
  ghost predicate LowStored(H: Hasher, values: seq<string>, N: int, B: int, store: map<int, string>) {
    forall id :: B <= id < 2 * N ==>
      id in store && store[id] == HashAt(H, values, N, id)
  }

  /** x lies on level l, 2^(l-1) <= x < 2^l; the root is level 1 and the
      boundary is level hb. */
  predicate OnLevel(x: int, l: int) {
    l >= 1 && Pow(2, l - 1) <= x < Pow(2, l)
  }

  /** Every boundary node holds, for each level l in hb .. 2, the hash of
      the sibling of its ancestor on level l. */
  ghost predicate CopiesStored(H: Hasher, values: seq<string>, N: int, hb: nat, layout: Layout,
                               store: map<int, string>, copies: map<(int, int), string>) {
    match layout
    case Simple =>
      forall j, l :: OnLevel(j, hb) && 2 <= l <= hb ==>
        (j, l) in copies && copies[(j, l)] == HashAt(H, values, N, SiblingId(Up(j, hb - l)))
    case Block =>
      forall j :: OnLevel(j, hb) ==>
        |ReadOr(store, j, "")| == (hb - 1) * 64 && BlockHolds(H, values, N, hb, j, ReadOr(store, j, ""))
  }

  ghost predicate BlockHolds(H: Hasher, values: seq<string>, N: int, hb: nat, j: int, rec: string) {
    forall l :: 2 <= l <= hb ==> Slot(rec, hb, l) == HashAt(H, values, N, SiblingId(Up(j, hb - l)))
  }

  /** The hashes verify_proof needs from id up: each ancestor's sibling. */
  function PathChunks(H: Hasher, values: seq<string>, N: int, id: int): string
    decreases id
  {
    if id < 2 then "" else HashAt(H, values, N, SiblingId(id)) + PathChunks(H, values, N, id / 2)
  }

  ghost predicate ValuesSized(values: seq<string>) {
    forall i :: 0 <= i < |values| ==> |values[i]| == 64
  }

  /** A parent's hash is the hash of its children's, left first. */
  lemma {:induction false} ParentHash(H: Hasher, values: seq<string>, N: int, p: int)
    requires |values| == N && 1 <= p < N
    ensures HashAt(H, values, N, p) == Hash(H, HashAt(H, values, N, 2 * p) + HashAt(H, values, N, 2 * p + 1))
  {
  }

  /** Folding the path's sibling hashes from a node's hash ends at the root
      hash. */
  lemma {:induction false} PathVerifies(H: Hasher, values: seq<string>, N: int, id: int, pre: string, rest: string)
    requires |values| == N && ValuesSized(values) && 1 <= id < 2 * N
    ensures VerifyFold(H, id, |pre|, HashAt(H, values, N, id), pre + PathChunks(H, values, N, id) + rest)
      == Ok(HashAt(H, values, N, 1))
    decreases id
  {
    if id >= 2 {
      var key := HashAt(H, values, N, id);
      var s := HashAt(H, values, N, SiblingId(id));
      var up := PathChunks(H, values, N, id / 2);
      var proof := pre + PathChunks(H, values, N, id) + rest;
      assert |s| == 64 && Combine(H, id, key, s) == HashAt(H, values, N, id / 2) by {
        SiblingCombines(H, values, N, id);
      }
      assert proof == pre + s + (up + rest) && proof == (pre + s) + up + rest by {
        assert PathChunks(H, values, N, id) == s + up;
      }
      assert Substr(proof, |pre|, 64) == Some(s) by {
        ChunkAt(pre, s, up + rest);
      }
      PathVerifies(H, values, N, id / 2, pre + s, rest);
    }
  }

  /** Combining a node's hash with its sibling's, as verify_proof does,
      gives the parent's hash. */
  lemma {:induction false} SiblingCombines(H: Hasher, values: seq<string>, N: int, id: int)
    requires |values| == N && 2 <= id < 2 * N
    ensures ValuesSized(values) ==> |HashAt(H, values, N, SiblingId(id))| == 64
    ensures Combine(H, id, HashAt(H, values, N, id), HashAt(H, values, N, SiblingId(id))) == HashAt(H, values, N, id / 2)
  {
    SiblingFlipsLowestBit(id);
    var sib := SiblingId(id);
    var p := id / 2;
    if ValuesSized(values) {
      Merkle.TreeHashLength(H, values, N, sib);
    }
    ParentHash(H, values, N, p);
    if id % 2 == 0 {
      assert 2 * p == id && 2 * p + 1 == sib;
    } else {
      assert 2 * p == sib && 2 * p + 1 == id;
    }
  }

  /** The low loop reads the first part of the path, up to where it stops. */
  lemma {:induction false} LowChunks(H: Hasher, values: seq<string>, N: int, B: int, store: map<int, string>,
                                     id: int, prev: string)
    requires B >= 2 && B % 2 == 0 && B <= id < 2 * N && LowStored(H, values, N, B, store)
    ensures Low(store, B, id, prev) + PathChunks(H, values, N, Top(B, id)) == PathChunks(H, values, N, id)
    decreases id
  {
    var sib := SiblingId(id);
    LowSibling(B, N, id);
    var s := store[sib];
    LowStep(store, B, id, prev);
    var up := PathChunks(H, values, N, id / 2);
    assert PathChunks(H, values, N, id) == s + up;
    var rest := Low(store, B, id / 2, s);
    var top := PathChunks(H, values, N, Top(B, id));
    if id / 2 >= B {
      LowChunks(H, values, N, B, store, id / 2, s);
      assert rest + top == up;
    } else {
      assert rest == "" && Top(B, id) == id / 2;
      assert rest + top == up;
    }
    Proof16.Associative(s, rest, top);
  }

  /** Below the boundary a node's sibling is below it too. */
  lemma {:induction false} LowSibling(B: int, N: int, id: int)
    requires B >= 2 && B % 2 == 0 && B <= id < 2 * N
    ensures B <= SiblingId(id) < 2 * N && id >= 2
  {
    SiblingFlipsLowestBit(id);
    var k := id / 2;
    assert id == 2 * k + id % 2;
    if id % 2 == 1 {
      assert B != id && SiblingId(id) == 2 * k;
    } else {
      assert k < N && SiblingId(id) == 2 * k + 1;
    }
  }

  /** The low loop stops on the boundary level. */
  lemma {:induction false} TopOnLevel(B: int, id: int)
    requires B >= 2 && B % 2 == 0 && B <= id
    ensures B / 2 <= Top(B, id) < B
    decreases id
  {
    if id / 2 >= B {
      TopOnLevel(B, id / 2);
    }
  }

  /** Up(j, k) of a boundary node lies on level hb - k. */
  lemma {:induction false} UpLevel(j: int, hb: nat, k: nat)
    requires OnLevel(j, hb) && k < hb
    ensures Pow(2, hb - 1 - k) <= Up(j, k) < Pow(2, hb - k)
  {
    if k > 0 {
      UpLevel(j, hb, k - 1);
      assert Pow(2, hb - k) == 2 * Pow(2, hb - 1 - k);
    }
  }

  /** DupTreeSimple's copies of levels l .. 2 are the path from j's
      ancestor on level l. */
  lemma {:induction false} HighSimpleChunks(H: Hasher, values: seq<string>, N: int, hb: nat, store: map<int, string>,
                                            copies: map<(int, int), string>, j: int, l: int, prev: string)
    requires CopiesStored(H, values, N, hb, Simple, store, copies)
    requires OnLevel(j, hb) && 1 <= l <= hb
    ensures HighSimple(copies, j, l, prev) == PathChunks(H, values, N, Up(j, hb - l))
    decreases l
  {
    var id := Up(j, hb - l);
    UpLevel(j, hb, hb - l);
    if l >= 2 {
      var s := copies[(j, l)];
      PowMonotone(2, 1, l - 1);
      HighSimpleChunks(H, values, N, hb, store, copies, j, l - 1, s);
      assert Up(j, hb - (l - 1)) == id / 2;
      HighSimpleStep(H, values, N, copies, j, l, prev, id);
    } else {
      assert id == 1;
    }
  }

  /** One level of HighSimpleChunks: the copy of level l, then the levels
      below it, is the path from the ancestor id on level l. */
  lemma {:induction false} HighSimpleStep(H: Hasher, values: seq<string>, N: int, copies: map<(int, int), string>,
                                          j: int, l: int, prev: string, id: int)
    requires l >= 2 && id >= 2 && (j, l) in copies && copies[(j, l)] == HashAt(H, values, N, SiblingId(id))
    requires HighSimple(copies, j, l - 1, copies[(j, l)]) == PathChunks(H, values, N, id / 2)
    ensures HighSimple(copies, j, l, prev) == PathChunks(H, values, N, id)
  {
  }

  /** A DupTreeBlock record's tail from level l's slot is the path from j's
      ancestor on level l. */
  lemma {:induction false} BlockChunks(H: Hasher, values: seq<string>, N: int, hb: nat, j: int, rec: string, l: int)
    requires |rec| == (hb - 1) * 64 && BlockHolds(H, values, N, hb, j, rec)
    requires OnLevel(j, hb) && 1 <= l <= hb
    ensures rec[(hb - l) * 64 ..] == PathChunks(H, values, N, Up(j, hb - l))
    decreases l
  {
    UpLevel(j, hb, hb - l);
    if l >= 2 {
      var at := (hb - l) * 64;
      var a := Up(j, hb - l);
      BlockChunks(H, values, N, hb, j, rec, l - 1);
      assert Up(j, hb - (l - 1)) == a / 2;
      assert (hb - (l - 1)) * 64 == at + 64;
      assert rec[at .. at + 64] == Slot(rec, hb, l) == HashAt(H, values, N, SiblingId(a));
      SplitAt(rec, at);
    } else {
      assert Up(j, hb - l) == 1;
    }
  }

  lemma {:induction false} SplitAt(s: string, at: int)
    requires 0 <= at && at + 64 <= |s|
    ensures s[at..] == s[at .. at + 64] + s[at + 64 ..]
  {
  }

  /** get_high(j) of a boundary node is the path from j. */
  lemma {:induction false} HighChunks(H: Hasher, values: seq<string>, N: int, hb: nat, layout: Layout,
                                      store: map<int, string>, copies: map<(int, int), string>, j: int)
    requires CopiesStored(H, values, N, hb, layout, store, copies) && OnLevel(j, hb)
    ensures High(layout, store, copies, hb, j) == PathChunks(H, values, N, j)
  {
    assert Up(j, 0) == j;
    if layout.Simple? {
      HighSimpleChunks(H, values, N, hb, store, copies, j, hb, "");
    } else {
      var rec := ReadOr(store, j, "");
      BlockChunks(H, values, N, hb, j, rec, hb);
      assert rec[0..] == rec;
    }
  }

  /** In a store whose records hold what they are meant to, gen_proof from
      a node below the boundary is that node's full sibling path. */
  lemma {:induction false} DupProofIsPath(H: Hasher, values: seq<string>, N: int, hb: nat, layout: Layout,
                                          store: map<int, string>, copies: map<(int, int), string>, id: int)
    requires hb >= 1 && Pow(2, hb) <= id < 2 * N
    requires LowStored(H, values, N, Pow(2, hb), store) && CopiesStored(H, values, N, hb, layout, store, copies)
    ensures DupProof(layout, store, copies, Pow(2, hb), hb, id) == PathChunks(H, values, N, id)
  {
    var B := Pow(2, hb);
    assert B == 2 * Pow(2, hb - 1);
    LowChunks(H, values, N, B, store, id, "");
    TopOnLevel(B, id);
    HighChunks(H, values, N, hb, layout, store, copies, Top(B, id));
  }

  /** Hence gen_proof for any position is the leaf's full sibling path, and
      verify_proof accepts it with the leaf's value against the root hash. */
  lemma {:induction false} DupProofVerifies(H: Hasher, values: seq<string>, height: nat, hb: nat, layout: Layout,
                                            store: map<int, string>, copies: map<(int, int), string>, pos: int, N: int)
    requires N == NumLeaf(height) && 1 <= hb <= height && 0 <= pos < N
    requires |values| == N && ValuesSized(values)
    requires LowStored(H, values, N, Pow(2, hb), store) && CopiesStored(H, values, N, hb, layout, store, copies)
    ensures DupProof(layout, store, copies, Pow(2, hb), hb, pos + N) == PathChunks(H, values, N, pos + N)
    ensures VerifyFold(H, pos + N, 0, values[pos], DupProof(layout, store, copies, Pow(2, hb), hb, pos + N))
      == Ok(HashAt(H, values, N, 1))
  {
    PowMonotone(2, hb, height);
    DupProofIsPath(H, values, N, hb, layout, store, copies, pos + N);
    LeafPathVerifies(H, values, N, pos);
  }

  /** A leaf's hash is its value. */
  lemma {:induction false} LeafHash(H: Hasher, values: seq<string>, N: int, pos: int)
    requires |values| == N && 0 <= pos < N
    ensures HashAt(H, values, N, pos + N) == values[pos]
  {
  }

  /** The sibling path of a leaf verifies with the leaf's value. */
  lemma {:induction false} LeafPathVerifies(H: Hasher, values: seq<string>, N: int, pos: int)
    requires |values| == N && ValuesSized(values) && 0 <= pos < N
    ensures VerifyFold(H, pos + N, 0, values[pos], PathChunks(H, values, N, pos + N)) == Ok(HashAt(H, values, N, 1))
  {
    var path := PathChunks(H, values, N, pos + N);
    LeafHash(H, values, N, pos);
    PathVerifies(H, values, N, pos + N, "", "");
    assert "" + path + "" == path;
  }

  /** One turn of gen_proof's low loop. */
  lemma {:induction false} LowStep(store: map<int, string>, B: int, id: int, prev: string)
    requires B >= 1 && id >= B
    ensures var s := ReadOr(store, SiblingId(id), prev);
      Low(store, B, id, prev) == s + Low(store, B, id / 2, s) && Top(B, id) == Top(B, id / 2)
  {
  }

  /** One turn of DupTreeSimple's get_high loop. */
  lemma {:induction false} HighStep(copies: map<(int, int), string>, j: int, i: int, prev: string)
    requires i > 1
    ensures var s := ReadOr(copies, (j, i), prev);
      HighSimple(copies, j, i, prev) == s + HighSimple(copies, j, i - 1, s)
  {
  }

  /** The low loop of gen_proof, from leaf id. */
  method LowLoop(store: map<int, string>, boundary: int, leaf: int) returns (output: string, id: int)
    requires boundary >= 1
    ensures output == Low(store, boundary, leaf, "") && id == Top(boundary, leaf)
  {
    var s := "";
    output := "";
    id := leaf;
    while id >= boundary
      invariant output + Low(store, boundary, id, s) == Low(store, boundary, leaf, "")
      invariant Top(boundary, id) == Top(boundary, leaf)
      decreases id
    {
      LowStep(store, boundary, id, s);
      s := ReadOr(store, SiblingId(id), s);
      output := output + s;
      id := id / 2;
    }
  }

  /** get_high(id) of either layout. */
  method GetHigh(layout: Layout, store: map<int, string>, copies: map<(int, int), string>, hb: int, id: int)
    returns (output: string)
    ensures output == High(layout, store, copies, hb, id)
  {
    if layout == Block {
      output := ReadOr(store, id, "");
      return;
    }
    var s := "";
    output := "";
    var i := hb;
    while i > 1
      invariant output + HighSimple(copies, id, i, s) == HighSimple(copies, id, hb, "")
      decreases i
    {
      HighStep(copies, id, i, s);
      s := ReadOr(copies, (id, i), s);
      output := output + s;
      i := i - 1;
    }
  }

  // ---------------------------------------------------------------------
  // Levels and the copy ranges of gen_node and update.

  /** Halving first and then going up d levels is going up d + 1 levels. */
  lemma {:induction false} UpHalf(j: int, d: nat)
    ensures Up(j / 2, d) == Up(j, d + 1)
  {
    if d > 0 {
      UpHalf(j, d - 1);
    }
  }

  /** The nodes whose ancestor d levels up is q are q * 2^d .. (q + 1) * 2^d - 1. */
  lemma {:induction false} UpRange(j: int, d: nat, q: int)
    ensures Up(j, d) == q <==> q * Pow(2, d) <= j < (q + 1) * Pow(2, d)
    decreases d
  {
    if d > 0 {
      UpHalf(j, d - 1);
      UpRange(j / 2, d - 1, q);
      var p := Pow(2, d - 1);
      var lo, hi := q * p, (q + 1) * p;
      Doubled(q, p);
      Doubled(q + 1, p);
      assert Pow(2, d) == 2 * p;
      HalfBounds(j, lo, hi);
    }
  }

  lemma {:induction false} Doubled(q: int, p: int)
    ensures q * (2 * p) == 2 * (q * p)
  {
  }

  lemma {:induction false} HalfBounds(j: int, lo: int, hi: int)
    ensures lo <= j / 2 < hi <==> 2 * lo <= j < 2 * hi
  {
  }

  /** A node whose ancestor d levels up lies on level l lies on level l + d. */
  lemma {:induction false} UpFromLevel(j: int, d: nat, l: int)
    requires OnLevel(Up(j, d), l)
    ensures OnLevel(j, l + d)
    decreases d
  {
    if d > 0 {
      UpHalf(j, d - 1);
      UpFromLevel(j / 2, d - 1, l);
      assert Pow(2, l + d) == 2 * Pow(2, l + d - 1);
      assert Pow(2, l + d - 1) == 2 * Pow(2, l + d - 2);
    }
  }

  lemma {:induction false} LevelUnique(x: int, a: int, b: int)
    requires OnLevel(x, a) && OnLevel(x, b)
    ensures a == b
  {
    if a < b {
      PowMonotone(2, a, b - 1);
    } else if b < a {
      PowMonotone(2, b, a - 1);
    }
  }

  lemma {:induction false} LevelHalf(x: int, l: int)
    requires OnLevel(x, l) && x >= 2
    ensures l >= 2 && OnLevel(x / 2, l - 1)
  {
    assert l >= 2;
    assert Pow(2, l - 1) == 2 * Pow(2, l - 2);
  }

  lemma {:induction false} LevelChildren(x: int, l: int)
    requires OnLevel(x, l)
    ensures OnLevel(2 * x, l + 1) && OnLevel(2 * x + 1, l + 1)
  {
    assert Pow(2, l) == 2 * Pow(2, l - 1);
  }

  /** A node on a level above the boundary lies on one of the levels 2 .. hb
      when it is neither the root nor at or below B. */
  lemma {:induction false} LevelAboveBoundary(x: int, l: int, hb: nat)
    requires OnLevel(x, l) && 2 <= x < Pow(2, hb)
    ensures 2 <= l <= hb
  {
    if l > hb {
      PowMonotone(2, hb, l - 1);
    }
  }

  /** A node and its sibling lie on the same level. */
  lemma {:induction false} SiblingLevel(x: int, l: int)
    requires OnLevel(x, l) && x >= 2
    ensures OnLevel(SiblingId(x), l) && SiblingId(x) >= 2 && SiblingId(x) != x
    ensures SiblingId(SiblingId(x)) == x
  {
    SiblingFlipsLowestBit(x);
    var p := Pow(2, l - 2);
    assert Pow(2, l - 1) == 2 * p && Pow(2, l) == 4 * p;
    assert p <= x / 2 < 2 * p;
  }

  /** Above a node, its ancestors stand strictly above its parent's parent... */
  lemma {:induction false} PathUp(c: int, y: int)
    requires OnPath(c, y) && c >= 2
    ensures StrictAncestor(c / 2, y)
    decreases y
  {
    if c != y && c != y / 2 {
      PathUp(c, y / 2);
    }
  }

  /** The node of the path above y that lies on level a is y's ancestor b - a
      levels up. */
  lemma {:induction false} PathLevel(x: int, y: int, a: int, b: int)
    requires OnPath(x, y) && OnLevel(x, a) && OnLevel(y, b)
    ensures a <= b && x == Up(y, b - a)
    decreases y
  {
    if x == y {
      LevelUnique(x, a, b);
    } else {
      LevelHalf(y, b);
      PathLevel(x, y / 2, a, b - 1);
      UpHalf(y, b - 1 - a);
    }
  }

  /** Hence a node on the level of a path's node, and not that node, is
      off the path. */
  lemma {:induction false} OffPath(w: int, x: int, y: int, l: int, m: int)
    requires OnLevel(w, l) && OnLevel(x, l) && OnPath(x, y) && OnLevel(y, m) && w != x
    ensures !OnPath(w, y)
  {
    if OnPath(w, y) {
      SameLevelOnPath(w, x, y, l, m);
    }
  }

  /** The sibling of a path's node is off the path. */
  lemma {:induction false} SiblingOffPath(x: int, l: int, y: int, m: int)
    requires 2 <= l && OnLevel(x, l) && OnPath(x, y) && OnLevel(y, m)
    ensures !OnPath(SiblingId(x), y) && SiblingId(x) >= 2 && SiblingId(x) / 2 == x / 2
  {
    assert x >= 2 by {
      PowMonotone(2, 1, l - 1);
    }
    SiblingLevel(x, l);
    SiblingFlipsLowestBit(x);
    OffPath(SiblingId(x), x, y, l, m);
  }

  /** Hence a path has one node per level. */
  lemma {:induction false} SameLevelOnPath(x: int, z: int, y: int, l: int, m: int)
    requires OnPath(x, y) && OnPath(z, y) && OnLevel(x, l) && OnLevel(z, l) && OnLevel(y, m)
    ensures x == z
  {
    PathLevel(x, y, l, m);
    PathLevel(z, y, l, m);
  }

  /** gen_node and update write the copy of x, on level l, to the boundary
      nodes up_to(sibling, B) .. up_to_max(sibling, B): exactly the boundary
      nodes whose copy of level l is meant to be x's hash. */
  lemma {:induction false} CopyRange(x: int, l: int, hb: nat, j: int)
    requires 2 <= l <= hb && OnLevel(x, l)
    ensures SiblingId(x) >= 1
    ensures UpTo(SiblingId(x), Pow(2, hb)) <= j <= UpToMax(SiblingId(x), Pow(2, hb))
      <==> OnLevel(j, hb) && SiblingId(Up(j, hb - l)) == x
  {
    var sib := SiblingId(x);
    SiblingLevel(x, l);
    UpToOnLevel(sib, l - 1, hb);
    UpToMaxOnLevel(sib, l - 1, hb);
    UpRange(j, hb - l, sib);
    if OnLevel(j, hb) && SiblingId(Up(j, hb - l)) == x {
      UpLevel(j, hb, hb - l);
      assert Pow(2, l - 1) == 2 * Pow(2, l - 2);
      SiblingFlipsLowestBit(Up(j, hb - l));
    }
    if Up(j, hb - l) == sib {
      UpFromLevel(j, hb - l, l);
    }
  }

  /** The copy range lies on the boundary. */
  lemma {:induction false} RangeOnBoundary(x: int, l: int, hb: nat)
    requires 2 <= l <= hb && OnLevel(x, l)
    ensures SiblingId(x) >= 1
    ensures var lo := UpTo(SiblingId(x), Pow(2, hb)); var hi := UpToMax(SiblingId(x), Pow(2, hb));
      Pow(2, hb - 1) <= lo <= hi < Pow(2, hb)
  {
    var sib := SiblingId(x);
    SiblingLevel(x, l);
    UpToOnLevel(sib, l - 1, hb);
    UpToMaxOnLevel(sib, l - 1, hb);
    var p := Pow(2, hb - l);
    NextMultiple(sib, p);
    var lo := UpTo(sib, Pow(2, hb));
    var hi := UpToMax(sib, Pow(2, hb));
    assert lo <= hi;
    CopyRange(x, l, hb, lo);
    CopyRange(x, l, hb, hi);
  }

  lemma {:induction false} NextMultiple(a: int, p: int)
    ensures (a + 1) * p == a * p + p
  {
  }

  /** Changing one leaf changes only the hashes on its path. */
  lemma {:induction false} HashOffPath(H: Hasher, values: seq<string>, N: int, pos: int, v: string, x: int)
    requires |values| == N && 0 <= pos < N && 1 <= x < 2 * N && !OnPath(x, pos + N)
    ensures HashAt(H, values[pos := v], N, x) == HashAt(H, values, N, x)
    decreases 2 * N - x
  {
    if x < N {
      if OnPath(2 * x, pos + N) {
        PathUp(2 * x, pos + N);
      }
      if OnPath(2 * x + 1, pos + N) {
        PathUp(2 * x + 1, pos + N);
      }
      HashOffPath(H, values, N, pos, v, 2 * x);
      HashOffPath(H, values, N, pos, v, 2 * x + 1);
    }
  }

  // ---------------------------------------------------------------------
  // The copies both layouts keep, seen alike.

  /** The copy of level l that boundary node j holds, if it holds one:
      DupTreeSimple's record under (j, l), or the level's slot of
      DupTreeBlock's record under j. */
  function CopyAt(layout: Layout, hb: nat, store: map<int, string>, copies: map<(int, int), string>, j: int, l: int)
    : Option<string>
  {
    match layout
    case Simple => if (j, l) in copies then Some(copies[(j, l)]) else None
    case Block => if j in store then Some(Slot(store[j], hb, l)) else None
  }

  /** Every DupTreeBlock record on the boundary has a slot per level. */
  ghost predicate Shaped(layout: Layout, hb: nat, store: map<int, string>) {
    layout.Block? ==> forall j :: OnLevel(j, hb) && j in store ==> |store[j]| == (hb - 1) * 64
  }

  /** Record x is the same in both stores. */
  predicate Kept(a: map<int, string>, b: map<int, string>, x: int) {
    (x in a <==> x in b) && (x in a ==> a[x] == b[x])
  }

  /** Records from B up kept from a to b and from b to c are kept from a
      to c. */
  lemma {:induction false} KeptAbove(a: map<int, string>, b: map<int, string>, c: map<int, string>, B: int)
    requires forall x :: x >= B ==> Kept(a, b, x)
    requires forall x :: x >= B ==> Kept(b, c, x)
    ensures forall x :: x >= B ==> Kept(a, c, x)
  {
    forall x | x >= B
      ensures Kept(a, c, x)
    {
      assert Kept(a, b, x) && Kept(b, c, x);
    }
  }

  /** What modify_id_level(j, level, key) for j in lo .. hi does: those
      boundary nodes' copies of level hold key, every copy that existed is
      otherwise kept, and no record outside lo .. hi changes. */
  ghost predicate WroteCopies(layout: Layout, hb: nat, lo: int, hi: int, level: int, key: string,
                              s0: map<int, string>, c0: map<(int, int), string>,
                              s1: map<int, string>, c1: map<(int, int), string>) {
    (forall x :: !(lo <= x <= hi) ==> Kept(s0, s1, x))
    && forall j, l :: OnLevel(j, hb) && 2 <= l <= hb ==>
      if l == level && lo <= j <= hi then CopyAt(layout, hb, s1, c1, j, l) == Some(key)
      else (CopyAt(layout, hb, s0, c0, j, l).Some? ==> CopyAt(layout, hb, s1, c1, j, l) == CopyAt(layout, hb, s0, c0, j, l))
  }

  /** One modify_id_level on a boundary node of a well-shaped store. */
  lemma {:induction false} ModifyOne(layout: Layout, hb: nat, j: int, level: int, key: string,
                                     s0: map<int, string>, c0: map<(int, int), string>,
                                     s1: map<int, string>, c1: map<(int, int), string>)
    requires 2 <= level <= hb && OnLevel(j, hb) && |key| == 64 && Shaped(layout, hb, s0)
    requires layout.Simple? ==> s1 == s0 && c1 == c0[(j, level) := key]
    requires layout.Block? ==> (c1 == c0 && Modify(hb, level, ReadOr(s0, j, ""), key).Some?
      && s1 == s0[j := Modify(hb, level, ReadOr(s0, j, ""), key).value])
    ensures Shaped(layout, hb, s1) && WroteCopies(layout, hb, j, j, level, key, s0, c0, s1, c1)
  {
    if layout.Block? {
      var pre := ReadOr(s0, j, "");
      ModifyPlacesCopy(hb, level, pre, key);
    }
    forall x | x != j
      ensures Kept(s0, s1, x)
    {
    }
  }

  /** Writing lo .. j - 1 and then j is writing lo .. j. */
  lemma {:induction false} WroteNext(layout: Layout, hb: nat, lo: int, j: int, level: int, key: string,
                                     s0: map<int, string>, c0: map<(int, int), string>,
                                     s1: map<int, string>, c1: map<(int, int), string>,
                                     s2: map<int, string>, c2: map<(int, int), string>)
    requires WroteCopies(layout, hb, lo, j - 1, level, key, s0, c0, s1, c1) && lo <= j
    requires WroteCopies(layout, hb, j, j, level, key, s1, c1, s2, c2)
    ensures WroteCopies(layout, hb, lo, j, level, key, s0, c0, s2, c2)
  {
    forall x | !(lo <= x <= j)
      ensures Kept(s0, s2, x)
    {
      assert Kept(s0, s1, x) && Kept(s1, s2, x);
    }
  }

  /** Records at or below level hb + 1 of id's subtree hold their nodes'
      hashes after gen_node(id); every other one is as before. */
  ghost predicate LowBuilt(H: Hasher, values: seq<string>, N: int, B: int, id: int,
                           s0: map<int, string>, s1: map<int, string>) {
    forall x :: B <= x < 2 * N ==>
      if InSubtree(x, id) then x in s1 && s1[x] == HashAt(H, values, N, x) else Kept(s0, s1, x)
  }

  /** After gen_node(id) every boundary copy of a node of id's subtree holds
      that node's hash, and every other copy that existed is as before. */
  ghost predicate CopiesBuilt(H: Hasher, values: seq<string>, N: int, hb: nat, layout: Layout, id: int,
                              s0: map<int, string>, c0: map<(int, int), string>,
                              s1: map<int, string>, c1: map<(int, int), string>) {
    forall j, l :: OnLevel(j, hb) && 2 <= l <= hb ==>
      if InSubtree(SiblingId(Up(j, hb - l)), id)
      then CopyAt(layout, hb, s1, c1, j, l) == Some(HashAt(H, values, N, SiblingId(Up(j, hb - l))))
      else (CopyAt(layout, hb, s0, c0, j, l).Some? ==> CopyAt(layout, hb, s1, c1, j, l) == CopyAt(layout, hb, s0, c0, j, l))
  }

  /** What gen_node(id) writes for id itself, with key its hash: its record
      when id >= B, else the copies whose node is id. */
  ghost predicate OwnWrite(hb: nat, layout: Layout, B: int, id: int, key: string,
                           s0: map<int, string>, c0: map<(int, int), string>,
                           s1: map<int, string>, c1: map<(int, int), string>) {
    (forall x :: x >= B && x != id ==> Kept(s0, s1, x))
    && (id >= B ==> id in s1 && s1[id] == key)
    && forall j, l :: OnLevel(j, hb) && 2 <= l <= hb ==>
      if SiblingId(Up(j, hb - l)) == id then CopyAt(layout, hb, s1, c1, j, l) == Some(key)
      else (CopyAt(layout, hb, s0, c0, j, l).Some? ==> CopyAt(layout, hb, s1, c1, j, l) == CopyAt(layout, hb, s0, c0, j, l))
  }

  /** A copy of level l is the hash of a node on level l, 2 .. hb. */
  lemma {:induction false} CopyNodeLevel(j: int, hb: nat, l: int)
    requires OnLevel(j, hb) && 2 <= l <= hb
    ensures OnLevel(SiblingId(Up(j, hb - l)), l) && 2 <= SiblingId(Up(j, hb - l)) < Pow(2, hb)
  {
    UpLevel(j, hb, hb - l);
    assert Pow(2, l - 1) == 2 * Pow(2, l - 2);
    SiblingLevel(Up(j, hb - l), l);
    PowMonotone(2, l, hb);
  }

  /** gen_node at a node at or below B, or at the root, writes no copy. */
  lemma {:induction false} OwnWriteNoCopies(hb: nat, layout: Layout, id: int, key: string,
                                            s0: map<int, string>, c0: map<(int, int), string>,
                                            s1: map<int, string>, c1: map<(int, int), string>)
    requires hb >= 1 && (id >= Pow(2, hb) || id == 1)
    requires forall x :: x != id ==> Kept(s0, s1, x)
    requires c1 == c0 && (id >= Pow(2, hb) ==> id in s1 && s1[id] == key)
    ensures OwnWrite(hb, layout, Pow(2, hb), id, key, s0, c0, s1, c1)
  {
    forall j, l | OnLevel(j, hb) && 2 <= l <= hb
      ensures CopyAt(layout, hb, s1, c1, j, l) == CopyAt(layout, hb, s0, c0, j, l)
      ensures SiblingId(Up(j, hb - l)) != id
    {
      CopyNodeLevel(j, hb, l);
      assert Kept(s0, s1, j);
    }
  }

  /** gen_node above B writes the copies of id over its copy range. */
  lemma {:induction false} OwnWriteCopies(hb: nat, layout: Layout, id: int, level: int, key: string,
                                          s0: map<int, string>, c0: map<(int, int), string>,
                                          s1: map<int, string>, c1: map<(int, int), string>)
    requires 2 <= level <= hb && OnLevel(id, level)
    requires WroteCopies(layout, hb, UpTo(SiblingId(id), Pow(2, hb)), UpToMax(SiblingId(id), Pow(2, hb)),
                         level, key, s0, c0, s1, c1)
    ensures OwnWrite(hb, layout, Pow(2, hb), id, key, s0, c0, s1, c1)
  {
    var lo := UpTo(SiblingId(id), Pow(2, hb));
    var hi := UpToMax(SiblingId(id), Pow(2, hb));
    assert id < Pow(2, hb) by {
      PowMonotone(2, level, hb);
    }
    assert forall x :: x >= Pow(2, hb) ==> Kept(s0, s1, x) by {
      RangeOnBoundary(id, level, hb);
      forall x | x >= Pow(2, hb)
        ensures Kept(s0, s1, x)
      {
        assert !(lo <= x <= hi);
      }
    }
    forall j, l | OnLevel(j, hb) && 2 <= l <= hb
      ensures if SiblingId(Up(j, hb - l)) == id then CopyAt(layout, hb, s1, c1, j, l) == Some(key)
        else (CopyAt(layout, hb, s0, c0, j, l).Some? ==> CopyAt(layout, hb, s1, c1, j, l) == CopyAt(layout, hb, s0, c0, j, l))
    {
      assert (l == level && lo <= j <= hi) <==> SiblingId(Up(j, hb - l)) == id by {
        CopyRange(id, level, hb, j);
        CopyNodeLevel(j, hb, l);
        if SiblingId(Up(j, hb - l)) == id {
          LevelUnique(id, l, level);
        }
      }
    }
  }

  /** gen_node at a leaf: its record is its value. */
  lemma {:induction false} LeafBuilt(H: Hasher, values: seq<string>, N: int, hb: nat, layout: Layout, id: int,
                                     s0: map<int, string>, c0: map<(int, int), string>)
    requires |values| == N && 1 <= hb && Pow(2, hb) <= N <= id < 2 * N
    ensures LowBuilt(H, values, N, Pow(2, hb), id, s0, s0[id := values[id - N]])
    ensures CopiesBuilt(H, values, N, hb, layout, id, s0, c0, s0[id := values[id - N]], c0)
    ensures Shaped(layout, hb, s0) ==> Shaped(layout, hb, s0[id := values[id - N]])
  {
    var s1 := s0[id := values[id - N]];
    forall x | Pow(2, hb) <= x < 2 * N && InSubtree(x, id)
      ensures x == id
    {
      SubtreeAtLeast(x, id);
    }
    forall j, l | OnLevel(j, hb) && 2 <= l <= hb
      ensures !InSubtree(SiblingId(Up(j, hb - l)), id)
      ensures CopyAt(layout, hb, s1, c0, j, l) == CopyAt(layout, hb, s0, c0, j, l)
    {
      CopyNodeLevel(j, hb, l);
      if InSubtree(SiblingId(Up(j, hb - l)), id) {
        SubtreeAtLeast(SiblingId(Up(j, hb - l)), id);
      }
    }
  }

  /** A subtree is its root and its two children's disjoint subtrees. */
  lemma {:induction false} SubtreeCases(x: int, id: int)
    requires id >= 1
    ensures InSubtree(x, id) <==> x == id || InSubtree(x, 2 * id) || InSubtree(x, 2 * id + 1)
    ensures !(InSubtree(x, 2 * id) && InSubtree(x, 2 * id + 1))
    ensures InSubtree(x, 2 * id) || InSubtree(x, 2 * id + 1) ==> x != id
  {
    if InSubtree(x, id) && x != id {
      SubtreeSplit(x, id);
    }
    if InSubtree(x, 2 * id) {
      InSubtreeOfChild(x, 2 * id);
      SubtreeAtLeast(x, 2 * id);
    }
    if InSubtree(x, 2 * id + 1) {
      InSubtreeOfChild(x, 2 * id + 1);
      SubtreeAtLeast(x, 2 * id + 1);
    }
    SubtreesDisjoint(x, id);
  }

  /** gen_node at a parent: the records of both subtrees, then its own. */
  lemma {:induction false} ParentLowBuilt(H: Hasher, values: seq<string>, N: int, B: int, id: int,
                                          s0: map<int, string>, s1: map<int, string>,
                                          s2: map<int, string>, s3: map<int, string>)
    requires |values| == N && 1 <= id < N
    requires LowBuilt(H, values, N, B, 2 * id, s0, s1) && LowBuilt(H, values, N, B, 2 * id + 1, s1, s2)
    requires forall x :: x >= B && x != id ==> Kept(s2, s3, x)
    requires id >= B ==> id in s3 && s3[id] == HashAt(H, values, N, id)
    ensures LowBuilt(H, values, N, B, id, s0, s3)
  {
    forall x | B <= x < 2 * N
      ensures if InSubtree(x, id) then x in s3 && s3[x] == HashAt(H, values, N, x) else Kept(s0, s3, x)
    {
      SubtreeCases(x, id);
      assert if InSubtree(x, 2 * id) then x in s1 && s1[x] == HashAt(H, values, N, x) else Kept(s0, s1, x);
      assert if InSubtree(x, 2 * id + 1) then x in s2 && s2[x] == HashAt(H, values, N, x) else Kept(s1, s2, x);
      if x != id {
        assert Kept(s2, s3, x);
      }
    }
  }

  /** gen_node at a parent: the copies of both subtrees, then its own. */
  lemma {:induction false} ParentCopiesBuilt(H: Hasher, values: seq<string>, N: int, hb: nat, layout: Layout, id: int,
                                             s0: map<int, string>, c0: map<(int, int), string>,
                                             s1: map<int, string>, c1: map<(int, int), string>,
                                             s2: map<int, string>, c2: map<(int, int), string>,
                                             s3: map<int, string>, c3: map<(int, int), string>)
    requires |values| == N && 1 <= id < N
    requires CopiesBuilt(H, values, N, hb, layout, 2 * id, s0, c0, s1, c1)
    requires CopiesBuilt(H, values, N, hb, layout, 2 * id + 1, s1, c1, s2, c2)
    requires OwnWrite(hb, layout, Pow(2, hb), id, HashAt(H, values, N, id), s2, c2, s3, c3)
    ensures CopiesBuilt(H, values, N, hb, layout, id, s0, c0, s3, c3)
  {
    forall j, l | OnLevel(j, hb) && 2 <= l <= hb
      ensures var w := SiblingId(Up(j, hb - l));
        if InSubtree(w, id) then CopyAt(layout, hb, s3, c3, j, l) == Some(HashAt(H, values, N, w))
        else (CopyAt(layout, hb, s0, c0, j, l).Some? ==> CopyAt(layout, hb, s3, c3, j, l) == CopyAt(layout, hb, s0, c0, j, l))
    {
      SubtreeCases(SiblingId(Up(j, hb - l)), id);
    }
  }


  /** Both layouts' copy invariant, read through CopyAt. */
  lemma {:induction false} StoredCopyAt(H: Hasher, values: seq<string>, N: int, hb: nat, layout: Layout,
                                        store: map<int, string>, copies: map<(int, int), string>)
    requires CopiesStored(H, values, N, hb, layout, store, copies)
    ensures Shaped(layout, hb, store)
    ensures forall j, l :: OnLevel(j, hb) && 2 <= l <= hb ==>
      CopyAt(layout, hb, store, copies, j, l) == Some(HashAt(H, values, N, SiblingId(Up(j, hb - l))))
  {
    if layout.Block? {
      forall j, l | OnLevel(j, hb) && 2 <= l <= hb
        ensures CopyAt(layout, hb, store, copies, j, l) == Some(HashAt(H, values, N, SiblingId(Up(j, hb - l))))
      {
        assert |ReadOr(store, j, "")| == (hb - 1) * 64 && BlockHolds(H, values, N, hb, j, ReadOr(store, j, ""));
      }
      forall j | OnLevel(j, hb) && j in store
        ensures |store[j]| == (hb - 1) * 64
      {
        assert |ReadOr(store, j, "")| == (hb - 1) * 64;
      }
    }
  }

  /** ... and back. */
  lemma {:induction false} CopyAtStored(H: Hasher, values: seq<string>, N: int, hb: nat, layout: Layout,
                                        store: map<int, string>, copies: map<(int, int), string>)
    requires hb >= 1 && Shaped(layout, hb, store)
    requires forall j, l :: OnLevel(j, hb) && 2 <= l <= hb ==>
      CopyAt(layout, hb, store, copies, j, l) == Some(HashAt(H, values, N, SiblingId(Up(j, hb - l))))
    ensures CopiesStored(H, values, N, hb, layout, store, copies)
  {
    if layout.Simple? {
      forall j, l | OnLevel(j, hb) && 2 <= l <= hb
        ensures (j, l) in copies && copies[(j, l)] == HashAt(H, values, N, SiblingId(Up(j, hb - l)))
      {
        assert CopyAt(layout, hb, store, copies, j, l).Some?;
      }
    } else {
      forall j | OnLevel(j, hb)
        ensures |ReadOr(store, j, "")| == (hb - 1) * 64 && BlockHolds(H, values, N, hb, j, ReadOr(store, j, ""))
      {
        if hb >= 2 {
          assert CopyAt(layout, hb, store, copies, j, 2).Some?;
        }
        forall l | 2 <= l <= hb
          ensures Slot(ReadOr(store, j, ""), hb, l) == HashAt(H, values, N, SiblingId(Up(j, hb - l)))
        {
          assert CopyAt(layout, hb, store, copies, j, l).Some?;
        }
      }
    }
  }

  /** gen_node(1) from an empty store establishes the record invariant. */
  lemma {:induction false} BuiltStored(H: Hasher, values: seq<string>, N: int, hb: nat, layout: Layout,
                                       s0: map<int, string>, c0: map<(int, int), string>,
                                       s1: map<int, string>, c1: map<(int, int), string>)
    requires hb >= 1 && Shaped(layout, hb, s1)
    requires LowBuilt(H, values, N, Pow(2, hb), 1, s0, s1) && CopiesBuilt(H, values, N, hb, layout, 1, s0, c0, s1, c1)
    ensures LowStored(H, values, N, Pow(2, hb), s1) && CopiesStored(H, values, N, hb, layout, s1, c1)
  {
    forall x | Pow(2, hb) <= x < 2 * N
      ensures x in s1 && s1[x] == HashAt(H, values, N, x)
    {
      InSubtreeOfRoot(x);
    }
    forall j, l | OnLevel(j, hb) && 2 <= l <= hb
      ensures CopyAt(layout, hb, s1, c1, j, l) == Some(HashAt(H, values, N, SiblingId(Up(j, hb - l))))
    {
      CopyNodeLevel(j, hb, l);
      InSubtreeOfRoot(SiblingId(Up(j, hb - l)));
    }
    CopyAtStored(H, values, N, hb, layout, s1, c1);
  }

  /** Records below B are not touched: the boundary copies are as before. */
  lemma {:induction false} BoundaryKept(layout: Layout, hb: nat, s0: map<int, string>, s1: map<int, string>,
                                        copies: map<(int, int), string>)
    requires forall x :: x < Pow(2, hb) ==> Kept(s0, s1, x)
    ensures Shaped(layout, hb, s0) ==> Shaped(layout, hb, s1)
    ensures forall j, l :: OnLevel(j, hb) ==> CopyAt(layout, hb, s1, copies, j, l) == CopyAt(layout, hb, s0, copies, j, l)
  {
    forall j | OnLevel(j, hb)
      ensures Kept(s0, s1, j)
    {
    }
  }

  // ---------------------------------------------------------------------
  // read_self

  /** DupTreeSimple's read_self(j): the copies of levels i, i - 1, .. 2, a
      missing one read as the one before. */
  function SelfsSimple(copies: map<(int, int), string>, j: int, i: int, prev: string): seq<string>
    decreases i
  {
    if i <= 1 then []
    else
      var s := ReadOr(copies, (j, i), prev);
      [s] + SelfsSimple(copies, j, i - 1, s)
  }

  /** DupTreeBlock's read_self: the record cut into 64-character pieces, the
      last one shorter when the length is not a multiple of 64. */
  function Pieces(rec: string): seq<string>
    decreases |rec|
  {
    if |rec| == 0 then []
    else if |rec| <= 64 then [rec]
    else [rec[..64]] + Pieces(rec[64..])
  }

  /** read_self(j) of either layout. */
  function Selfs(layout: Layout, store: map<int, string>, copies: map<(int, int), string>, hb: int, j: int)
    : seq<string>
  {
    match layout
    case Simple => SelfsSimple(copies, j, hb, "")
    case Block => Pieces(ReadOr(store, j, ""))
  }

  lemma {:induction false} SelfsSimpleHeld(copies: map<(int, int), string>, j: int, i: int, prev: string)
    requires i >= 1 && forall l :: 2 <= l <= i ==> (j, l) in copies
    ensures |SelfsSimple(copies, j, i, prev)| == i - 1
    ensures forall m :: 0 <= m < i - 1 ==> SelfsSimple(copies, j, i, prev)[m] == copies[(j, i - m)]
    decreases i
  {
    if i >= 2 {
      SelfsSimpleHeld(copies, j, i - 1, copies[(j, i)]);
    }
  }

  lemma {:induction false} PiecesSized(rec: string, k: nat)
    requires |rec| == 64 * k
    ensures |Pieces(rec)| == k
    ensures forall m :: 0 <= m < k ==> Pieces(rec)[m] == rec[64 * m .. 64 * m + 64]
    decreases k
  {
    if k == 1 {
      assert rec[0 .. 64] == rec;
    } else if k >= 2 {
      var rest := rec[64..];
      PiecesSized(rest, k - 1);
      forall m | 1 <= m < k
        ensures Pieces(rec)[m] == rec[64 * m .. 64 * m + 64]
      {
        assert rest[64 * (m - 1) .. 64 * (m - 1) + 64] == rec[64 * m .. 64 * m + 64];
      }
    }
  }

  /** One piece of DupTreeBlock's read_self loop. */
  lemma {:induction false} PiecesStep(rec: string, i: int)
    requires 0 <= i < |rec|
    ensures Pieces(rec[i..]) == [rec[i .. Min(i + 64, |rec|)]] + Pieces(rec[Min(i + 64, |rec|)..])
  {
    var t := rec[i..];
    if |t| > 64 {
      assert t[..64] == rec[i .. i + 64];
      assert t[64..] == rec[i + 64..];
    } else {
      assert rec[i .. |rec|] == t;
      assert rec[|rec|..] == [];
    }
  }

  /** With the copies in place, read_self(j) gives the copies of levels
      hb .. 2: piece m is the hash of the sibling of j's ancestor m levels up. */
  lemma {:induction false} SelfsStored(H: Hasher, values: seq<string>, N: int, hb: nat, layout: Layout,
                                       store: map<int, string>, copies: map<(int, int), string>, j: int)
    requires CopiesStored(H, values, N, hb, layout, store, copies) && OnLevel(j, hb)
    ensures |Selfs(layout, store, copies, hb, j)| == hb - 1
    ensures forall m :: 0 <= m < hb - 1 ==>
      Selfs(layout, store, copies, hb, j)[m] == HashAt(H, values, N, SiblingId(Up(j, m)))
  {
    if layout.Simple? {
      SelfsSimpleHeld(copies, j, hb, "");
      forall m | 0 <= m < hb - 1
        ensures copies[(j, hb - m)] == HashAt(H, values, N, SiblingId(Up(j, m)))
      {
        assert hb - (hb - m) == m;
      }
    } else {
      BlockSelfs(H, values, N, hb, ReadOr(store, j, ""), j);
    }
  }

  lemma {:induction false} BlockSelfs(H: Hasher, values: seq<string>, N: int, hb: nat, rec: string, j: int)
    requires hb >= 1 && |rec| == (hb - 1) * 64 && BlockHolds(H, values, N, hb, j, rec)
    ensures |Pieces(rec)| == hb - 1
    ensures forall m :: 0 <= m < hb - 1 ==> Pieces(rec)[m] == HashAt(H, values, N, SiblingId(Up(j, m)))
  {
    PiecesSized(rec, hb - 1);
    forall m | 0 <= m < hb - 1
      ensures Pieces(rec)[m] == HashAt(H, values, N, SiblingId(Up(j, m)))
    {
      var l := hb - m;
      assert Slot(rec, hb, l) == HashAt(H, values, N, SiblingId(Up(j, hb - l)));
      assert (hb - l) * 64 == 64 * m;
    }
  }

  // ---------------------------------------------------------------------
  // update

  /** Below the boundary every record holds its hash in the tree over next,
      except the ancestors of id, which update has yet to reach. */
  ghost predicate Climbed(H: Hasher, next: seq<string>, N: int, B: int, store: map<int, string>, id: int) {
    forall x :: B <= x < 2 * N ==> x in store && (store[x] == HashAt(H, next, N, x) || StrictAncestor(x, id))
  }

  /** Writing the leaf leaves only its ancestors stale. */
  lemma {:induction false} ClimbStart(H: Hasher, values: seq<string>, N: int, B: int, pos: int, v: string,
                                      store: map<int, string>)
    requires |values| == N && 0 <= pos < N && B >= 1 && LowStored(H, values, N, B, store)
    ensures LowAt(H, values, pos, v, N, B, store[pos + N := v], pos + N, v)
  {
    forall x | B <= x < 2 * N && x != pos + N && !StrictAncestor(x, pos + N)
      ensures HashAt(H, values[pos := v], N, x) == HashAt(H, values, N, x)
    {
      HashOffPath(H, values, N, pos, v, x);
    }
  }

  /** One turn of update's loop below the boundary: the sibling's record is
      current, so the new key is the parent's hash. */
  lemma {:induction false} ClimbStep(H: Hasher, next: seq<string>, N: int, B: int, store: map<int, string>,
                                     id: int, key: string)
    requires |next| == N && B >= 2 && B % 2 == 0 && B <= id < 2 * N
    requires Climbed(H, next, N, B, store, id) && key == HashAt(H, next, N, id)
    ensures SiblingId(id) in store
    ensures Combine(H, id, key, store[SiblingId(id)]) == HashAt(H, next, N, id / 2)
    ensures var up := Combine(H, id, key, store[SiblingId(id)]);
      Climbed(H, next, N, B, if id / 2 >= B then store[id / 2 := up] else store, id / 2)
  {
    LowSibling(B, N, id);
    Merkle.SiblingOffPath(id);
    SiblingCombines(H, next, N, id);
  }

  /** Where update's loop below the boundary stands at id: key is id's new
      hash and every record below the boundary is current except id's
      ancestors'. */
  ghost predicate LowAt(H: Hasher, values: seq<string>, pos: int, v: string, N: int, B: int,
                        store: map<int, string>, id: int, key: string) {
    |values| == N && 0 <= pos < N
    && key == HashAt(H, values[pos := v], N, id) && Climbed(H, values[pos := v], N, B, store, id)
  }

  /** update's loop below the boundary from the leaf, once it has written
      v under it. */
  function FromLeaf(H: Hasher, store: map<int, string>, B: int, leaf: int, v: string): (map<int, string>, string, int)
    requires B >= 2
  {
    Climb(H, store[leaf := v], B, leaf, v, "")
  }

  /** update's loop below the boundary, from id with its key and the last
      sibling string s: the records it leaves, its last key and the node
      where it stops. A missing sibling record leaves s as it was. */
  function Climb(H: Hasher, store: map<int, string>, B: int, id: int, key: string, s: string)
    : (map<int, string>, string, int)
    requires B >= 2
    decreases id
  {
    if id < B then (store, key, id)
    else
      var s1 := ReadOr(store, SiblingId(id), s);
      var s2 := if id % 2 == 0 then s1 else s1 + key;
      var up := if id % 2 == 0 then Hash(H, key + s2) else Hash(H, s2);
      Climb(H, if id / 2 >= B then store[id / 2 := up] else store, B, id / 2, up, s2)
  }

  /** From a state where key is id's new hash and only id's ancestors are
      stale, the loop leaves every record below the boundary current and
      its last key the new hash of the node where it stops. */
  lemma {:induction false} ClimbUpdates(H: Hasher, values: seq<string>, pos: int, v: string, N: int, B: int,
                                        store: map<int, string>, id: int, key: string, s: string)
    requires B >= 2 && B % 2 == 0 && B / 2 <= id < 2 * N
    requires LowAt(H, values, pos, v, N, B, store, id, key)
    ensures LowStored(H, values[pos := v], N, B, Climb(H, store, B, id, key, s).0)
    ensures Climb(H, store, B, id, key, s).1 == HashAt(H, values[pos := v], N, Climb(H, store, B, id, key, s).2)
    decreases id
  {
    var next := values[pos := v];
    if id >= B {
      ClimbStep(H, next, N, B, store, id, key);
      var s1 := ReadOr(store, SiblingId(id), s);
      var s2 := if id % 2 == 0 then s1 else s1 + key;
      var up := if id % 2 == 0 then Hash(H, key + s2) else Hash(H, s2);
      assert up == Combine(H, id, key, store[SiblingId(id)]);
      ClimbUpdates(H, values, pos, v, N, B, if id / 2 >= B then store[id / 2 := up] else store, id / 2, up, s2);
    } else {
      ClimbDone(H, next, N, B, store, id);
    }
  }

  /** The loop below the boundary writes no record above it. */
  lemma {:induction false} ClimbKeeps(H: Hasher, store: map<int, string>, B: int, id: int, key: string, s: string)
    requires B >= 2
    ensures forall x :: x < B ==> Kept(store, Climb(H, store, B, id, key, s).0, x)
    decreases id
  {
    if id >= B {
      var s1 := ReadOr(store, SiblingId(id), s);
      var s2 := if id % 2 == 0 then s1 else s1 + key;
      var up := if id % 2 == 0 then Hash(H, key + s2) else Hash(H, s2);
      var next := if id / 2 >= B then store[id / 2 := up] else store;
      ClimbKeeps(H, next, B, id / 2, up, s2);
      assert Climb(H, store, B, id, key, s) == Climb(H, next, B, id / 2, up, s2);
      forall x | x < B
        ensures Kept(store, Climb(H, store, B, id, key, s).0, x)
      {
        assert Kept(store, next, x) && Kept(next, Climb(H, next, B, id / 2, up, s2).0, x);
      }
    }
  }

  /** Once update passes the boundary every record below it is current. */
  lemma {:induction false} ClimbDone(H: Hasher, next: seq<string>, N: int, B: int, store: map<int, string>, id: int)
    requires Climbed(H, next, N, B, store, id) && id < B
    ensures LowStored(H, next, N, B, store)
  {
    forall x | B <= x < 2 * N && StrictAncestor(x, id)
      ensures false
    {
      AncestorIsSmaller(x, id);
    }
  }

  /** Before update's turn at level i the copies of levels above i hold the
      new tree's hashes and the others the old tree's. */
  ghost predicate CopiesAt(H: Hasher, values: seq<string>, next: seq<string>, N: int, hb: nat, layout: Layout,
                           store: map<int, string>, copies: map<(int, int), string>, i: int) {
    forall j, l :: OnLevel(j, hb) && 2 <= l <= hb ==>
      CopyAt(layout, hb, store, copies, j, l) == Some(HashAt(H, if l > i then next else values, N, SiblingId(Up(j, hb - l))))
  }

  /** Where update's loop over the levels stands before its turn at level
      i: key is the new hash of id, the path's node on level i, the copies
      of levels above i are the new tree's, and selfs are the old sibling
      hashes along the path from the boundary node top. */
  ghost predicate HighAt(H: Hasher, values: seq<string>, pos: int, v: string, N: int, hb: nat, layout: Layout,
                         top: int, selfs: seq<string>, store: map<int, string>, copies: map<(int, int), string>,
                         i: int, id: int, key: string) {
    |values| == N && 0 <= pos < N && Shaped(layout, hb, store)
    && key == HashAt(H, values[pos := v], N, id) && |key| == 64
    && CopiesAt(H, values, values[pos := v], N, hb, layout, store, copies, i)
    && |selfs| == hb - 1
    && (forall m :: 0 <= m < hb - 1 ==> selfs[m] == HashAt(H, values, N, SiblingId(Up(top, m))))
  }

  /** Where update's loop over the levels stands: id is the node of the
      path to y on level i, hb - i levels above the boundary node top. */
  predicate Climbing(top: int, hb: nat, i: int, id: int, y: int) {
    1 <= i <= hb && OnLevel(id, i) && id == Up(top, hb - i) && OnPath(id, y)
  }

  /** update's loop over the levels moves one node up the path. */
  lemma {:induction false} PathTurn(top: int, hb: nat, i: int, id: int, y: int)
    requires 2 <= i <= hb && OnLevel(id, i) && id == Up(top, hb - i) && OnPath(id, y)
    ensures OnLevel(id / 2, i - 1) && id / 2 == Up(top, hb - (i - 1)) && OnPath(id / 2, y)
  {
    LevelHalf(id, i);
    PathUp(id, y);
  }

  /** One turn of update's loop over the levels: once the copies of id's
      level are written, the parent's hash from the sibling's old copy is
      the new hash of id's parent, and the loop's state holds one level up. */
  lemma {:induction false} HighTurn(H: Hasher, values: seq<string>, pos: int, v: string, height: nat, hb: nat,
                                    layout: Layout, top: int, selfs: seq<string>,
                                    s0: map<int, string>, c0: map<(int, int), string>,
                                    s1: map<int, string>, c1: map<(int, int), string>,
                                    i: int, id: int, key: string, lo: int, hi: int)
    requires hb <= height && 2 <= i <= hb && OnLevel(id, i) && id == Up(top, hb - i)
    requires OnPath(id, pos + NumLeaf(height))
    requires HighAt(H, values, pos, v, NumLeaf(height), hb, layout, top, selfs, s0, c0, i, id, key)
    requires lo == UpTo(SiblingId(id), Pow(2, hb)) && hi == UpToMax(SiblingId(id), Pow(2, hb))
    requires Shaped(layout, hb, s0) && |key| == 64 ==>
      Shaped(layout, hb, s1) && WroteCopies(layout, hb, lo, hi, i, key, s0, c0, s1, c1)
    ensures 0 <= hb - i < |selfs| && selfs[hb - i] == HashAt(H, values, NumLeaf(height), SiblingId(id))
    ensures HighAt(H, values, pos, v, NumLeaf(height), hb, layout, top, selfs, s1, c1, i - 1, id / 2,
                   Combine(H, id, key, selfs[hb - i]))
  {
    var N := NumLeaf(height);
    assert 2 <= id < N by {
      PowMonotone(2, i, hb);
      PowMonotone(2, hb, height);
      LevelHalf(id, i);
    }
    assert 0 <= hb - i < |selfs| && selfs[hb - i] == HashAt(H, values, N, SiblingId(id));
    assert Combine(H, id, key, selfs[hb - i]) == HashAt(H, values[pos := v], N, id / 2) by {
      LevelStepKey(H, values, N, pos, v, height, i, id, key);
    }
    assert CopiesAt(H, values, values[pos := v], N, hb, layout, s1, c1, i - 1) by {
      LevelStepCopies(H, values, N, pos, v, height, hb, layout, i, id, key, s0, c0, s1, c1);
    }
    LevelHalf(id, i);
    InnerHashSized(H, values[pos := v], N, id / 2);
  }

  /** The boundary level hb lies within the tree: its first node 2^hb is
      even, at least 2 and at most the first leaf. */
  lemma {:induction false} BoundaryFits(hb: nat, height: nat)
    requires 1 <= hb <= height
    ensures 2 <= Pow(2, hb) <= NumLeaf(height) && Pow(2, hb) % 2 == 0
    ensures Pow(2, hb) == 2 * Pow(2, hb - 1) && Pow(2, height + 1) == 2 * NumLeaf(height)
  {
    PowMonotone(2, 1, hb);
    PowMonotone(2, hb, height);
  }

  /** Records store and copies and the digest hold the tree of the given
      height over values: every record at or below level hb + 1 its node's
      hash, every boundary node its copies, and the digest the root's hash. */
  ghost predicate Holds(H: Hasher, values: seq<string>, height: nat, hb: nat, layout: Layout,
                        store: map<int, string>, copies: map<(int, int), string>, digest: string) {
    1 <= hb <= height && |values| == NumLeaf(height)
    && LowStored(H, values, NumLeaf(height), Pow(2, hb), store)
    && CopiesStored(H, values, NumLeaf(height), hb, layout, store, copies)
    && digest == HashAt(H, values, NumLeaf(height), 1)
  }

  /** The loop below the boundary from leaf pos + N, once v is written
      there, leaves the records below the boundary holding the tree over
      the new values and its key the hash of where it stops. */
  lemma {:induction false} FromLeafStored(H: Hasher, values: seq<string>, pos: int, v: string, N: int, B: int,
                                          s0: map<int, string>)
    requires B >= 2 && B % 2 == 0 && B <= N && |values| == N && 0 <= pos < N
    requires LowStored(H, values, N, B, s0)
    ensures LowStored(H, values[pos := v], N, B, FromLeaf(H, s0, B, pos + N, v).0)
    ensures FromLeaf(H, s0, B, pos + N, v).1 == HashAt(H, values[pos := v], N, FromLeaf(H, s0, B, pos + N, v).2)
  {
    ClimbStart(H, values, N, B, pos, v, s0);
    ClimbUpdates(H, values, pos, v, N, B, s0[pos + N := v], pos + N, v, "");
  }

  /** Update's loop below the boundary changes no record above it. */
  lemma {:induction false} LowKept(H: Hasher, pos: int, v: string, height: nat, hb: nat,
                                   s0: map<int, string>, key: string, top: int, low: map<int, string>)
    requires 1 <= hb <= height && 0 <= pos < NumLeaf(height)
    requires (low, key, top) == FromLeaf(H, s0, Pow(2, hb), pos + NumLeaf(height), v)
    ensures forall x :: x < Pow(2, hb) ==> Kept(s0, low, x)
  {
    var N := NumLeaf(height);
    var B := Pow(2, hb);
    var written := s0[pos + N := v];
    BoundaryFits(hb, height);
    ClimbKeeps(H, written, B, pos + N, v, "");
    forall x: int | x < B
      ensures Kept(s0, low, x)
    {
      assert Kept(s0, written, x) && Kept(written, low, x);
    }
  }

  /** Where update's loop over the levels starts: the copies, all kept from
      before, hold the old tree, and the selfs read at top are its old
      sibling hashes. */
  lemma {:induction false} HighStart(H: Hasher, values: seq<string>, pos: int, v: string, height: nat, hb: nat,
                                     layout: Layout, s0: map<int, string>, c0: map<(int, int), string>,
                                     key: string, top: int, low: map<int, string>, selfs: seq<string>)
    requires 1 <= hb <= height && 0 <= pos < NumLeaf(height) && |values| == NumLeaf(height)
    requires CopiesStored(H, values, NumLeaf(height), hb, layout, s0, c0)
    requires forall x :: x < Pow(2, hb) ==> Kept(s0, low, x)
    requires key == HashAt(H, values[pos := v], NumLeaf(height), top)
    requires OnLevel(top, hb) && selfs == Selfs(layout, low, c0, hb, top)
    ensures HighAt(H, values, pos, v, NumLeaf(height), hb, layout, top, selfs, low, c0, hb, top, key)
  {
    var N := NumLeaf(height);
    BoundaryFits(hb, height);
    assert Shaped(layout, hb, low) && CopiesAt(H, values, values[pos := v], N, hb, layout, low, c0, hb) by {
      StoredCopyAt(H, values, N, hb, layout, s0, c0);
      BoundaryKept(layout, hb, s0, low, c0);
    }
    assert |selfs| == hb - 1 && forall m :: 0 <= m < hb - 1 ==> selfs[m] == HashAt(H, values, N, SiblingId(Up(top, m))) by {
      assert Kept(s0, low, top);
      assert selfs == Selfs(layout, s0, c0, hb, top);
      SelfsStored(H, values, N, hb, layout, s0, c0, top);
    }
    InnerHashSized(H, values[pos := v], N, top);
  }

  /** update(pos, v) as a whole, on records holding the tree over values:
      the loop below the boundary, read_self at the boundary node top, and
      the loop over the levels, which then succeeds (ok) with digest d; the
      records now hold the tree over values with leaf pos set to v. */
  lemma {:induction false} UpdateStored(H: Hasher, values: seq<string>, pos: int, v: string, height: nat, hb: nat,
                                        layout: Layout, s0: map<int, string>, c0: map<(int, int), string>,
                                        d0: string, key: string, top: int, low: map<int, string>,
                                        selfs: seq<string>, ok: bool, store: map<int, string>,
                                        copies: map<(int, int), string>, d: string)
    requires 0 <= pos < NumLeaf(height) && Holds(H, values, height, hb, layout, s0, c0, d0)
    requires (low, key, top) == FromLeaf(H, s0, Pow(2, hb), pos + NumLeaf(height), v)
    requires OnLevel(top, hb) && selfs == Selfs(layout, low, c0, hb, top)
    requires forall x :: x >= Pow(2, hb) ==> Kept(low, store, x)
    requires HighAt(H, values, pos, v, NumLeaf(height), hb, layout, top, selfs, low, c0, hb, top, key)
      ==> (ok && HighAt(H, values, pos, v, NumLeaf(height), hb, layout, top, selfs, store, copies, 1, 1, d))
    ensures ok && Holds(H, values[pos := v], height, hb, layout, store, copies, d)
  {
    UpdateLow(H, values, pos, v, height, hb, layout, s0, c0, key, top, low, selfs);
    UpdateDone(H, values, pos, v, NumLeaf(height), hb, layout, top, selfs, low, store, copies, d);
  }

  /** update's loop below the boundary and read_self at the boundary node
      top, on records holding the tree over values: the records below the
      boundary hold the tree with leaf pos set to v, and the loop over the
      levels starts from top with its new hash. */
  lemma {:induction false} UpdateLow(H: Hasher, values: seq<string>, pos: int, v: string, height: nat, hb: nat,
                                     layout: Layout, s0: map<int, string>, c0: map<(int, int), string>,
                                     key: string, top: int, low: map<int, string>, selfs: seq<string>)
    requires 1 <= hb <= height && |values| == NumLeaf(height) && 0 <= pos < NumLeaf(height)
    requires LowStored(H, values, NumLeaf(height), Pow(2, hb), s0) && CopiesStored(H, values, NumLeaf(height), hb, layout, s0, c0)
    requires (low, key, top) == FromLeaf(H, s0, Pow(2, hb), pos + NumLeaf(height), v)
    requires OnLevel(top, hb) && selfs == Selfs(layout, low, c0, hb, top)
    ensures LowStored(H, values[pos := v], NumLeaf(height), Pow(2, hb), low)
    ensures HighAt(H, values, pos, v, NumLeaf(height), hb, layout, top, selfs, low, c0, hb, top, key)
  {
    FromLeafKept(H, values, pos, v, height, hb, s0, key, top, low);
    LowKept(H, pos, v, height, hb, s0, key, top, low);
    HighStart(H, values, pos, v, height, hb, layout, s0, c0, key, top, low, selfs);
  }

  /** update's loop below the boundary, on records below the boundary
      holding the tree over values: they then hold the tree with leaf pos
      set to v, and the key is the new hash of top, where the loop stops. */
  lemma {:induction false} FromLeafKept(H: Hasher, values: seq<string>, pos: int, v: string, height: nat, hb: nat,
                                        s0: map<int, string>, key: string, top: int, low: map<int, string>)
    requires 1 <= hb <= height && |values| == NumLeaf(height) && 0 <= pos < NumLeaf(height)
    requires LowStored(H, values, NumLeaf(height), Pow(2, hb), s0)
    requires (low, key, top) == FromLeaf(H, s0, Pow(2, hb), pos + NumLeaf(height), v)
    ensures LowStored(H, values[pos := v], NumLeaf(height), Pow(2, hb), low)
    ensures key == HashAt(H, values[pos := v], NumLeaf(height), top)
  {
    var N := NumLeaf(height);
    var B := Pow(2, hb);
    BoundaryFits(hb, height);
    FromLeafStored(H, values, pos, v, N, B, s0);
    var r := FromLeaf(H, s0, B, pos + N, v);
    assert low == r.0 && key == r.1 && top == r.2;
  }

  /** Once update has rewritten every level's copies, the copies hold the
      new tree, and the low records it wrote before are kept. */
  lemma {:induction false} UpdateDone(H: Hasher, values: seq<string>, pos: int, v: string, N: int, hb: nat,
                                      layout: Layout, top: int, selfs: seq<string>, low: map<int, string>,
                                      store: map<int, string>, copies: map<(int, int), string>, key: string)
    requires hb >= 1 && HighAt(H, values, pos, v, N, hb, layout, top, selfs, store, copies, 1, 1, key)
    requires LowStored(H, values[pos := v], N, Pow(2, hb), low)
    requires forall x :: x >= Pow(2, hb) ==> Kept(low, store, x)
    ensures key == HashAt(H, values[pos := v], N, 1)
    ensures LowStored(H, values[pos := v], N, Pow(2, hb), store)
    ensures CopiesStored(H, values[pos := v], N, hb, layout, store, copies)
  {
    var next := values[pos := v];
    CopyAtStored(H, next, N, hb, layout, store, copies);
    forall x | Pow(2, hb) <= x < 2 * N
      ensures x in store && store[x] == HashAt(H, next, N, x)
    {
      assert Kept(low, store, x);
    }
  }

  /** A hash above the leaves is 64 characters. */
  lemma {:induction false} InnerHashSized(H: Hasher, values: seq<string>, N: int, x: int)
    requires |values| == N && 1 <= x < N
    ensures |HashAt(H, values, N, x)| == 64
  {
  }

  /** Update's turn at level i: the copies of id's level now hold id's new
      hash wherever they are id's, and every copy of level i that is not
      id's is off the path and so unchanged by the update. */
  lemma {:induction false} LevelStepCopies(H: Hasher, values: seq<string>, N: int, pos: int, v: string, height: nat,
                                           hb: nat, layout: Layout, i: int, id: int, key: string,
                                           s0: map<int, string>, c0: map<(int, int), string>,
                                           s1: map<int, string>, c1: map<(int, int), string>)
    requires N == NumLeaf(height) && |values| == N && 0 <= pos < N && hb <= height
    requires 2 <= i <= hb && OnLevel(id, i) && OnPath(id, pos + N)
    requires key == HashAt(H, values[pos := v], N, id)
    requires CopiesAt(H, values, values[pos := v], N, hb, layout, s0, c0, i)
    requires WroteCopies(layout, hb, UpTo(SiblingId(id), Pow(2, hb)), UpToMax(SiblingId(id), Pow(2, hb)),
                         i, key, s0, c0, s1, c1)
    ensures CopiesAt(H, values, values[pos := v], N, hb, layout, s1, c1, i - 1)
  {
    var next := values[pos := v];

    forall j, l | OnLevel(j, hb) && 2 <= l <= hb
      ensures CopyAt(layout, hb, s1, c1, j, l) == Some(HashAt(H, if l > i - 1 then next else values, N, SiblingId(Up(j, hb - l))))
    {
      var w := SiblingId(Up(j, hb - l));
      var inRange := UpTo(SiblingId(id), Pow(2, hb)) <= j <= UpToMax(SiblingId(id), Pow(2, hb));
      assert CopyAt(layout, hb, s0, c0, j, l) == Some(HashAt(H, if l > i then next else values, N, w));
      if l == i {
        assert inRange <==> w == id by {
          CopyRange(id, i, hb, j);
        }
        if !inRange {
          CopyOffPath(H, values, N, pos, v, height, hb, i, id, j);
        }
      }
    }
  }

  /** Leaf pos + num_leaf lies on level height + 1. */
  lemma {:induction false} LeafLevel(height: nat, pos: int)
    requires 0 <= pos < NumLeaf(height)
    ensures OnLevel(pos + NumLeaf(height), height + 1)
  {
    assert Pow(2, height + 1) == 2 * NumLeaf(height);
  }

  /** A copy of level i that is not of the path's node id there is of a
      node off the path, whose hash update leaves as it was. */
  lemma {:induction false} CopyOffPath(H: Hasher, values: seq<string>, N: int, pos: int, v: string, height: nat,
                                       hb: nat, i: int, id: int, j: int)
    requires N == NumLeaf(height) && |values| == N && 0 <= pos < N && hb <= height
    requires 2 <= i <= hb && OnLevel(id, i) && OnPath(id, pos + N)
    requires OnLevel(j, hb) && SiblingId(Up(j, hb - i)) != id
    ensures HashAt(H, values[pos := v], N, SiblingId(Up(j, hb - i))) == HashAt(H, values, N, SiblingId(Up(j, hb - i)))
  {
    var w := SiblingId(Up(j, hb - i));
    CopyNodeLevel(j, hb, i);
    PowMonotone(2, hb, height);
    LeafLevel(height, pos);
    OffPath(w, id, pos + N, i, height + 1);
    HashOffPath(H, values, N, pos, v, w);
  }

  /** ... and the copy read for id's sibling, which is off the path, takes
      the key to the parent's new hash. */
  lemma {:induction false} LevelStepKey(H: Hasher, values: seq<string>, N: int, pos: int, v: string, height: nat,
                                        i: int, id: int, key: string)
    requires N == NumLeaf(height) && |values| == N && 0 <= pos < N
    requires 2 <= i && OnLevel(id, i) && OnPath(id, pos + N) && id < N
    requires key == HashAt(H, values[pos := v], N, id)
    ensures Combine(H, id, key, HashAt(H, values, N, SiblingId(id))) == HashAt(H, values[pos := v], N, id / 2)
  {
    var sib := SiblingId(id);
    assert 2 <= id < 2 * N by {
      assert OnLevel(id, i);
    }
    assert !OnPath(sib, pos + N) && 1 <= sib < 2 * N by {
      LeafLevel(height, pos);
      SiblingOffPath(id, i, pos + N, height + 1);
    }
    assert HashAt(H, values[pos := v], N, sib) == HashAt(H, values, N, sib) by {
      HashOffPath(H, values, N, pos, v, sib);
    }
    SiblingCombines(H, values[pos := v], N, id);
  }

  // ---------------------------------------------------------------------
  // The tree

  class DupTree {
    const H: Hasher
    const layout: Layout
    const height: nat
    const hb: nat
    /** The records under itos(id), by id. */
    var store: map<int, string>
    /** DupTreeSimple's records under itos(id)-itos(level), by (id, level). */
    var copies: map<(int, int), string>
    var digest: string
    /** The record under "1", where init keeps the digest: a key apart from
        every itos(id), which has ten leading '0's. */
    var rootRecord: string

    /** num_leaf = 2^height and boundary = 2^height_boundary. */
    constructor (H: Hasher, layout: Layout, height: nat, hb: nat)
      ensures this.H == H && this.layout == layout && this.height == height && this.hb == hb
      ensures store == map[] && copies == map[] && digest == "" && rootRecord == ""
    {
      this.H := H;
      this.layout := layout;
      this.height := height;
      this.hb := hb;
      store := map[];
      copies := map[];
      digest := "";
      rootRecord := "";
    }

    /** The records hold the tree over `values`: every record at or below
        level hb + 1 its node's hash, every boundary node its copies, and
        the digest the root's hash. */
    ghost predicate Stored(values: seq<string>)
      reads this
    {
      Holds(H, values, height, hb, layout, store, copies, digest)
    }

    /** modify_id_level(j, level, key): DupTreeSimple writes the copy under
        (j, level); DupTreeBlock rewrites j's record (Modify), and fails as
        std::string::replace throws when the slot starts past its end. */
    method ModifyIdLevel(j: int, level: int, key: string) returns (ok: bool)
      requires 2 <= level <= hb
      modifies this`store, this`copies
      ensures layout.Simple? ==> ok && store == old(store) && copies == old(copies)[(j, level) := key]
      ensures layout.Block? ==> (copies == old(copies)
        && ok == Modify(hb, level, ReadOr(old(store), j, ""), key).Some?
        && store == (if ok then old(store)[j := Modify(hb, level, ReadOr(old(store), j, ""), key).value] else old(store)))
    {
      if layout == Simple {
        copies := copies[(j, level) := key];
        return true;
      }
      var rec := Modify(hb, level, ReadOr(store, j, ""), key);
      if rec.None? {
        return false;
      }
      store := store[j := rec.value];
      return true;
    }

    /** The loop of gen_node and update writing key as the copy of level on
        the boundary nodes lo .. hi. */
    method ModifyRange(lo: int, hi: int, level: int, key: string) returns (ok: bool)
      requires 2 <= level <= hb && Pow(2, hb - 1) <= lo <= hi < Pow(2, hb)
      modifies this`store, this`copies
      ensures forall x :: x >= Pow(2, hb) ==> Kept(old(store), store, x)
      ensures Shaped(layout, hb, old(store)) && |key| == 64 ==>
        ok && Shaped(layout, hb, store) && WroteCopies(layout, hb, lo, hi, level, key, old(store), old(copies), store, copies)
    {
      ghost var good := Shaped(layout, hb, store) && |key| == 64;
      var j := lo;
      while j <= hi
        invariant lo <= j <= hi + 1
        invariant forall x :: x >= Pow(2, hb) ==> Kept(old(store), store, x)
        invariant good ==> (Shaped(layout, hb, store)
          && WroteCopies(layout, hb, lo, j - 1, level, key, old(store), old(copies), store, copies))
        decreases hi - j
      {
        ghost var s1, c1 := store, copies;
        if good && layout.Block? {
          ModifyPlacesCopy(hb, level, ReadOr(store, j, ""), key);
        }
        var done := ModifyIdLevel(j, level, key);
        if !done {
          return false;
        }
        if good {
          ModifyOne(layout, hb, j, level, key, s1, c1, store, copies);
          WroteNext(layout, hb, lo, j, level, key, old(store), old(copies), s1, c1, store, copies);
        }
        KeptAbove(old(store), s1, store, Pow(2, hb));
        j := j + 1;
      }
      return true;
    }

    /** gen_node(id, level, values): a leaf's record is its value; a parent
        is built after both children, then its hash is written under id when
        id >= B, and otherwise, the root excepted, as the copy of its level
        on the boundary nodes below its sibling. */
    method GenNode(id: int, level: int, values: seq<string>) returns (r: Result<Nodes.Node>)
      requires 1 <= hb <= height && |values| == NumLeaf(height)
      requires 1 <= id < 2 * NumLeaf(height) && OnLevel(id, level)
      modifies this`store, this`copies
      ensures r.Ok? ==> r.value.GetHashVal() == HashAt(H, values, NumLeaf(height), id)
      ensures Shaped(layout, hb, old(store)) ==> r.Ok? && Shaped(layout, hb, store)
      ensures Shaped(layout, hb, old(store)) ==>
        LowBuilt(H, values, NumLeaf(height), Pow(2, hb), id, old(store), store)
      ensures Shaped(layout, hb, old(store)) ==>
        CopiesBuilt(H, values, NumLeaf(height), hb, layout, id, old(store), old(copies), store, copies)
      decreases 2 * NumLeaf(height) - id
    {
      var N := NumLeaf(height);
      var B := Pow(2, hb);
      PowMonotone(2, hb, height);
      if id >= N {
        var leaf := Nodes.Leaf(values[id - N]);
        LeafBuilt(H, values, N, hb, layout, id, store, copies);
        store := store[id := leaf.ToString()];
        return Ok(leaf);
      }
      ghost var s0, c0 := store, copies;
      LevelChildren(id, level);
      var left := GenNode(2 * id, level + 1, values);
      if left.Err? {
        return Err(left.error);
      }
      ghost var s1, c1 := store, copies;
      var right := GenNode(2 * id + 1, level + 1, values);
      if right.Err? {
        return Err(right.error);
      }
      ghost var s2, c2 := store, copies;
      var node := Nodes.Parent(H, left.value, right.value);
      assert node.GetHashVal() == HashAt(H, values, N, id) && |node.GetHashVal()| == 64 by {
        InnerHashSized(H, values, N, id);
      }
      var ok := WriteOwn(id, level, node);
      if !ok {
        return Err(OutOfRange);
      }
      if Shaped(layout, hb, s0) {
        assert Shaped(layout, hb, s1) && Shaped(layout, hb, s2);
        ParentLowBuilt(H, values, N, B, id, s0, s1, s2, store);
        ParentCopiesBuilt(H, values, N, hb, layout, id, s0, c0, s1, c1, s2, c2, store, copies);
      }
      return Ok(node);
    }

    /** The part of gen_node(id) after both children: the node's record
        when id >= B, else, the root excepted, its copies on the boundary
        nodes below its sibling. */
    method WriteOwn(id: int, level: int, node: Nodes.Node) returns (ok: bool)
      requires 1 <= hb && 1 <= id && OnLevel(id, level)
      modifies this`store, this`copies
      ensures Shaped(layout, hb, old(store)) && |node.GetHashVal()| == 64 ==>
        (ok && Shaped(layout, hb, store)
         && OwnWrite(hb, layout, Pow(2, hb), id, node.GetHashVal(), old(store), old(copies), store, copies))
    {
      var B := Pow(2, hb);
      if id >= B {
        store := store[id := node.ToString()];
        OwnWriteNoCopies(hb, layout, id, node.GetHashVal(), old(store), old(copies), store, copies);
      } else if id != 1 {
        var sibling := id / 2 * 4 + 1 - id;
        LevelAboveBoundary(id, level, hb);
        RangeOnBoundary(id, level, hb);
        var lo := UpTo(sibling, B);
        var hi := UpToMax(sibling, B);
        ok := ModifyRange(lo, hi, level, node.GetHashVal());
        if !ok {
          return false;
        }
        if Shaped(layout, hb, old(store)) && |node.GetHashVal()| == 64 {
          OwnWriteCopies(hb, layout, id, level, node.GetHashVal(), old(store), old(copies), store, copies);
        }
      } else {
        OwnWriteNoCopies(hb, layout, id, node.GetHashVal(), old(store), old(copies), store, copies);
      }
      return true;
    }

    /** init: opening empties the store; with create_db, gen_node(1, 1)
        writes every record, the digest is the root's hash and is written
        under "1". Without create_db the digest is read
        from "1", which the emptied store does not hold, so it keeps its
        value. */
    method Init(values: seq<string>, dbOpened: bool, createDb: bool) returns (r: Result<bool>)
      requires createDb ==> 1 <= hb <= height && |values| == NumLeaf(height)
      modifies this`store, this`copies, this`digest, this`rootRecord
      ensures !dbOpened ==> r == Ok(false)
      ensures dbOpened && !createDb ==>
        r == Ok(true) && store == map[] && copies == map[] && rootRecord == "" && digest == old(digest)
      ensures dbOpened && createDb ==>
        r == Ok(true) && digest == HashAt(H, values, NumLeaf(height), 1) && rootRecord == digest && Stored(values)
    {
      store := map[];
      copies := map[];
      rootRecord := "";
      if !dbOpened {
        return Ok(false);
      }
      if createDb {
        ghost var s0, c0 := store, copies;
        var root := GenNode(1, 1, values);
        // An emptied store holds no record too short for a copy, so
        // gen_node does not throw.
        assert root.Ok?;
        digest := root.value.GetHashVal();
        BuiltStored(H, values, NumLeaf(height), hb, layout, s0, c0, store, copies);
        rootRecord := digest;
      }
      return Ok(true);
    }

    /** read_self(id): DupTreeSimple reads the copies of levels hb .. 2 one
        by one, DupTreeBlock cuts id's record into 64-character pieces. */
    method ReadSelf(id: int) returns (selfs: seq<string>)
      ensures selfs == Selfs(layout, store, copies, hb, id)
    {
      selfs := [];
      if layout == Simple {
        var s := "";
        var i := hb as int;
        while i > 1
          invariant selfs + SelfsSimple(copies, id, i, s) == SelfsSimple(copies, id, hb, "")
          decreases i
        {
          s := ReadOr(copies, (id, i), s);
          selfs := selfs + [s];
          i := i - 1;
        }
        assert selfs + [] == selfs;
      } else {
        var rec := ReadOr(store, id, "");
        var i := 0;
        while i < |rec|
          invariant 0 <= i && selfs + Pieces(rec[Min(i, |rec|)..]) == Pieces(rec)
          decreases |rec| - i
        {
          PiecesStep(rec, i);
          selfs := selfs + [rec[i .. Min(i + 64, |rec|)]];
          i := i + 64;
        }
        assert rec[|rec|..] == [];
      }
    }

    /** The first half of update(pos, value): the leaf's record, then the
        records of its ancestors down to the boundary, each folding in its
        sibling's record; the loop stops at the boundary node above pos. */
    method WriteLow(pos: int, value: string, ghost values: seq<string>) returns (key: string, id: int)
      requires 1 <= hb <= height && 0 <= pos < NumLeaf(height)
      modifies this`store
      ensures OnLevel(id, hb) && OnPath(id, pos + NumLeaf(height))
      ensures (store, key, id) == FromLeaf(H, old(store), Pow(2, hb), pos + NumLeaf(height), value)
    {
      var N := NumLeaf(height);
      var B := Pow(2, hb);
      BoundaryFits(hb, height);
      key := value;
      store := store[pos + N := key];
      var s := "";
      id := pos + N;
      ghost var climb := Climb(H, store, B, id, key, s);
      while id >= B
        invariant B / 2 <= id < 2 * N && OnPath(id, pos + N)
        invariant Climb(H, store, B, id, key, s) == climb
        decreases id
      {
        PathUp(id, pos + N);
        s := ReadOr(store, SiblingId(id), s);
        if id % 2 == 0 {
          key := Hash(H, key + s);
        } else {
          s := s + key;
          key := Hash(H, s);
        }
        if id / 2 >= B {
          store := store[id / 2 := key];
        }
        id := id / 2;
      }
    }

    /** update(pos, value): the leaf's record, the records above it up to
        the boundary, then on each level from hb to 2 the copies of the
        path's node on the boundary nodes that keep it, folding in the
        sibling copies read_self gave; the digest is the last hash. A
        DupTreeBlock record too short for a copy fails as replace throws,
        and one too short for read_self as a bad record. */
    method Update(pos: int, value: string, ghost values: seq<string>) returns (r: Result<()>)
      requires 1 <= hb <= height && 0 <= pos < NumLeaf(height)
      modifies this`store, this`copies, this`digest
      ensures old(Stored(values)) ==> r == Ok(()) && Stored(values[pos := value])
    {
      var N := NumLeaf(height);
      ghost var good := Stored(values);
      ghost var s0, c0, d0 := store, copies, digest;
      var key, id := WriteLow(pos, value, values);
      ghost var low := store;
      var top := id;
      var selfs := ReadSelf(top);
      var high := WriteHigh(top, key, selfs, pos, value, values);
      if good {
        UpdateStored(H, values, pos, value, height, hb, layout, s0, c0, d0, key, top, low, selfs,
                     high.Ok?, store, copies, if high.Ok? then high.value else "");
      }
      if high.Err? {
        return Err(high.error);
      }
      digest := high.value;
      return Ok(());
    }

    /** The second half of update(pos, value), from the boundary node top
        on the path: on each level i from hb to 2 the copies of the path's
        node on the boundary nodes that keep them, then the parent's hash
        from the sibling's copy read_self gave; the result is the root's
        hash. */
    method WriteHigh(top: int, key0: string, selfs: seq<string>, ghost pos: int, ghost value: string,
                     ghost values: seq<string>) returns (r: Result<string>)
      requires 1 <= hb <= height && 0 <= pos < NumLeaf(height)
      requires OnLevel(top, hb) && OnPath(top, pos + NumLeaf(height))
      modifies this`store, this`copies
      ensures forall x :: x >= Pow(2, hb) ==> Kept(old(store), store, x)
      ensures HighAt(H, values, pos, value, NumLeaf(height), hb, layout, top, selfs, old(store), old(copies), hb, top, key0)
        ==> (r.Ok? && HighAt(H, values, pos, value, NumLeaf(height), hb, layout, top, selfs, store, copies, 1, 1, r.value))
    {
      var N := NumLeaf(height);
      var B := Pow(2, hb);
      ghost var good := HighAt(H, values, pos, value, NumLeaf(height), hb, layout, top, selfs, store, copies, hb, top, key0);
      var key := key0;
      var id := top;
      var i := hb as int;
      while i > 1
        invariant Climbing(top, hb, i, id, pos + N)
        invariant forall x :: x >= B ==> Kept(old(store), store, x)
        invariant good ==> HighAt(H, values, pos, value, NumLeaf(height), hb, layout, top, selfs, store, copies, i, id, key)
        decreases i
      {
        ghost var s0 := store;
        var turn := WriteLevel(i, id, key, selfs, top, pos, value, values);
        KeptAbove(old(store), s0, store, B);
        if turn.Err? {
          return Err(turn.error);
        }
        key := turn.value;
        PathTurn(top, hb, i, id, pos + N);
        id := id / 2;
        i := i - 1;
      }
      assert i == 1 && id == 1 by {
        assert Pow(2, 1) == 2 * Pow(2, 0);
      }
      return Ok(key);
    }

    /** One turn of update's loop over the levels, at level i with id the
        path's node there: the copies of id on the boundary nodes below
        its sibling, then the parent's hash from the sibling's copy
        read_self gave. */
    method WriteLevel(i: int, id: int, key: string, selfs: seq<string>, ghost top: int, ghost pos: int,
                      ghost value: string, ghost values: seq<string>) returns (r: Result<string>)
      requires 2 <= i <= hb <= height && OnLevel(id, i) && id == Up(top, hb - i)
      requires OnPath(id, pos + NumLeaf(height))
      modifies this`store, this`copies
      ensures forall x :: x >= Pow(2, hb) ==> Kept(old(store), store, x)
      ensures HighAt(H, values, pos, value, NumLeaf(height), hb, layout, top, selfs, old(store), old(copies), i, id, key)
        ==> (r.Ok? && HighAt(H, values, pos, value, NumLeaf(height), hb, layout, top, selfs, store, copies, i - 1, id / 2,
                             r.value))
    {
      var B := Pow(2, hb);
      ghost var good := HighAt(H, values, pos, value, NumLeaf(height), hb, layout, top, selfs, store, copies, i, id, key);
      var sibling := SiblingId(id);
      RangeOnBoundary(id, i, hb);
      var lo := UpTo(sibling, B);
      var hi := UpToMax(sibling, B);
      var ok := ModifyRange(lo, hi, i, key);
      if !ok {
        return Err(OutOfRange);
      }
      if hb - i >= |selfs| {
        return Err(BadRecord);
      }
      if good {
        HighTurn(H, values, pos, value, height, hb, layout, top, selfs, old(store), old(copies), store, copies,
                 i, id, key, lo, hi);
      }
      var s := selfs[hb - i];
      var up;
      if id % 2 == 0 {
        up := Hash(H, key + s);
      } else {
        s := s + key;
        up := Hash(H, s);
      }
      return Ok(up);
    }

    /** gen_proof(pos): the low loop from leaf pos + num_leaf, then
        get_high where it stopped. While the records hold the tree over
        values, the proof verifies with the leaf's value against the
        digest. */
    method GenProof(pos: int, ghost values: seq<string>) returns (output: string)
      ensures output == DupProof(layout, store, copies, Pow(2, hb), hb, pos + NumLeaf(height))
      ensures Stored(values) && ValuesSized(values) && 0 <= pos < NumLeaf(height) ==>
        VerifyFold(H, pos + NumLeaf(height), 0, values[pos], output) == Ok(digest)
    {
      var low, top := LowLoop(store, Pow(2, hb), pos + NumLeaf(height));
      var high := GetHigh(layout, store, copies, hb, top);
      output := low + high;
      if Stored(values) && ValuesSized(values) && 0 <= pos < NumLeaf(height) {
        StoredProofVerifies(pos, values);
      }
    }

    /** While the records hold the tree over values, gen_proof's output for
        a leaf verifies with its value against the digest. */
    lemma StoredProofVerifies(pos: int, values: seq<string>)
      requires Stored(values) && ValuesSized(values) && 0 <= pos < NumLeaf(height)
      ensures VerifyFold(H, pos + NumLeaf(height), 0, values[pos],
                         DupProof(layout, store, copies, Pow(2, hb), hb, pos + NumLeaf(height))) == Ok(digest)
    {
      DupProofVerifies(H, values, height, hb, layout, store, copies, pos, NumLeaf(height));
    }
  }
}
