// FatMint (fattree.hpp): the 16-ary tree over sequential indices. The
// first update of a key hands it the next index, int_to_hex(num_leaf,
// height), kept in the store under "?" + key; the index's hex digits,
// least significant first, then lead from the root "*" through the
// branches stored under hex[..1], hex[..2], ... The walk stops at the
// first depth where no other index below num_leaf shares the digits read
// so far, so a branch exists only where two indices meet. A branch holds
// its children's hashes one after another, and nothing else.
module FatMints {
  import opened Results
  import opened Tools
  import opened IO
  import opened Proof16
  import RatTree

  /** NodeFatMint: a leaf holds a value; a branch holds its children's
      hashes, "" for an empty slot. */
  datatype Node = Node(key: string, value: string, hashes: seq<string>, isRoot: bool, isLeaf: bool)

  const RootKey: string := "*"

  /** Where update keeps the index handed to a key. */
  function IndexKey(spos: string): string {
    "?" + spos
  }

  function NewLeaf(key: string, value: string): Node {
    Node(key, value, [], false, true)
  }

  function NewBranch(key: string, hashes: seq<string>): Node {
    Node(key, "", hashes, false, false)
  }

  function Blanks(n: nat): (hs: seq<string>)
    ensures |hs| == n && forall i :: 0 <= i < n ==> hs[i] == ""
  {
    if n == 0 then [] else [""] + Blanks(n - 1)
  }

  // ---------------------------------------------------------------------
  // Records

  /** The pieces the NodeFatMint constructor cuts a record into: 64
      characters each, the last one possibly shorter. */
  function Chunks(v: string): (cs: seq<string>)
    ensures Concat(cs) == v
    ensures forall i :: 0 <= i < |cs| ==> 0 < |cs[i]| <= 64
    ensures forall i :: 0 <= i < |cs| - 1 ==> |cs[i]| == 64
    decreases |v|
  {
    if v == [] then []
    else if |v| <= 64 then (ConcatCons(v, []); [v])
    else (ConcatCons(v[..64], Chunks(v[64..])); [v[..64]] + Chunks(v[64..]))
  }

  lemma {:induction false} ConcatCons(a: string, rest: seq<string>)
    ensures Concat([a] + rest) == a + Concat(rest)
  {
    assert ([a] + rest)[1..] == rest;
  }

  /** Empty slots appended until there are sixteen. */
  function PadSlots(hs: seq<string>): seq<string> {
    if |hs| < 16 then hs + Blanks(16 - |hs|) else hs
  }

  /** The NodeFatMint constructor reading a record: '!' starts a leaf;
      anything else, the missing record and "" included, is a branch. */
  function Parse(key: string, v: string): (n: Node)
    ensures n.key == key && n.isRoot == (key == RootKey)
    ensures !n.isLeaf ==> |n.hashes| >= 16 && n.value == ""
    ensures |v| > 0 && v[0] == '!' <==> n.isLeaf
  {
    if |v| > 0 && v[0] == '!' then Node(key, v[1..], [], key == RootKey, true)
    else Node(key, "", PadSlots(Chunks(v)), key == RootKey, false)
  }

  /** The node read under key, a missing record reading as "". */
  function Read(store: map<string, string>, key: string): Node {
    Parse(key, ReadOr(store, key, ""))
  }

  /** The sixteen slots to_string and computeHash go through. Every branch
      has at least sixteen; with fewer the source reads past the vector. */
  function Sixteen(hs: seq<string>): seq<string> {
    if |hs| >= 16 then hs[..16] else hs
  }

  /** to_string. */
  function ToString(n: Node): string {
    if n.isLeaf then "!" + n.value else Concat(Sixteen(n.hashes))
  }

  /** computeHash: a leaf hashes its value, a branch its record. */
  function NodeHash(H: Hasher, n: Node): string {
    if n.isLeaf then Hash(H, n.value) else Hash(H, Concat(Sixteen(n.hashes)))
  }

  /** A branch record as update writes it: at most sixteen digests one
      after another. */
  predicate BranchRecord(v: string) {
    |v| % 64 == 0 && |v| <= 1024 && forall i :: 0 <= i < |v| ==> IsLowerHexChar(v[i])
  }

  /** Sixteen slots, each empty or a digest. */
  predicate DigestSlots(hs: seq<string>) {
    |hs| == 16 && forall i :: 0 <= i < 16 ==> hs[i] == "" || IsDigest(hs[i])
  }

  /** The non-empty slots come first: every slot from the first empty one
      on is empty. */
  predicate Packed(hs: seq<string>) {
    forall i :: Lead(hs) <= i < |hs| ==> hs[i] == ""
  }

  /** How many slots are filled before the first empty one. */
  function Lead(hs: seq<string>): (c: nat)
    ensures c <= |hs|
    ensures forall i :: 0 <= i < c ==> hs[i] != ""
    ensures c < |hs| ==> hs[c] == ""
  {
    if hs == [] || hs[0] == "" then 0 else 1 + Lead(hs[1..])
  }

  lemma {:induction false} LeadIs(hs: seq<string>, c: nat)
    requires c <= |hs| && (forall i :: 0 <= i < c ==> hs[i] != "") && (c < |hs| ==> hs[c] == "")
    ensures Lead(hs) == c
  {
  }

  /** A record update writes cuts back into its digests. */
  lemma {:induction false} ChunksOfRecord(v: string)
    requires BranchRecord(v)
    ensures |Chunks(v)| == |v| / 64
    ensures forall i :: 0 <= i < |Chunks(v)| ==> IsDigest(Chunks(v)[i])
    decreases |v|
  {
    if v != [] {
      assert IsDigest(v[..64]) by {
        forall i | 0 <= i < 64 ensures IsLowerHexChar(v[..64][i]) {
          assert v[..64][i] == v[i];
        }
      }
      if |v| > 64 {
        var rest := v[64..];
        assert BranchRecord(rest) by {
          forall i | 0 <= i < |rest| ensures IsLowerHexChar(rest[i]) {
            assert rest[i] == v[i + 64];
          }
        }
        ChunksOfRecord(rest);
        assert Chunks(v) == [v[..64]] + Chunks(rest);
      }
    }
  }

  /** Reading a record update writes gives a packed branch of digests,
      filled as far as the record has digests. */
  lemma {:induction false} ReadRecord(key: string, v: string)
    requires BranchRecord(v)
    ensures var n := Parse(key, v);
      !n.isLeaf && DigestSlots(n.hashes) && Packed(n.hashes) && Lead(n.hashes) == |v| / 64
  {
    if |v| > 0 {
      assert IsLowerHexChar(v[0]);
    }
    ChunksOfRecord(v);
    var cs := Chunks(v);
    var hs := Parse(key, v).hashes;
    assert hs == cs + Blanks(16 - |cs|);
    assert forall i :: 0 <= i < |cs| ==> hs[i] == cs[i];
    assert forall i :: |cs| <= i < 16 ==> hs[i] == "";
    LeadIs(hs, |cs|);
  }

  /** The concatenation of digests and empty slots is a record of digests,
      64 characters for each filled slot before the first empty one when
      the slots are packed. */
  lemma {:induction false} ConcatSlots(hs: seq<string>)
    requires forall i :: 0 <= i < |hs| ==> hs[i] == "" || IsDigest(hs[i])
    ensures |Concat(hs)| % 64 == 0 && |Concat(hs)| <= 64 * |hs|
    ensures forall i :: 0 <= i < |Concat(hs)| ==> IsLowerHexChar(Concat(hs)[i])
    ensures Packed(hs) ==> |Concat(hs)| == 64 * Lead(hs)
  {
    if hs != [] {
      var tail := hs[1..];
      ConcatSlots(tail);
      var a := hs[0];
      var b := Concat(tail);
      assert Concat(hs) == a + b;
      forall i | 0 <= i < |a + b| ensures IsLowerHexChar((a + b)[i]) {
        if i < |a| {
          assert (a + b)[i] == a[i];
        } else {
          assert (a + b)[i] == b[i - |a|];
        }
      }
      if Packed(hs) {
        assert Packed(tail);
        if a == "" {
          assert forall i :: 0 <= i < |tail| ==> tail[i] == hs[i + 1];
          assert Lead(tail) == 0;
        }
      }
    }
  }

  /** What update writes for a branch of digests is a record it can read. */
  lemma {:induction false} PrintedRecord(n: Node)
    requires !n.isLeaf && DigestSlots(n.hashes)
    ensures BranchRecord(ToString(n))
    ensures Packed(n.hashes) ==> |ToString(n)| == 64 * Lead(n.hashes)
  {
    assert Sixteen(n.hashes) == n.hashes;
    ConcatSlots(n.hashes);
  }

  /** Digests and then empty slots cut back into the digests. */
  lemma {:induction false} ChunksOfPacked(hs: seq<string>)
    requires Packed(hs) && forall i :: 0 <= i < |hs| ==> hs[i] == "" || IsDigest(hs[i])
    ensures Chunks(Concat(hs)) == hs[..Lead(hs)]
  {
    if hs != [] {
      var tail := hs[1..];
      if hs[0] == "" {
        ConcatSlots(hs);
      } else {
        PackedTail(hs);
        assert forall i :: 0 <= i < |tail| ==> tail[i] == hs[i + 1];
        ChunksOfPacked(tail);
        assert Concat(hs) == hs[0] + Concat(tail);
        ChunksCons(hs[0], Concat(tail));
      }
    }
  }

  /** Past a filled first slot, the rest of packed slots is packed. */
  lemma {:induction false} PackedTail(hs: seq<string>)
    requires Packed(hs) && hs != [] && hs[0] != ""
    ensures Packed(hs[1..]) && hs[..Lead(hs)] == [hs[0]] + hs[1..][..Lead(hs[1..])]
  {
    var tail := hs[1..];
    forall i | Lead(tail) <= i < |tail|
      ensures tail[i] == ""
    {
      assert tail[i] == hs[i + 1];
    }
  }

  /** Cutting a digest followed by more text gives the digest first. */
  lemma {:induction false} ChunksCons(a: string, b: string)
    requires |a| == 64
    ensures Chunks(a + b) == [a] + Chunks(b)
  {
    if b == "" {
      assert a + b == a;
    } else {
      assert (a + b)[..64] == a && (a + b)[64..] == b;
    }
  }

  /** The round trip of NodeFatMint: reading what to_string writes gives
      the node back, for a leaf, and for a branch of digests whose filled
      slots come first. A branch with an empty slot before a filled one
      does not come back: its hashes move forward (GapMoves). */
  lemma {:induction false} ParsePrinted(n: Node)
    requires n.isRoot == (n.key == RootKey)
    requires n.isLeaf ==> n.hashes == []
    requires !n.isLeaf ==> n.value == "" && DigestSlots(n.hashes) && Packed(n.hashes)
    ensures Parse(n.key, ToString(n)) == n
  {
    if !n.isLeaf {
      var hs := n.hashes;
      assert Sixteen(hs) == hs;
      var v := Concat(hs);
      ChunksOfPacked(hs);
      ConcatSlots(hs);
      if |v| > 0 {
        assert IsLowerHexChar(v[0]);
      }
      PadLead(hs);
      assert Parse(n.key, v) == Node(n.key, "", hs, n.key == RootKey, false);
    }
  }

  /** Sixteen packed slots are their filled ones padded back out. */
  lemma {:induction false} PadLead(hs: seq<string>)
    requires |hs| == 16 && Packed(hs)
    ensures PadSlots(hs[..Lead(hs)]) == hs
  {
    var c := Lead(hs);
    if c < 16 {
      assert hs[..c] + Blanks(16 - c) == hs;
    }
  }

  /** An empty slot before a filled one: the record reads back with the
      filled slot's hash moved into the empty one. */
  lemma {:induction false} GapMoves(key: string, d: string)
    requires key != RootKey && IsDigest(d)
    ensures var n := NewBranch(key, [""] + [d] + Blanks(14)); var m := Parse(key, ToString(n));
      !m.isLeaf && m.hashes[0] == d && m != n
  {
    var n := NewBranch(key, [""] + [d] + Blanks(14));
    var hs := n.hashes;
    assert Sixteen(hs) == hs;
    ConcatSlots(hs);
    assert Concat(hs) == "" + Concat(hs[1..]);
    assert Concat(hs[1..]) == d + Concat(hs[2..]);
    assert Concat(hs[2..]) == "" by {
      ConcatSlots(hs[2..]);
      assert Lead(hs[2..]) == 0;
      assert Packed(hs[2..]);
    }
    assert IsLowerHexChar(d[0]);
    assert Chunks(d) == [d];
  }

  /** Replacing slot w, at most the first empty one, by a digest keeps the
      slots packed, and fills one more slot when w was the first empty one. */
  lemma {:induction false} RewriteSlot(hs: seq<string>, w: int, d: string)
    requires DigestSlots(hs) && Packed(hs) && 0 <= w < 16 && w <= Lead(hs) && IsDigest(d)
    ensures DigestSlots(hs[w := d]) && Packed(hs[w := d])
    ensures Lead(hs[w := d]) == if w < Lead(hs) then Lead(hs) else Lead(hs) + 1
  {
    var hs' := hs[w := d];
    var c := if w < Lead(hs) then Lead(hs) else Lead(hs) + 1;
    if c < 16 {
      assert hs'[c] == hs[c];
    }
    LeadIs(hs', c);
  }

  // ---------------------------------------------------------------------
  // Index arithmetic. An index is written least significant digit first,
  // so the digits read on the way down are the index modulo 16^depth.

  /** The value of hex's first k digits. */
  function Low(hex: string, k: nat): nat
    requires k <= |hex|
  {
    HexValueLsb(hex[..k])
  }

  /** The value of hex's digits from k on. */
  function High(hex: string, k: nat): nat
    requires k <= |hex|
  {
    HexValueLsb(hex[k..])
  }

  lemma {:induction false} HexSplit(s: string, k: nat)
    requires k <= |s|
    ensures HexValueLsb(s) == Low(s, k) + Pow(16, k) * High(s, k)
    decreases k
  {
    if k == 0 {
      assert s[..0] == [] && s[0..] == s;
    } else {
      var t := s[1..];
      HexSplit(t, k - 1);
      assert t[..k - 1] == s[..k][1..];
      assert t[k - 1..] == s[k..];
      var h := High(s, k);
      MulAssoc(16, Pow(16, k - 1), h);
    }
  }

  /** With nothing above digit k, the low digits are the whole value. */
  lemma {:induction false} LowWhole(s: string, k: nat)
    requires k <= |s| && High(s, k) == 0
    ensures HexValueLsb(s) == Low(s, k)
  {
    HexSplit(s, k);
  }

  lemma {:induction false} HexBound(s: string)
    ensures HexValueLsb(s) < Pow(16, |s|)
  {
    if s != [] {
      HexBound(s[1..]);
    }
  }

  /** Reading one more digit. */
  lemma {:induction false} LowStep(s: string, p: nat)
    requires p < |s|
    ensures Low(s, p + 1) == Low(s, p) + Pow(16, p) * Hti(s[p])
  {
    var t := s[..p + 1];
    HexSplit(t, p);
    assert t[..p] == s[..p];
    assert t[p..] == [s[p]];
    assert HexValueLsb([s[p]]) == Hti(s[p]) + 16 * HexValueLsb([]);
  }

  /** The digits from k on, one at a time. */
  lemma {:induction false} HighStep(s: string, k: nat)
    requires k < |s|
    ensures High(s, k) == Hti(s[k]) + 16 * High(s, k + 1)
  {
    assert s[k..][1..] == s[k + 1..];
  }

  /** Two numbers written as a + P*x with a below P agree digit for digit. */
  lemma {:induction false} DivUnique(a: nat, x: nat, b: nat, y: nat, P: nat)
    requires a < P && b < P && a + P * x == b + P * y
    ensures a == b && x == y
  {
    if x > y {
      MulLess(P, y, x);
    } else if y > x {
      MulLess(P, x, y);
    }
  }

  lemma {:induction false} LowGrows(s: string, p: nat)
    requires p < |s|
    ensures Low(s, p) <= Low(s, p + 1)
  {
    LowStep(s, p);
    MulLe(Pow(16, p), 0, Hti(s[p]));
  }

  lemma {:induction false} MulAtLeast(P: nat, y: nat)
    requires 1 <= y
    ensures P <= P * y
  {
    MulLess(P, y - 1, y);
  }

  lemma {:induction false} MulLess(P: nat, x: nat, y: nat)
    requires x < y
    ensures P * x + P <= P * y
  {
    var k := y - x;
    assert P * y == P * x + P * k;
    assert P * k == P * (k - 1) + P;
    assert P * (k - 1) >= 0;
  }

  /** Index strings of one length are as distinct as their values. */
  lemma {:induction false} HexInjective(a: string, b: string)
    requires |a| == |b| && IsUpperHex(a) && IsUpperHex(b) && HexValueLsb(a) == HexValueLsb(b)
    ensures a == b
  {
    if a != [] {
      DivUnique(Hti(a[0]), HexValueLsb(a[1..]), Hti(b[0]), HexValueLsb(b[1..]), 16);
      HtiInjectiveOnUpperHex(a[0], b[0]);
      HexInjective(a[1..], b[1..]);
      assert a == [a[0]] + a[1..] && b == [b[0]] + b[1..];
    }
  }

  /** The test gen_proof makes after depth p, and update's for a key that
      already has an index: no other index below n shares hex's first p+1
      digits (the next one that would is Low + 16^(p+1)). */
  predicate Alone(hex: string, n: nat, p: nat)
    requires p < |hex|
  {
    Low(hex, p + 1) + Pow(16, p + 1) >= n
  }

  /** The depth at which the walk from depth p stops. */
  function StopFrom(hex: string, n: nat, p: nat): (s: nat)
    requires p < |hex| && n <= Pow(16, |hex|)
    ensures p <= s < |hex| && Alone(hex, n, s)
    decreases |hex| - p
  {
    if Alone(hex, n, p) then p else StopFrom(hex, n, p + 1)
  }

  lemma {:induction false} StopFromIs(hex: string, n: nat, p0: nat, p: nat)
    requires p0 <= p < |hex| && n <= Pow(16, |hex|)
    requires forall q :: p0 <= q < p ==> !Alone(hex, n, q)
    requires Alone(hex, n, p)
    ensures StopFrom(hex, n, p0) == p
    decreases p - p0
  {
    if p0 < p {
      StopFromIs(hex, n, p0 + 1, p);
    }
  }

  /** For a new index idx, update's first test at depth p (the leaf goes
      straight into this branch) holds exactly when no digit of idx beyond
      p is non-zero. */
  lemma {:induction false} NewLeafTest(hex: string, p: nat)
    requires p < |hex|
    ensures Low(hex, p + 1) + Pow(16, p) * (15 - Hti(hex[p])) >= HexValueLsb(hex) <==> High(hex, p + 1) == 0
  {
    var P := Pow(16, p);
    var P1 := Pow(16, p + 1);
    var w := Hti(hex[p]);
    var h := High(hex, p + 1);
    var spare := P * (15 - w);
    HexSplit(hex, p + 1);
    assert P1 == 16 * P;
    if h == 0 {
      assert P1 * h == 0;
    } else {
      MulLess(P1, 0, h);
      MulLe(P, 15 - w, 15);
      assert spare < P1 * h;
    }
  }

  lemma {:induction false} MulLe(P: nat, a: nat, b: nat)
    requires a <= b
    ensures P * a <= P * b
  {
    assert P * b == P * a + P * (b - a);
  }

  /** That is gen_proof's test once idx + 1 indices are in use. */
  lemma {:induction false} NewAlone(hex: string, p: nat)
    requires p < |hex|
    ensures Alone(hex, HexValueLsb(hex) + 1, p) <==> High(hex, p + 1) == 0
  {
    var h := High(hex, p + 1);
    HexSplit(hex, p + 1);
    if h >= 1 {
      MulLess(Pow(16, p + 1), 0, h);
    }
  }

  /** Update's second test for a new index (a branch is split at depth
      p+1) holds exactly when the digits beyond p read 1. */
  lemma {:induction false} NewSplitTest(hex: string, p: nat)
    requires p < |hex|
    ensures Low(hex, p + 1) + Pow(16, p + 1) == HexValueLsb(hex) <==> High(hex, p + 1) == 1
  {
    var h := High(hex, p + 1);
    HexSplit(hex, p + 1);
    if h >= 2 {
      MulLess(Pow(16, p + 1), 1, h);
    }
  }

  /** A split at depth p: the new index continues with digit 1 at depth
      p+1 and is alone there. */
  lemma {:induction false} SplitBelow(hex: string, p: nat)
    requires p < |hex| && High(hex, p + 1) == 1
    ensures p + 1 < |hex| && Hti(hex[p + 1]) == 1 && High(hex, p + 2) == 0
    ensures Alone(hex, HexValueLsb(hex) + 1, p + 1) && !Alone(hex, HexValueLsb(hex) + 1, p)
  {
    HighStep(hex, p + 1);
    NewAlone(hex, p);
    NewAlone(hex, p + 1);
  }

  /** Once the digits from k on are all zero, so are those from any later k'. */
  lemma {:induction false} HighZero(hex: string, k: nat, k': nat)
    requires k <= k' <= |hex| && High(hex, k) == 0
    ensures High(hex, k') == 0
    decreases k' - k
  {
    if k < k' {
      HighStep(hex, k);
      HighZero(hex, k + 1, k');
    }
  }

  /** The last depth always stops the walk when n indices fit in |hex| digits. */
  lemma {:induction false} AloneAtEnd(hex: string, n: nat)
    requires 0 < |hex| && n <= Pow(16, |hex|)
    ensures Alone(hex, n, |hex| - 1)
  {
  }

  // ---------------------------------------------------------------------
  // How many children a branch has. The branch whose key reads r at depth
  // q stands for the indices r, r + 16^q, r + 2*16^q, ...; its child for
  // digit d is there once the index r + d*16^q is in use.

  /** The least digit from d on whose index is not below n, or 16. */
  function Filled(r: nat, P: nat, n: nat, d: nat): (c: nat)
    requires d <= 16
    ensures d <= c <= 16
    decreases 16 - d
  {
    if d == 16 || r + P * d >= n then d else Filled(r, P, n, d + 1)
  }

  /** The root has a child per index in use, up to sixteen; a deeper branch
      exists only once two indices share its key (r + 16^q below n). */
  function ChildrenAt(r: nat, q: nat, n: nat): nat {
    if q > 0 && r + Pow(16, q) >= n then 0 else Filled(r, Pow(16, q), n, 0)
  }

  function KeyDepth(k: string): nat {
    if k == RootKey then 0 else |k|
  }

  function KeyValue(k: string): nat {
    if k == RootKey then 0 else HexValueLsb(k)
  }

  /** How many children the branch under key k has with n indices in use. */
  function Children(k: string, n: nat): nat {
    ChildrenAt(KeyValue(k), KeyDepth(k), n)
  }

  lemma {:induction false} FilledIs(r: nat, P: nat, n: nat, d: nat, c: nat)
    requires d <= c <= 16
    requires c == d || r + P * (c - 1) < n
    requires c == 16 || r + P * c >= n
    ensures Filled(r, P, n, d) == c
    decreases c - d
  {
    if d < c {
      MulLe(P, d, c - 1);
      FilledIs(r, P, n, d + 1, c);
    }
  }

  lemma {:induction false} FilledAbove(r: nat, P: nat, n: nat, d: nat, w: nat)
    requires d <= 16 && w < 16 && r + P * w < n
    ensures w < Filled(r, P, n, d)
    decreases 16 - d
  {
    if d <= w {
      MulLe(P, d, w);
      FilledAbove(r, P, n, d + 1, w);
    }
  }

  /** Every digit of the branch continues to an index below n. */
  lemma {:induction false} AllChildren(r: nat, q: nat, n: nat)
    requires r + 16 * Pow(16, q) <= n
    ensures ChildrenAt(r, q, n) == 16
  {
    FilledIs(r, Pow(16, q), n, 0, 16);
  }

  /** The branch a new index r + w*16^q ends in: w children before it
      arrives, one more after. */
  lemma {:induction false} TipChildren(r: nat, q: nat, w: nat, n0: nat)
    requires w < 16 && (q == 0 || w >= 2) && n0 == r + Pow(16, q) * w
    ensures ChildrenAt(r, q, n0) == w
    ensures ChildrenAt(r, q, n0 + 1) == w + 1
  {
    var P := Pow(16, q);
    if w > 0 {
      MulLess(P, w - 1, w);
    }
    if q > 0 {
      MulLess(P, 1, w);
      assert r + P < n0;
    }
    FilledIs(r, P, n0, 0, w);
    assert ChildrenAt(r, q, n0) == w;
    MulLess(P, w, w + 1);
    FilledIs(r, P, n0 + 1, 0, w + 1);
  }

  /** A branch on the path of an index below n with digit w there has
      more than w children. */
  lemma {:induction false} OldChildren(r: nat, q: nat, w: nat, n: nat)
    requires w < 16 && r + Pow(16, q) * w < n && (q == 0 || r + Pow(16, q) < n)
    ensures w < ChildrenAt(r, q, n)
  {
    FilledAbove(r, Pow(16, q), n, 0, w);
  }

  /** The branch a split creates: none before, two children after. */
  lemma {:induction false} SplitChildren(r: nat, q: nat)
    requires q > 0
    ensures ChildrenAt(r, q, r + Pow(16, q)) == 0
    ensures ChildrenAt(r, q, r + Pow(16, q) + 1) == 2
  {
    var P := Pow(16, q);
    FilledIs(r, P, r + P + 1, 0, 2);
  }

  /** A branch none of whose digits leads to the index lo + 16^q * hi keeps
      its children when that index is added. */
  lemma {:induction false} KeptChildren(r: nat, q: nat, lo: nat, hi: nat)
    requires q > 0 && r < Pow(16, q) && lo < Pow(16, q) && r != lo
    ensures ChildrenAt(r, q, lo + Pow(16, q) * hi) == ChildrenAt(r, q, lo + Pow(16, q) * hi + 1)
  {
    var P := Pow(16, q);
    if r + P == lo + P * hi {
      DivUnique(r, 1, lo, hi, P);
    }
    FilledKept(r, P, lo, hi, 0);
  }

  lemma {:induction false} FilledKept(r: nat, P: nat, lo: nat, hi: nat, d: nat)
    requires r < P && lo < P && r != lo && d <= 16
    ensures Filled(r, P, lo + P * hi, d) == Filled(r, P, lo + P * hi + 1, d)
    decreases 16 - d
  {
    if d < 16 {
      if r + P * d == lo + P * hi {
        DivUnique(r, d, lo, hi, P);
      }
      FilledKept(r, P, lo, hi, d + 1);
    }
  }

  /** A key that reads the new index itself names no branch, before or after. */
  lemma {:induction false} LoneChildren(r: nat, q: nat)
    requires q > 0
    ensures ChildrenAt(r, q, r) == 0 && ChildrenAt(r, q, r + 1) == 0
  {
  }

  // ---------------------------------------------------------------------
  // Keys

  /** The key of the branch at depth q on hex's path: "*", then hex[..q]. */
  function KeyAt(hex: string, q: nat): string
    requires q <= |hex|
  {
    if q == 0 then RootKey else hex[..q]
  }

  predicate IsIndexKey(k: string) {
    |k| > 0 && k[0] == '?'
  }

  /** A key a branch can be stored under in a tree of the given height. */
  predicate IsBranchKey(k: string, height: int) {
    k == RootKey || (0 < |k| < height && IsUpperHex(k))
  }

  /** k is the key of the branch at one of the depths lo..hi-1 on hex's path. */
  predicate OnPath(k: string, hex: string, lo: int, hi: int) {
    if k == RootKey then lo <= 0 < hi
    else 1 <= |k| <= |hex| && lo <= |k| < hi && k == hex[..|k|]
  }

  lemma {:induction false} KeyAtFacts(hex: string, q: nat)
    requires q <= |hex| && IsUpperHex(hex)
    ensures KeyDepth(KeyAt(hex, q)) == q && KeyValue(KeyAt(hex, q)) == Low(hex, q)
    ensures q < |hex| ==> IsBranchKey(KeyAt(hex, q), |hex|)
    ensures forall lo, hi :: OnPath(KeyAt(hex, q), hex, lo, hi) <==> lo <= q < hi
  {
    if q > 0 {
      assert hex[..q][0] == hex[0];
      assert IsUpperHexChar(hex[0]);
    } else {
      assert hex[..0] == [];
    }
  }

  /** Adding the new index idx (hex's value) changes the children of no
      branch off the path update writes. */
  lemma {:induction false} ChildrenKept(hex: string, k: string, s: nat)
    requires IsUpperHex(hex) && 0 < |hex| && HexValueLsb(hex) + 1 <= Pow(16, |hex|)
    requires s == StopFrom(hex, HexValueLsb(hex) + 1, 0)
    requires k != RootKey && 0 < |k| < |hex| && IsUpperHex(k) && !OnPath(k, hex, 0, s + 1)
    ensures Children(k, HexValueLsb(hex)) == Children(k, HexValueLsb(hex) + 1)
  {
    var q := |k|;
    var r := HexValueLsb(k);
    var lo := Low(hex, q);
    var hi := High(hex, q);
    assert Children(k, HexValueLsb(hex)) == ChildrenAt(r, q, HexValueLsb(hex));
    assert Children(k, HexValueLsb(hex) + 1) == ChildrenAt(r, q, HexValueLsb(hex) + 1);
    if r != lo {
      HexBound(k);
      HexBound(hex[..q]);
      HexSplit(hex, q);
      KeptChildren(r, q, lo, hi);
    } else {
      HexInjective(k, hex[..q]);
      assert s + 1 <= q;
      NewAlone(hex, s);
      HighZero(hex, s + 1, q);
      LowWhole(hex, q);
      LoneChildren(r, q);
    }
  }

  // ---------------------------------------------------------------------
  // The store

  /** Every index record holds a height-digit index below n. */
  predicate Indexes(store: map<string, string>, n: nat, height: int) {
    forall k :: k in store && IsIndexKey(k) ==> |store[k]| == height && IsUpperHex(store[k]) && HexValueLsb(store[k]) < n
  }

  /** Every branch record is one update writes. */
  predicate Branches(store: map<string, string>, height: int) {
    forall k :: k in store && IsBranchKey(k, height) ==> BranchRecord(store[k])
  }

  /** Every branch key holds one digest per child with n indices in use,
      and nothing where no branch exists. */
  ghost predicate Shaped(store: map<string, string>, n: nat, height: int) {
    forall k :: IsBranchKey(k, height) ==> |ReadOr(store, k, "")| == 64 * Children(k, n)
  }

  /** The branch read under a branch key: digests, packed, as many as the
      branch has children. */
  lemma {:induction false} ReadShaped(store: map<string, string>, n: nat, height: int, k: string)
    requires Branches(store, height) && Shaped(store, n, height) && IsBranchKey(k, height)
    ensures var nd := Read(store, k);
      !nd.isLeaf && DigestSlots(nd.hashes) && Packed(nd.hashes) && Lead(nd.hashes) == Children(k, n)
  {
    var v := ReadOr(store, k, "");
    assert BranchRecord(v);
    ReadRecord(k, v);
  }

  /** A key on hex's path names the branch at its depth. */
  lemma {:induction false} OnPathKey(k: string, hex: string, lo: int, hi: int)
    requires OnPath(k, hex, lo, hi)
    ensures KeyDepth(k) <= |hex| && k == KeyAt(hex, KeyDepth(k)) && lo <= KeyDepth(k) < hi
  {
  }

  // ---------------------------------------------------------------------
  // The walk down

  /** What the walk down knows at depth p: for index hex with n indices in
      use (the last one hex itself when isNew), no shallower depth stops
      it, and for a new index the digits below each shallower depth read
      at least 2. */
  ghost predicate WalkInv(hex: string, n: nat, isNew: bool, p: nat) {
    0 < |hex| && IsUpperHex(hex) && n <= Pow(16, |hex|) && HexValueLsb(hex) < n
    && (isNew ==> HexValueLsb(hex) + 1 == n)
    && p < |hex|
    && (forall q :: 0 <= q < p ==> !Alone(hex, n, q))
    && (isNew ==> forall q :: 0 < q <= p ==> High(hex, q) >= 2)
  }

  /** Where the walk stopped: at depth p, having split the branch below p
      when split holds. */
  ghost predicate Walked(hex: string, n: nat, isNew: bool, p: nat, split: bool) {
    WalkInv(hex, n, isNew, p)
    && (!split ==> StopFrom(hex, n, 0) == p)
    && (split ==> isNew && High(hex, p + 1) == 1 && p + 1 < |hex| && Hti(hex[p + 1]) == 1 && StopFrom(hex, n, 0) == p + 1)
    && (isNew && !split ==> High(hex, p + 1) == 0)
  }

  /** update's two tests at depth p, val being the value of the digits read
      so far: the leaf goes into this branch, or a branch is split off. */
  predicate LeafHere(n: nat, isNew: bool, p: nat, which: nat, val: nat) {
    (isNew && val + Pow(16, p) * (15 - which) >= n - 1) || (!isNew && val + Pow(16, p + 1) >= n)
  }

  predicate SplitHere(n: nat, isNew: bool, p: nat, val: nat) {
    isNew && val + Pow(16, p + 1) == n - 1
  }

  /** One step of the walk: what each outcome of the two tests means. */
  lemma {:induction false} WalkStep(hex: string, n: nat, isNew: bool, p: nat)
    requires WalkInv(hex, n, isNew, p)
    ensures var which := Hti(hex[p]); var val := Low(hex, p + 1);
      (LeafHere(n, isNew, p, which, val) ==> Walked(hex, n, isNew, p, false))
      && (!LeafHere(n, isNew, p, which, val) && SplitHere(n, isNew, p, val) ==> Walked(hex, n, isNew, p, true))
      && (!LeafHere(n, isNew, p, which, val) && !SplitHere(n, isNew, p, val) ==> WalkInv(hex, n, isNew, p + 1))
  {
    var which := Hti(hex[p]);
    var val := Low(hex, p + 1);
    if LeafHere(n, isNew, p, which, val) {
      WalkStepLeaf(hex, n, isNew, p);
    } else if SplitHere(n, isNew, p, val) {
      WalkStepSplit(hex, n, isNew, p);
    } else {
      WalkStepOn(hex, n, isNew, p);
    }
  }

  /** The leaf goes straight into this branch: the walk stops here. */
  lemma {:induction false} WalkStepLeaf(hex: string, n: nat, isNew: bool, p: nat)
    requires WalkInv(hex, n, isNew, p) && LeafHere(n, isNew, p, Hti(hex[p]), Low(hex, p + 1))
    ensures Walked(hex, n, isNew, p, false)
  {
    NewLeafTest(hex, p);
    NewAlone(hex, p);
    NewSplitTest(hex, p);
    AloneAtEnd(hex, n);
    StopFromIs(hex, n, 0, p);
  }

  /** A branch must be split off below this one: the walk stops here. */
  lemma {:induction false} WalkStepSplit(hex: string, n: nat, isNew: bool, p: nat)
    requires WalkInv(hex, n, isNew, p) && !LeafHere(n, isNew, p, Hti(hex[p]), Low(hex, p + 1))
    requires SplitHere(n, isNew, p, Low(hex, p + 1))
    ensures Walked(hex, n, isNew, p, true)
  {
    NewLeafTest(hex, p);
    NewAlone(hex, p);
    NewSplitTest(hex, p);
    AloneAtEnd(hex, n);
    SplitBelow(hex, p);
    StopFromIs(hex, n, 0, p + 1);
  }

  /** Neither: the walk goes on to the next branch. */
  lemma {:induction false} WalkStepOn(hex: string, n: nat, isNew: bool, p: nat)
    requires WalkInv(hex, n, isNew, p) && !LeafHere(n, isNew, p, Hti(hex[p]), Low(hex, p + 1))
    requires !SplitHere(n, isNew, p, Low(hex, p + 1))
    ensures WalkInv(hex, n, isNew, p + 1)
  {
    NewLeafTest(hex, p);
    NewAlone(hex, p);
    NewSplitTest(hex, p);
    AloneAtEnd(hex, n);
  }

  /** The loop of update that reads the branches from the root down the
      path of index hex, with n indices now in use (isNew: hex is the index
      just handed out). It stops where the leaf goes straight into the
      branch, or, for a new index, where a branch must be split off below. */
  method Descend(store: map<string, string>, hex: string, n: nat, isNew: bool) returns (stack: seq<Node>, p: nat, split: bool)
    requires 0 < |hex| && IsUpperHex(hex) && n <= Pow(16, |hex|) && HexValueLsb(hex) < n
    requires isNew ==> HexValueLsb(hex) + 1 == n
    ensures Walked(hex, n, isNew, p, split)
    ensures |stack| == p + 1 && forall q :: 0 <= q <= p ==> stack[q] == Read(store, KeyAt(hex, q))
  {
    stack := [Read(store, RootKey)];
    p := 0;
    var val := 0;
    split := false;
    assert hex[..0] == [];
    while true
      invariant WalkInv(hex, n, isNew, p)
      invariant |stack| == p + 1
      invariant forall q :: 0 <= q <= p ==> stack[q] == Read(store, KeyAt(hex, q))
      invariant val == Low(hex, p)
      decreases |hex| - p
    {
      var leaf;
      leaf, split, val := DescendStep(hex, n, isNew, p, val);
      if leaf || split {
        break;
      }
      ReadPush(store, hex, stack, p);
      stack := stack + [Read(store, hex[..p + 1])];
      p := p + 1;
    }
  }

  /** One pass of update's walk down at depth p: add hex's digit there to
      the value read so far, then the two tests. */
  method DescendStep(hex: string, n: nat, isNew: bool, p: nat, val: nat) returns (leaf: bool, split: bool, val': nat)
    requires WalkInv(hex, n, isNew, p) && val == Low(hex, p)
    ensures val' == Low(hex, p + 1)
    ensures leaf ==> !split && Walked(hex, n, isNew, p, false)
    ensures !leaf && split ==> Walked(hex, n, isNew, p, true)
    ensures !leaf && !split ==> WalkInv(hex, n, isNew, p + 1)
  {
    var which := Hti(hex[p]);
    LowStep(hex, p);
    val' := val + Pow(16, p) * which;
    WalkStep(hex, n, isNew, p);
    leaf := LeafHere(n, isNew, p, which, val');
    split := !leaf && SplitHere(n, isNew, p, val');
  }

  /** The walk down reads one more branch, the one under hex[..p+1]. */
  lemma {:induction false} ReadPush(store: map<string, string>, hex: string, stack: seq<Node>, p: nat)
    requires p + 1 <= |hex| && |stack| == p + 1
    requires forall q :: 0 <= q <= p ==> stack[q] == Read(store, KeyAt(hex, q))
    ensures forall q :: 0 <= q <= p + 1 ==> (stack + [Read(store, hex[..p + 1])])[q] == Read(store, KeyAt(hex, q))
  {
    var st := stack + [Read(store, hex[..p + 1])];
    forall q | 0 <= q <= p + 1
      ensures st[q] == Read(store, KeyAt(hex, q))
    {
      if q <= p {
        assert st[q] == stack[q];
      }
    }
  }

  /** A branch on the path gets the hash from below in the slot of hex's
      digit there: a slot already filled, or the first empty one, which the
      new index fills. */
  predicate Fits(nd: Node, w: nat, c: nat) {
    (w < Lead(nd.hashes) && c == Lead(nd.hashes)) || (w == Lead(nd.hashes) && c == w + 1)
  }

  /** The branch read at depth q, ready for the hash coming up, with c
      children once it is written back. */
  ghost predicate Ready(nd: Node, hex: string, q: nat, c: nat)
    requires q < |hex|
  {
    nd.key == KeyAt(hex, q) && nd.value == "" && nd.isRoot == (q == 0) && !nd.isLeaf
    && DigestSlots(nd.hashes) && Packed(nd.hashes) && Fits(nd, Hti(hex[q]), c)
  }

  /** The number of children of each branch on hex's path, root first,
      with n indices in use. */
  ghost function Counts(hex: string, n: nat): seq<nat> {
    seq(|hex|, q requires 0 <= q < |hex| => Children(KeyAt(hex, q), n))
  }

  /** The store update walks: well formed and shaped for the indices in use
      before this one (n - 1 for a new index, n otherwise). */
  ghost predicate Placeable(store: map<string, string>, n: nat, height: nat, hex: string, isNew: bool) {
    0 < height == |hex| && IsUpperHex(hex) && n <= Pow(16, height) && HexValueLsb(hex) < n
    && (isNew ==> HexValueLsb(hex) + 1 == n)
    && Branches(store, height) && Indexes(store, n, height)
    && Shaped(store, if isNew then n - 1 else n, height)
  }

  /** Before and after a new index arrives, in the branches the walk
      passes above where it stops (and in the one it splits below): all
      sixteen children. */
  lemma {:induction false} FullChildren(hex: string, q: nat)
    requires q < |hex| && High(hex, q + 1) >= 1
    ensures ChildrenAt(Low(hex, q), q, HexValueLsb(hex)) == 16
    ensures ChildrenAt(Low(hex, q), q, HexValueLsb(hex) + 1) == 16
  {
    var P := Pow(16, q);
    var P16 := Pow(16, q + 1);
    var h := High(hex, q + 1);
    LowStep(hex, q);
    HexSplit(hex, q + 1);
    assert P16 == 16 * P;
    MulAtLeast(P16, h);
    LowGrows(hex, q);
    var t := P16 * h;
    assert HexValueLsb(hex) == Low(hex, q + 1) + t && P16 <= t;
    AllChildren(Low(hex, q), q, HexValueLsb(hex));
    AllChildren(Low(hex, q), q, HexValueLsb(hex) + 1);
  }

  /** The branch a new index ends in gains the child for hex's digit. */
  lemma {:induction false} EndChildren(hex: string, q: nat)
    requires q < |hex| && High(hex, q + 1) == 0 && (q == 0 || High(hex, q) >= 2)
    ensures ChildrenAt(Low(hex, q), q, HexValueLsb(hex)) == Hti(hex[q])
    ensures ChildrenAt(Low(hex, q), q, HexValueLsb(hex) + 1) == Hti(hex[q]) + 1
  {
    var P := Pow(16, q);
    var w := Hti(hex[q]);
    LowStep(hex, q);
    LowWhole(hex, q + 1);
    if q > 0 {
      HighStep(hex, q);
    }
    TipChildren(Low(hex, q), q, w, HexValueLsb(hex));
  }

  /** A key that already has an index passes branches in which its digit's
      slot is filled. */
  lemma {:induction false} PassedChildren(hex: string, n: nat, q: nat)
    requires q < |hex| && HexValueLsb(hex) < n && (q == 0 || !Alone(hex, n, q - 1))
    ensures Hti(hex[q]) < ChildrenAt(Low(hex, q), q, n)
  {
    LowStep(hex, q);
    LowAtMost(hex, q + 1);
    OldChildren(Low(hex, q), q, Hti(hex[q]), n);
  }

  /** The low digits of hex are worth no more than all of it. */
  lemma {:induction false} LowAtMost(hex: string, k: nat)
    requires k <= |hex|
    ensures Low(hex, k) <= HexValueLsb(hex)
  {
    HexSplit(hex, k);
    var p, h := Pow(16, k), High(hex, k);
    assert p * h >= 0;
  }

  /** At every depth the walk reads, hex's digit takes a filled slot or the
      first empty one; and a branch being split has its slot filled (by the
      one other index below it). */
  lemma {:induction false} DepthFits(hex: string, n: nat, isNew: bool, p: nat, split: bool, q: nat)
    requires Walked(hex, n, isNew, p, split) && q <= p
    ensures var w := Hti(hex[q]); var c0 := ChildrenAt(Low(hex, q), q, if isNew then n - 1 else n);
      var c := ChildrenAt(Low(hex, q), q, n);
      ((w < c0 && c == c0) || (w == c0 && c == w + 1)) && (split && q == p ==> w < c0)
  {
    var full := q < p || split;
    if isNew {
      if full {
        assert High(hex, q + 1) >= 1;
      } else {
        assert q == p && High(hex, q + 1) == 0;
      }
    } else {
      assert q == 0 || !Alone(hex, n, q - 1);
    }
    DepthCase(hex, n, isNew, q, full);
  }

  /** The slot counts at depth q, from the facts the walk gives about it. */
  lemma {:induction false} DepthCase(hex: string, n: nat, isNew: bool, q: nat, full: bool)
    requires q < |hex| && HexValueLsb(hex) < n
    requires isNew ==> n == HexValueLsb(hex) + 1
    requires isNew && full ==> High(hex, q + 1) >= 1
    requires isNew && !full ==> High(hex, q + 1) == 0 && (q == 0 || High(hex, q) >= 2)
    requires !isNew ==> q == 0 || !Alone(hex, n, q - 1)
    ensures var w := Hti(hex[q]); var c0 := ChildrenAt(Low(hex, q), q, if isNew then n - 1 else n);
      var c := ChildrenAt(Low(hex, q), q, n);
      ((w < c0 && c == c0) || (w == c0 && c == w + 1)) && (full ==> w < c0)
  {
    if isNew {
      if full {
        DepthFull(hex, n, q);
      } else {
        DepthEnd(hex, n, q);
      }
    } else {
      PassedChildren(hex, n, q);
    }
  }

  /** A new index below depth q leaves the branch there full. */
  lemma {:induction false} DepthFull(hex: string, n: nat, q: nat)
    requires q < |hex| && n == HexValueLsb(hex) + 1 && High(hex, q + 1) >= 1
    ensures Hti(hex[q]) < ChildrenAt(Low(hex, q), q, n - 1) && ChildrenAt(Low(hex, q), q, n) == ChildrenAt(Low(hex, q), q, n - 1)
  {
    FullChildren(hex, q);
  }

  /** A new index ending at depth q takes the first empty slot there. */
  lemma {:induction false} DepthEnd(hex: string, n: nat, q: nat)
    requires q < |hex| && n == HexValueLsb(hex) + 1 && High(hex, q + 1) == 0 && (q == 0 || High(hex, q) >= 2)
    ensures Hti(hex[q]) == ChildrenAt(Low(hex, q), q, n - 1) && ChildrenAt(Low(hex, q), q, n) == Hti(hex[q]) + 1
  {
    EndChildren(hex, q);
  }

  /** Every branch the walk reads is ready for the hash from below. */
  lemma {:induction false} NodeFits(store: map<string, string>, n: nat, nOld: nat, height: nat, hex: string, q: nat)
    requires Branches(store, height) && Shaped(store, nOld, height)
    requires q < |hex| == height && IsUpperHex(hex)
    requires var w := Hti(hex[q]); var c0 := ChildrenAt(Low(hex, q), q, nOld); var c := ChildrenAt(Low(hex, q), q, n);
      (w < c0 && c == c0) || (w == c0 && c == w + 1)
    ensures Ready(Read(store, KeyAt(hex, q)), hex, q, Children(KeyAt(hex, q), n))
    ensures Lead(Read(store, KeyAt(hex, q)).hashes) == ChildrenAt(Low(hex, q), q, nOld)
  {
    var k := KeyAt(hex, q);
    KeyAtFacts(hex, q);
    ReadShaped(store, nOld, height, k);
  }

  lemma {:induction false} StackReady(store: map<string, string>, n: nat, height: nat, hex: string, isNew: bool, p: nat, split: bool, stack: seq<Node>)
    requires Placeable(store, n, height, hex, isNew) && Walked(hex, n, isNew, p, split)
    requires |stack| == p + 1 && forall q :: 0 <= q <= p ==> stack[q] == Read(store, KeyAt(hex, q))
    ensures forall q :: 0 <= q <= p ==> |stack[q].hashes| == 16 && Ready(stack[q], hex, q, Counts(hex, n)[q])
    ensures split ==> Hti(hex[p]) < Lead(stack[p].hashes)
  {
    forall q | 0 <= q <= p
      ensures |stack[q].hashes| == 16 && Ready(stack[q], hex, q, Counts(hex, n)[q])
      ensures split && q == p ==> Hti(hex[q]) < Lead(stack[q].hashes)
    {
      DepthFits(hex, n, isNew, p, split, q);
      NodeFits(store, n, if isNew then n - 1 else n, height, hex, q);
    }
  }

  // ---------------------------------------------------------------------
  // The way back up

  /** The hash coming up into entry j of a route: that branch's, or the
      leaf's past the end. */
  function UpHash(H: Hasher, rt: seq<Node>, j: nat, value: string): string {
    if j < |rt| then NodeHash(H, rt[j]) else Hash(H, value)
  }

  /** Entry j of a route of branches from depth d down hex's path: under
      its key, holding digests, with the hash coming up from below in hex's
      slot, the next branch's or, under the last, the leaf's. */
  ghost predicate Link(H: Hasher, rt: seq<Node>, d: nat, hex: string, value: string, j: nat)
    requires j < |rt|
  {
    d + j < |hex| && rt[j].key == KeyAt(hex, d + j) && rt[j].value == "" && rt[j].isRoot == (d + j == 0)
    && !rt[j].isLeaf && DigestSlots(rt[j].hashes) && rt[j].hashes[Hti(hex[d + j])] == UpHash(H, rt, j + 1, value)
  }

  /** A route of branches from depth d down hex's path, linked all the way
      down to the leaf. */
  ghost predicate ChainFrom(H: Hasher, rt: seq<Node>, d: nat, hex: string, value: string) {
    forall j :: 0 <= j < |rt| ==> Link(H, rt, d, hex, value, j)
  }

  /** The link of a chain at entry j. */
  lemma {:induction false} ChainLink(H: Hasher, rt: seq<Node>, d: nat, hex: string, value: string, j: nat)
    requires ChainFrom(H, rt, d, hex, value) && j < |rt|
    ensures d + j < |hex| && |rt[j].hashes| == 16 && rt[j].hashes[Hti(hex[d + j])] == UpHash(H, rt, j + 1, value)
  {
    assert Link(H, rt, d, hex, value, j);
  }

  /** Every branch of a route from depth d has its filled slots first, as
      many as cs gives for its depth. */
  ghost predicate GrownFrom(rt: seq<Node>, d: nat, cs: seq<nat>) {
    forall j :: 0 <= j < |rt| ==> Grown(rt, d, cs, j)
  }

  /** Entry j of a route from depth d, packed with as many filled slots as
      cs gives for its depth. */
  ghost predicate Grown(rt: seq<Node>, d: nat, cs: seq<nat>, j: nat)
    requires j < |rt|
  {
    d + j < |cs| && Packed(rt[j].hashes) && Lead(rt[j].hashes) == cs[d + j]
  }

  /** What update's loop back up makes of the branches it read from depth
      i on: each gets the hash coming up in hex's slot. */
  function Rehashed(H: Hasher, stack: seq<Node>, below: seq<Node>, hex: string, value: string, i: nat): (rt: seq<Node>)
    requires i <= |stack| <= |hex|
    requires forall q :: 0 <= q < |stack| ==> |stack[q].hashes| == 16
    ensures |rt| == |stack| - i + |below|
    decreases |stack| - i
  {
    if i == |stack| then below
    else
      var rest := Rehashed(H, stack, below, hex, value, i + 1);
      [stack[i].(hashes := stack[i].hashes[Hti(hex[i]) := UpHash(H, rest, 0, value)])] + rest
  }

  /** The store after writing a route, deepest branch first. */
  function WriteRoute(store: map<string, string>, rt: seq<Node>): map<string, string> {
    if rt == [] then store else WriteRoute(store, rt[1..])[rt[0].key := ToString(rt[0])]
  }

  /** Writing one more branch, shallower than the m already written. */
  lemma WriteRouteCons(store: map<string, string>, c: Node, rt: seq<Node>, m: nat, rt': seq<Node>, st: map<string, string>)
    requires m <= |rt| && rt' == [c] + rt && st == WriteRoute(store, rt[..m])
    ensures WriteRoute(store, rt'[..m + 1]) == st[c.key := ToString(c)]
  {
    assert rt'[..m + 1][1..] == rt[..m];
  }

  /** Every branch of the route is stored as written. */
  ghost predicate WrittenAlong(store: map<string, string>, rt: seq<Node>) {
    forall j :: 0 <= j < |rt| ==> rt[j].key in store && store[rt[j].key] == ToString(rt[j])
  }

  /** Update's loop back up: each branch read gets the hash from below in
      hex's slot, is hashed for the branch above, and is written back. */
  method Rehash(H: Hasher, store: map<string, string>, stack: seq<Node>, hex: string, up: string, ghost below: seq<Node>, value: string)
    returns (store': map<string, string>, up': string, ghost route: seq<Node>)
    requires 1 <= |stack| <= |hex|
    requires forall q :: 0 <= q < |stack| ==> |stack[q].hashes| == 16
    requires up == UpHash(H, below, 0, value)
    ensures route == Rehashed(H, stack, below, hex, value, 0)
    ensures up' == UpHash(H, route, 0, value)
    ensures store' == WriteRoute(store, route[..|stack|])
  {
    store' := store;
    up' := up;
    route := below;
    var i := |stack| - 1;
    RehashStart(H, store, stack, below, hex, value);
    while i >= 0
      invariant -1 <= i < |stack|
      invariant route == Rehashed(H, stack, below, hex, value, i + 1)
      invariant up' == UpHash(H, route, 0, value)
      invariant store' == WriteRoute(store, route[..|stack| - 1 - i])
    {
      store', up', route := RehashOne(H, store, stack, hex, below, value, i, store', up', route);
      i := i - 1;
    }
    assert i + 1 == 0 && |stack| - 1 - i == |stack|;
  }

  /** Before the loop back up nothing is rehashed and nothing written. */
  lemma RehashStart(H: Hasher, store: map<string, string>, stack: seq<Node>, below: seq<Node>, hex: string, value: string)
    requires |stack| <= |hex|
    requires forall q :: 0 <= q < |stack| ==> |stack[q].hashes| == 16
    ensures Rehashed(H, stack, below, hex, value, |stack|) == below
    ensures WriteRoute(store, below[..0]) == store
  {
    assert below[..0] == [];
  }

  /** One pass of the loop back up: the branch at depth i takes the hash
      from below, is written, and yields the hash for the branch above. */
  method RehashOne(H: Hasher, store: map<string, string>, stack: seq<Node>, hex: string, ghost below: seq<Node>, value: string,
                   i: nat, st: map<string, string>, up: string, ghost route: seq<Node>)
    returns (st': map<string, string>, up': string, ghost route': seq<Node>)
    requires i < |stack| <= |hex|
    requires forall q :: 0 <= q < |stack| ==> |stack[q].hashes| == 16
    requires route == Rehashed(H, stack, below, hex, value, i + 1)
    requires up == UpHash(H, route, 0, value)
    requires st == WriteRoute(store, route[..|stack| - 1 - i])
    ensures route' == Rehashed(H, stack, below, hex, value, i)
    ensures up' == UpHash(H, route', 0, value)
    ensures st' == WriteRoute(store, route'[..|stack| - i])
  {
    var cur := stack[i].(hashes := stack[i].hashes[Hti(hex[i]) := up]);
    up' := NodeHash(H, cur);
    st' := st[cur.key := ToString(cur)];
    RehashedStep(H, stack, below, hex, value, i, route);
    route' := [cur] + route;
    WriteRouteCons(store, cur, route, |stack| - 1 - i, route', st);
  }

  /** One more branch in front of the rehashed route below it. */
  lemma {:induction false} RehashedStep(H: Hasher, stack: seq<Node>, below: seq<Node>, hex: string, value: string, i: nat, rest: seq<Node>)
    requires i < |stack| <= |hex|
    requires forall q :: 0 <= q < |stack| ==> |stack[q].hashes| == 16
    requires rest == Rehashed(H, stack, below, hex, value, i + 1)
    ensures Rehashed(H, stack, below, hex, value, i)
      == [stack[i].(hashes := stack[i].hashes[Hti(hex[i]) := UpHash(H, rest, 0, value)])] + rest
  {
  }

  /** One branch put in front of a route. */
  lemma {:induction false} ChainCons(H: Hasher, c: Node, rest: seq<Node>, rt: seq<Node>, d: nat, hex: string, value: string)
    requires d < |hex| && c.key == KeyAt(hex, d) && c.value == "" && c.isRoot == (d == 0) && !c.isLeaf
    requires DigestSlots(c.hashes) && c.hashes[Hti(hex[d])] == UpHash(H, rest, 0, value)
    requires ChainFrom(H, rest, d + 1, hex, value) && rt == [c] + rest
    ensures ChainFrom(H, rt, d, hex, value)
  {
    forall j | 0 <= j < |rt|
      ensures Link(H, rt, d, hex, value, j)
    {
      if j > 0 {
        assert Link(H, rest, d + 1, hex, value, j - 1);
        assert rt[j] == rest[j - 1];
        assert UpHash(H, rt, j + 1, value) == UpHash(H, rest, j, value);
      } else {
        assert UpHash(H, rt, 1, value) == UpHash(H, rest, 0, value);
      }
    }
  }

  lemma {:induction false} GrownCons(c: Node, rest: seq<Node>, rt: seq<Node>, d: nat, cs: seq<nat>)
    requires d < |cs| && Packed(c.hashes) && Lead(c.hashes) == cs[d]
    requires GrownFrom(rest, d + 1, cs) && rt == [c] + rest
    ensures GrownFrom(rt, d, cs)
  {
    forall j | 0 <= j < |rt|
      ensures Grown(rt, d, cs, j)
    {
      if j > 0 {
        assert Grown(rest, d + 1, cs, j - 1);
        assert rt[j] == rest[j - 1];
      }
    }
  }

  /** The route update writes back is a chain of branches whose hashes lead
      up from the leaf, each with one filled slot per child. */
  lemma {:induction false} RehashedRoute(H: Hasher, stack: seq<Node>, below: seq<Node>, hex: string, value: string, cs: seq<nat>, i: nat)
    requires i <= |stack| <= |hex| == |cs|
    requires forall q :: 0 <= q < |stack| ==> |stack[q].hashes| == 16 && Ready(stack[q], hex, q, cs[q])
    requires ChainFrom(H, below, |stack|, hex, value) && GrownFrom(below, |stack|, cs)
    ensures ChainFrom(H, Rehashed(H, stack, below, hex, value, i), i, hex, value)
    ensures GrownFrom(Rehashed(H, stack, below, hex, value, i), i, cs)
    decreases |stack| - i
  {
    if i < |stack| {
      RehashedRoute(H, stack, below, hex, value, cs, i + 1);
      RehashChain(H, stack, below, hex, value, cs, i);
      RehashGrown(H, stack, below, hex, value, cs, i);
    }
  }

  /** One branch of the way back up: ready before, it joins the chain. */
  lemma RehashChain(H: Hasher, stack: seq<Node>, below: seq<Node>, hex: string, value: string, cs: seq<nat>, i: nat)
    requires i < |stack| <= |hex| == |cs|
    requires forall q :: 0 <= q < |stack| ==> |stack[q].hashes| == 16
    requires Ready(stack[i], hex, i, cs[i])
    requires ChainFrom(H, Rehashed(H, stack, below, hex, value, i + 1), i + 1, hex, value)
    ensures ChainFrom(H, Rehashed(H, stack, below, hex, value, i), i, hex, value)
  {
    var rest := Rehashed(H, stack, below, hex, value, i + 1);
    var nd := stack[i];
    var c := nd.(hashes := nd.hashes[Hti(hex[i]) := UpHash(H, rest, 0, value)]);
    RewriteSlot(nd.hashes, Hti(hex[i]), UpHash(H, rest, 0, value));
    ChainCons(H, c, rest, Rehashed(H, stack, below, hex, value, i), i, hex, value);
  }

  /** One branch of the way back up: ready before, it keeps one filled slot
      per child. */
  lemma RehashGrown(H: Hasher, stack: seq<Node>, below: seq<Node>, hex: string, value: string, cs: seq<nat>, i: nat)
    requires i < |stack| <= |hex| == |cs|
    requires forall q :: 0 <= q < |stack| ==> |stack[q].hashes| == 16
    requires Ready(stack[i], hex, i, cs[i])
    requires GrownFrom(Rehashed(H, stack, below, hex, value, i + 1), i + 1, cs)
    ensures GrownFrom(Rehashed(H, stack, below, hex, value, i), i, cs)
  {
    var rest := Rehashed(H, stack, below, hex, value, i + 1);
    var nd := stack[i];
    var c := nd.(hashes := nd.hashes[Hti(hex[i]) := UpHash(H, rest, 0, value)]);
    RewriteSlot(nd.hashes, Hti(hex[i]), UpHash(H, rest, 0, value));
    GrownCons(c, rest, Rehashed(H, stack, below, hex, value, i), i, cs);
  }

  /** The route ends with the branches below the ones read. */
  lemma {:induction false} RehashedBelow(H: Hasher, stack: seq<Node>, below: seq<Node>, hex: string, value: string, i: nat)
    requires i <= |stack| <= |hex|
    requires forall q :: 0 <= q < |stack| ==> |stack[q].hashes| == 16
    ensures Rehashed(H, stack, below, hex, value, i)[|stack| - i..] == below
    decreases |stack| - i
  {
    if i < |stack| {
      RehashedBelow(H, stack, below, hex, value, i + 1);
      var rest := Rehashed(H, stack, below, hex, value, i + 1);
      var c := stack[i].(hashes := stack[i].hashes[Hti(hex[i]) := UpHash(H, rest, 0, value)]);
      assert Rehashed(H, stack, below, hex, value, i) == [c] + rest;
      ConsDrop(c, rest, |stack| - (i + 1));
    }
  }

  lemma ConsDrop<T>(c: T, s: seq<T>, k: nat)
    requires k <= |s|
    ensures ([c] + s)[k + 1..] == s[k..]
  {
  }

  lemma {:induction false} WriteRouteFacts(store: map<string, string>, rt: seq<Node>, hex: string, d: nat)
    requires IsUpperHex(hex) && d + |rt| <= |hex|
    requires forall j :: 0 <= j < |rt| ==> rt[j].key == KeyAt(hex, d + j)
    ensures WrittenAlong(WriteRoute(store, rt), rt)
    ensures forall k :: k in store && !OnPath(k, hex, d, d + |rt|) ==> k in WriteRoute(store, rt) && WriteRoute(store, rt)[k] == store[k]
    ensures forall k :: k in WriteRoute(store, rt) ==> k in store || OnPath(k, hex, d, d + |rt|)
    decreases |rt|
  {
    if rt != [] {
      var rest := rt[1..];
      var e := d + 1;
      forall j | 0 <= j < |rest|
        ensures rest[j].key == KeyAt(hex, e + j) && rest[j].key != rt[0].key
      {
        assert rest[j] == rt[j + 1];
        KeyAtFacts(hex, e + j);
        KeyAtFacts(hex, d);
      }
      WriteRouteFacts(store, rest, hex, e);
      KeyAtFacts(hex, d);
    }
  }

  // ---------------------------------------------------------------------
  // Putting a value in place

  /** The branch a split creates below depth p: the old index's hash under
      digit 0, the new leaf's under digit 1. */
  lemma {:induction false} SplitReady(H: Hasher, hex: string, n: nat, p: nat, sibling: string, value: string)
    requires p + 1 < |hex| && IsUpperHex(hex) && High(hex, p + 1) == 1 && Hti(hex[p + 1]) == 1
    requires HexValueLsb(hex) + 1 == n && IsDigest(sibling)
    ensures var nd := NewBranch(hex[..p + 1], [sibling, Hash(H, value)] + Blanks(14));
      ChainFrom(H, [nd], p + 1, hex, value) && GrownFrom([nd], p + 1, Counts(hex, n))
  {
    var hs := [sibling, Hash(H, value)] + Blanks(14);
    var nd := NewBranch(hex[..p + 1], hs);
    SplitChain(H, hex, p, sibling, value, hs, nd);
    SplitGrown(hex, n, p, hs);
    SplitGrownFrom(hex, n, p, hs, nd);
  }

  lemma {:induction false} SplitChain(H: Hasher, hex: string, p: nat, sibling: string, value: string, hs: seq<string>, nd: Node)
    requires p + 1 < |hex| && Hti(hex[p + 1]) == 1 && IsDigest(sibling)
    requires hs == [sibling, Hash(H, value)] + Blanks(14) && nd == NewBranch(hex[..p + 1], hs)
    ensures ChainFrom(H, [nd], p + 1, hex, value)
  {
    assert [nd][0] == nd;
    assert UpHash(H, [nd], 1, value) == Hash(H, value);
    assert DigestSlots(hs);
    assert Link(H, [nd], p + 1, hex, value, 0);
  }

  lemma {:induction false} SplitGrownFrom(hex: string, n: nat, p: nat, hs: seq<string>, nd: Node)
    requires p + 1 < |hex| && nd.hashes == hs
    requires Packed(hs) && Lead(hs) == Children(KeyAt(hex, p + 1), n)
    ensures GrownFrom([nd], p + 1, Counts(hex, n))
  {
    assert [nd][0] == nd;
    assert Grown([nd], p + 1, Counts(hex, n), 0);
  }

  lemma {:induction false} SplitGrown(hex: string, n: nat, p: nat, hs: seq<string>)
    requires p + 1 < |hex| && IsUpperHex(hex) && High(hex, p + 1) == 1 && HexValueLsb(hex) + 1 == n
    requires |hs| == 16 && hs[0] != "" && hs[1] != "" && forall i :: 2 <= i < 16 ==> hs[i] == ""
    ensures Packed(hs) && Lead(hs) == Children(KeyAt(hex, p + 1), n)
  {
    KeyAtFacts(hex, p + 1);
    LeadIs(hs, 2);
    HexSplit(hex, p + 1);
    SplitChildren(Low(hex, p + 1), p + 1);
  }

  /** The store after update writes the leaf, and the branch split off if
      there is one. */
  function Planted(store: map<string, string>, hex: string, value: string, below: seq<Node>): map<string, string> {
    if below == [] then store[hex := "!" + value]
    else store[hex := "!" + value][below[0].key := ToString(below[0])]
  }

  /** The route of the new state as the whole of it: branch from the root
      to where the walk stops for index hex with n indices in use, each
      stored as written, packed, holding the hash from below on the path. */
  ghost predicate Path(H: Hasher, store: map<string, string>, route: seq<Node>, hex: string, value: string, n: nat) {
    0 < |hex| && IsUpperHex(hex) && n <= Pow(16, |hex|) && |route| == StopFrom(hex, n, 0) + 1
    && ChainFrom(H, route, 0, hex, value) && (forall j :: 0 <= j < |route| ==> Packed(route[j].hashes))
    && WrittenAlong(store, route)
  }

  /** Writing the leaf, the split-off branch and the route back: the route
      and the leaf are stored, and nothing off the path changes. */
  lemma {:induction false} PlacedWritten(store: map<string, string>, hex: string, value: string, top: nat, below: seq<Node>, route: seq<Node>)
    requires IsUpperHex(hex) && 0 < top && top + |below| <= |hex| && |below| <= 1
    requires |route| == top + |below| && route[top..] == below
    requires forall j :: 0 <= j < |route| ==> route[j].key == KeyAt(hex, j)
    ensures var st := WriteRoute(Planted(store, hex, value, below), route[..top]);
      WrittenAlong(st, route) && hex in st && st[hex] == "!" + value
      && (forall k :: k in store && k != hex && !OnPath(k, hex, 0, |route|) ==> k in st && st[k] == store[k])
      && (forall k :: k in st ==> k in store || k == hex || OnPath(k, hex, 0, |route|))
  {
    PlacedAlong(store, hex, value, top, below, route);
    PlacedFrame(store, hex, value, top, below, route);
  }

  lemma {:induction false} PlacedAlong(store: map<string, string>, hex: string, value: string, top: nat, below: seq<Node>, route: seq<Node>)
    requires IsUpperHex(hex) && 0 < top && top + |below| <= |hex| && |below| <= 1
    requires |route| == top + |below| && route[top..] == below
    requires forall j :: 0 <= j < |route| ==> route[j].key == KeyAt(hex, j)
    ensures var st := WriteRoute(Planted(store, hex, value, below), route[..top]);
      WrittenAlong(st, route) && hex in st && st[hex] == "!" + value
  {
    var planted := Planted(store, hex, value, below);
    var up := route[..top];
    forall j | 0 <= j < |up|
      ensures up[j].key == KeyAt(hex, j)
    {
      assert up[j] == route[j];
    }
    WriteRouteFacts(planted, up, hex, 0);
    var st := WriteRoute(planted, up);
    assert hex[..|hex|] == hex;
    KeyAtFacts(hex, |hex|);
    if below != [] {
      KeyAtFacts(hex, top);
      assert below[0] == route[top];
    }
    forall j | 0 <= j < |route|
      ensures route[j].key in st && st[route[j].key] == ToString(route[j])
    {
      if j < top {
        assert route[j] == up[j];
      } else {
        assert route[j] == below[0];
      }
    }
  }

  lemma {:induction false} PlacedFrame(store: map<string, string>, hex: string, value: string, top: nat, below: seq<Node>, route: seq<Node>)
    requires IsUpperHex(hex) && 0 < top && top + |below| <= |hex| && |below| <= 1
    requires |route| == top + |below| && route[top..] == below
    requires forall j :: 0 <= j < |route| ==> route[j].key == KeyAt(hex, j)
    ensures var st := WriteRoute(Planted(store, hex, value, below), route[..top]);
      (forall k :: k in store && k != hex && !OnPath(k, hex, 0, |route|) ==> k in st && st[k] == store[k])
      && (forall k :: k in st ==> k in store || k == hex || OnPath(k, hex, 0, |route|))
  {
    var planted := Planted(store, hex, value, below);
    var up := route[..top];
    forall j | 0 <= j < |up|
      ensures up[j].key == KeyAt(hex, j)
    {
      assert up[j] == route[j];
    }
    WriteRouteFacts(planted, up, hex, 0);
    if below != [] {
      KeyAtFacts(hex, top);
      assert below[0] == route[top];
    }
  }

  /** A branch key on the path reads the route's record there. */
  lemma {:induction false} OnRoute(st: map<string, string>, route: seq<Node>, hex: string, k: string) returns (q: nat)
    requires |route| <= |hex| && WrittenAlong(st, route)
    requires forall j :: 0 <= j < |route| ==> route[j].key == KeyAt(hex, j)
    requires OnPath(k, hex, 0, |route|)
    ensures q < |route| && k == route[q].key && k in st && st[k] == ToString(route[q])
  {
    OnPathKey(k, hex, 0, |route|);
    q := KeyDepth(k);
  }

  /** The frame of update's writes, as PlacedWritten gives it. */
  ghost predicate Framed(store: map<string, string>, st: map<string, string>, hex: string, m: nat) {
    (forall k :: k in store && k != hex && !OnPath(k, hex, 0, m) ==> k in st && st[k] == store[k])
    && (forall k :: k in st ==> k in store || k == hex || OnPath(k, hex, 0, m))
  }

  /** The route's branches are shaped records. */
  ghost predicate RouteRecords(route: seq<Node>, hex: string) {
    |route| <= |hex|
    && forall j :: 0 <= j < |route| ==> route[j].key == KeyAt(hex, j) && !route[j].isLeaf && DigestSlots(route[j].hashes)
  }

  /** A chain from the root is a route of shaped records. */
  lemma {:induction false} ChainRecords(H: Hasher, rt: seq<Node>, hex: string, value: string)
    requires ChainFrom(H, rt, 0, hex, value)
    ensures RouteRecords(rt, hex)
  {
    if rt != [] {
      assert Link(H, rt, 0, hex, value, |rt| - 1);
    }
    forall j | 0 <= j < |rt|
      ensures rt[j].key == KeyAt(hex, j) && !rt[j].isLeaf && DigestSlots(rt[j].hashes)
    {
      assert Link(H, rt, 0, hex, value, j);
    }
  }

  /** Every entry of a grown route is packed. */
  lemma {:induction false} GrownPacked(rt: seq<Node>, d: nat, cs: seq<nat>)
    requires GrownFrom(rt, d, cs)
    ensures forall j :: 0 <= j < |rt| ==> Packed(rt[j].hashes)
  {
    forall j | 0 <= j < |rt|
      ensures Packed(rt[j].hashes)
    {
      assert Grown(rt, d, cs, j);
    }
  }

  lemma {:induction false} PlacedRecords(store: map<string, string>, st: map<string, string>, n: nat, height: nat, hex: string, route: seq<Node>)
    requires 0 < height == |hex| && IsUpperHex(hex) && Branches(store, height) && Indexes(store, n, height)
    requires WrittenAlong(st, route) && RouteRecords(route, hex) && Framed(store, st, hex, |route|)
    ensures Branches(st, height) && Indexes(st, n, height)
  {
    forall k | k in st && IsBranchKey(k, height)
      ensures BranchRecord(st[k])
    {
      if OnPath(k, hex, 0, |route|) {
        var q := OnRoute(st, route, hex, k);
        PrintedRecord(route[q]);
      }
    }
    forall k | k in st && IsIndexKey(k)
      ensures |st[k]| == height && IsUpperHex(st[k]) && HexValueLsb(st[k]) < n
    {
      assert IsUpperHexChar(hex[0]);
    }
  }

  lemma {:induction false} PlacedShape(store: map<string, string>, st: map<string, string>, n: nat, nOld: nat, height: nat, hex: string, route: seq<Node>)
    requires 0 < height == |hex| && IsUpperHex(hex) && Shaped(store, nOld, height) && n <= Pow(16, |hex|)
    requires nOld == n || (nOld + 1 == n && nOld == HexValueLsb(hex) && |route| == StopFrom(hex, n, 0) + 1)
    requires WrittenAlong(st, route) && RouteRecords(route, hex) && Framed(store, st, hex, |route|) && 0 < |route|
    requires GrownFrom(route, 0, Counts(hex, n))
    ensures Shaped(st, n, height)
  {
    forall k | IsBranchKey(k, height)
      ensures |ReadOr(st, k, "")| == 64 * Children(k, n)
    {
      if OnPath(k, hex, 0, |route|) {
        PlacedShapeOn(st, n, hex, route, k);
      } else {
        PlacedShapeOff(store, st, n, nOld, height, hex, route, k);
      }
    }
  }

  /** A branch on the route holds the record printed for its rung. */
  lemma PlacedShapeOn(st: map<string, string>, n: nat, hex: string, route: seq<Node>, k: string)
    requires IsUpperHex(hex) && WrittenAlong(st, route) && RouteRecords(route, hex) && 0 < |route|
    requires GrownFrom(route, 0, Counts(hex, n)) && OnPath(k, hex, 0, |route|)
    ensures |ReadOr(st, k, "")| == 64 * Children(k, n)
  {
    var q := OnRoute(st, route, hex, k);
    assert Grown(route, 0, Counts(hex, n), q);
    PrintedRecord(route[q]);
  }

  /** A branch off the route keeps its record, and its child count too. */
  lemma PlacedShapeOff(store: map<string, string>, st: map<string, string>, n: nat, nOld: nat, height: nat, hex: string, route: seq<Node>, k: string)
    requires 0 < height == |hex| && IsUpperHex(hex) && Shaped(store, nOld, height) && n <= Pow(16, |hex|)
    requires nOld == n || (nOld + 1 == n && nOld == HexValueLsb(hex) && |route| == StopFrom(hex, n, 0) + 1)
    requires Framed(store, st, hex, |route|) && 0 < |route|
    requires IsBranchKey(k, height) && !OnPath(k, hex, 0, |route|)
    ensures |ReadOr(st, k, "")| == 64 * Children(k, n)
  {
    FramedRead(store, st, hex, |route|, k);
    ChildrenSame(n, nOld, hex, |route|, k);
  }

  /** A key the frame leaves alone reads the same before and after. */
  lemma FramedRead(store: map<string, string>, st: map<string, string>, hex: string, m: nat, k: string)
    requires Framed(store, st, hex, m) && k != hex && !OnPath(k, hex, 0, m)
    ensures ReadOr(st, k, "") == ReadOr(store, k, "")
  {
  }

  /** Adding index n - 1 changes the child count of no branch off its route. */
  lemma ChildrenSame(n: nat, nOld: nat, hex: string, m: nat, k: string)
    requires 0 < |hex| && IsUpperHex(hex) && n <= Pow(16, |hex|) && 0 < m
    requires nOld == n || (nOld + 1 == n && nOld == HexValueLsb(hex) && m == StopFrom(hex, n, 0) + 1)
    requires IsBranchKey(k, |hex|) && !OnPath(k, hex, 0, m)
    ensures Children(k, nOld) == Children(k, n)
  {
    if nOld != n {
      assert k != RootKey && |k| < |hex|;
      assert n == HexValueLsb(hex) + 1;
      ChildrenKept(hex, k, m - 1);
    }
  }

  /** What update's writes amount to, from the facts about the walk down
      and the way back up. */
  lemma {:induction false} Placed(H: Hasher, store: map<string, string>, store': map<string, string>, n: nat, height: nat, hex: string, isNew: bool, value: string,
                                  p: nat, split: bool, stack: seq<Node>, below: seq<Node>, route: seq<Node>)
    requires Placeable(store, n, height, hex, isNew) && Walked(hex, n, isNew, p, split)
    requires |stack| == p + 1 && forall q :: 0 <= q <= p ==> |stack[q].hashes| == 16 && Ready(stack[q], hex, q, Counts(hex, n)[q])
    requires |below| == (if split then 1 else 0) && ChainFrom(H, below, p + 1, hex, value) && GrownFrom(below, p + 1, Counts(hex, n))
    requires route == Rehashed(H, stack, below, hex, value, 0)
    requires store' == WriteRoute(Planted(store, hex, value, below), route[..|stack|])
    ensures Branches(store', height) && Indexes(store', n, height) && Shaped(store', n, height)
    ensures Path(H, store', route, hex, value, n)
    ensures hex in store' && store'[hex] == "!" + value
    ensures Framed(store, store', hex, |route|)
  {
    RehashedRoute(H, stack, below, hex, value, Counts(hex, n), 0);
    RehashedBelow(H, stack, below, hex, value, 0);
    ChainRecords(H, route, hex, value);
    GrownPacked(route, 0, Counts(hex, n));
    PlacedWritten(store, hex, value, |stack|, below, route);
    PlacedRecords(store, store', n, height, hex, route);
    PlacedShape(store, store', n, if isNew then n - 1 else n, height, hex, route);
  }

  /** Update's writes where the walk stopped: the leaf under its index,
      and on a split the new branch below depth p holding the sibling's
      hash and the leaf's. */
  method Plant(H: Hasher, store: map<string, string>, n: nat, hex: string, value: string, p: nat, split: bool, stack: seq<Node>)
    returns (store': map<string, string>, up: string, ghost below: seq<Node>)
    requires p < |hex| && |stack| == p + 1
    requires split ==> p + 1 < |hex| && IsUpperHex(hex) && High(hex, p + 1) == 1 && Hti(hex[p + 1]) == 1 && HexValueLsb(hex) + 1 == n
    requires split ==> DigestSlots(stack[p].hashes) && Hti(hex[p]) < Lead(stack[p].hashes)
    ensures store' == Planted(store, hex, value, below) && up == UpHash(H, below, 0, value)
    ensures |below| == (if split then 1 else 0) && ChainFrom(H, below, p + 1, hex, value) && GrownFrom(below, p + 1, Counts(hex, n))
  {
    var leaf := NewLeaf(hex, value);
    store' := store[hex := ToString(leaf)];
    up := NodeHash(H, leaf);
    below := [];
    if split {
      var which := Hti(hex[p]);
      var newNode := NewBranch(hex[..p + 1], [stack[p].hashes[which], up] + Blanks(14));
      SplitReady(H, hex, n, p, stack[p].hashes[which], value);
      store' := store'[newNode.key := ToString(newNode)];
      up := NodeHash(H, newNode);
      below := [newNode];
    }
  }

  /** Update once the index is known: walk down, write the leaf (and split
      a branch off), then write the route back up. n indices are in use,
      the last one hex itself when isNew. */
  method Place(H: Hasher, height: nat, store: map<string, string>, n: nat, hex: string, isNew: bool, value: string)
    returns (store': map<string, string>, up: string, ghost route: seq<Node>)
    requires Placeable(store, n, height, hex, isNew)
    ensures Branches(store', height) && Indexes(store', n, height) && Shaped(store', n, height)
    ensures Path(H, store', route, hex, value, n) && up == NodeHash(H, route[0])
    ensures hex in store' && store'[hex] == "!" + value
    ensures Framed(store, store', hex, |route|)
  {
    var stack, p, split := Descend(store, hex, n, isNew);
    StackReady(store, n, height, hex, isNew, p, split, stack);
    var hashUp;
    ghost var below;
    store', hashUp, below := Plant(H, store, n, hex, value, p, split, stack);
    store', up, route := Rehash(H, store', stack, hex, hashUp, below, value);
    Placed(H, store, store', n, height, hex, isNew, value, p, split, stack, below, route);
  }

  // ---------------------------------------------------------------------
  // Proofs

  /** The level gen_proof emits at depth q: hex's digit there and the
      sixteen slots of the branch it reads. */
  function LevelAt(store: map<string, string>, hex: string, q: nat): Level
    requires q < |hex|
  {
    Level(Hti(hex[q]), Sixteen(Read(store, KeyAt(hex, q)).hashes))
  }

  /** The levels of depths 0 .. k-1. */
  function LevelsTo(store: map<string, string>, hex: string, k: nat): (ls: seq<Level>)
    requires k <= |hex|
    ensures |ls| == k && Selects(ls)
  {
    if k == 0 then [] else LevelsTo(store, hex, k - 1) + [LevelAt(store, hex, k - 1)]
  }

  ghost predicate ProofReady(store: map<string, string>, n: nat, spos: string) {
    var hex := ReadOr(store, IndexKey(spos), "");
    hex != "" ==> n <= Pow(16, |hex|)
  }

  /** gen_proof's answer: "?" for a key without an index, otherwise one
      record per branch from the root down to the depth where no other
      index below n shares the digits read. */
  function ProofOf(store: map<string, string>, n: nat, spos: string): string
    requires ProofReady(store, n, spos)
  {
    var hex := ReadOr(store, IndexKey(spos), "");
    if hex == "" then "?" else PathProof(LevelsTo(store, hex, StopFrom(hex, n, 0) + 1))
  }

  /** A branch key never reads as a leaf in a well-formed store. */
  lemma {:induction false} BranchRead(store: map<string, string>, height: nat, k: string)
    requires Branches(store, height) && IsBranchKey(k, height)
    ensures !Read(store, k).isLeaf && |Sixteen(Read(store, k).hashes)| == 16
  {
    ReadRecord(k, ReadOr(store, k, ""));
  }

  /** One more level on the walk: the levels read so far grow by the
      branch at depth p, and the proof by its record. */
  lemma {:induction false} ProofStep(store: map<string, string>, hex: string, p: nat, levels: seq<Level>, proof: string, record: string)
    requires p < |hex| && levels == LevelsTo(store, hex, p) && proof == PathProof(levels)
    requires record == LevelRecord(LevelAt(store, hex, p))
    ensures levels + [LevelAt(store, hex, p)] == LevelsTo(store, hex, p + 1)
    ensures proof + record == PathProof(levels + [LevelAt(store, hex, p)])
  {
    RatTree.PathProofAppend(levels, LevelAt(store, hex, p));
  }

  /** No depth before p stops the walk. */
  ghost predicate Passes(hex: string, n: nat, p: nat)
    requires p <= |hex|
  {
    forall q :: 0 <= q < p ==> !Alone(hex, n, q)
  }

  lemma {:induction false} PassesOn(hex: string, n: nat, p: nat)
    requires p < |hex| && Passes(hex, n, p) && !Alone(hex, n, p)
    ensures Passes(hex, n, p + 1)
  {
  }

  /** The loop of gen_proof: one record per branch from the root down,
      until no other index below n shares the digits read. */
  method WalkProof(store: map<string, string>, hex: string, n: nat) returns (proof: string)
    requires 0 < |hex| && IsUpperHex(hex) && n <= Pow(16, |hex|) && Branches(store, |hex|)
    ensures proof == PathProof(LevelsTo(store, hex, StopFrom(hex, n, 0) + 1))
  {
    proof := "";
    var key := RootKey;
    var p := 0;
    var val := 0;
    ghost var levels: seq<Level> := [];
    assert hex[..0] == [];
    while true
      invariant p < |hex| && key == KeyAt(hex, p) && val == Low(hex, p)
      invariant levels == LevelsTo(store, hex, p) && proof == PathProof(levels)
      invariant Passes(hex, n, p)
      decreases |hex| - p
    {
      var stop;
      stop, proof, val, levels := VisitProof(store, hex, n, p, key, val, levels, proof);
      if stop {
        WalkDone(store, hex, n, p, levels, proof);
        break;
      }
      AloneAtEnd(hex, n);
      PassesOn(hex, n, p);
      key := hex[..p + 1];
      p := p + 1;
    }
  }

  /** Where gen_proof's loop stops, the proof is complete. */
  lemma {:induction false} WalkDone(store: map<string, string>, hex: string, n: nat, p: nat, levels: seq<Level>, proof: string)
    requires p < |hex| && n <= Pow(16, |hex|) && Passes(hex, n, p) && Alone(hex, n, p)
    requires levels == LevelsTo(store, hex, p + 1) && proof == PathProof(levels)
    ensures proof == PathProof(LevelsTo(store, hex, StopFrom(hex, n, 0) + 1))
  {
    StopFromIs(hex, n, 0, p);
  }

  /** One pass of gen_proof's loop at depth p: read the branch under key,
      emit its record, and stop once no other index below n shares the
      digits read. */
  method VisitProof(store: map<string, string>, hex: string, n: nat, p: nat, key: string, val: nat, ghost levels: seq<Level>, proof: string)
    returns (stop: bool, proof': string, val': nat, ghost levels': seq<Level>)
    requires p < |hex| && IsUpperHex(hex) && Branches(store, |hex|) && key == KeyAt(hex, p) && val == Low(hex, p)
    requires levels == LevelsTo(store, hex, p) && proof == PathProof(levels)
    ensures val' == Low(hex, p + 1) && stop == Alone(hex, n, p)
    ensures levels' == LevelsTo(store, hex, p + 1) && proof' == PathProof(levels')
  {
    KeyAtFacts(hex, p);
    BranchRead(store, |hex|, key);
    var cur := Read(store, key);
    var which := Hti(hex[p]);
    LowStep(hex, p);
    val' := val + Pow(16, p) * which;
    var record := EmitRecord(which, Sixteen(cur.hashes));
    ProofStep(store, hex, p, levels, proof, record);
    proof' := proof + record;
    levels' := levels + [LevelAt(store, hex, p)];
    stop := val' + Pow(16, p + 1) >= n;
  }

  /** After an update the path's branches read back as written, so the
      levels gen_proof emits are the route's. */
  lemma {:induction false} RouteLevels(H: Hasher, store: map<string, string>, route: seq<Node>, hex: string, value: string, n: nat, q: nat)
    requires Path(H, store, route, hex, value, n) && q < |route|
    ensures q < |hex| && LevelOk(Level(Hti(hex[q]), route[q].hashes)) && LevelAt(store, hex, q) == Level(Hti(hex[q]), route[q].hashes)
    ensures NodeHash(H, route[q]) == Hash(H, Concat(route[q].hashes))
  {
    assert Link(H, route, 0, hex, value, q);
    KeyAtFacts(hex, q);
    ParsePrinted(route[q]);
    assert Sixteen(route[q].hashes) == route[q].hashes;
    forall i | 0 <= i < 16
      ensures ChildHashOk(route[q].hashes[i])
    {
      if route[q].hashes[i] != "" {
        DigestIsNotNull(route[q].hashes[i]);
      }
    }
  }

  /** The levels of a route's first k branches. */
  function RouteLevelsOf(route: seq<Node>, hex: string, k: nat): (ls: seq<Level>)
    requires k <= |route| <= |hex|
    ensures |ls| == k && Selects(ls)
  {
    if k == 0 then [] else RouteLevelsOf(route, hex, k - 1) + [Level(Hti(hex[k - 1]), route[k - 1].hashes)]
  }

  /** The levels gen_proof reads are the route's. */
  lemma {:induction false} LevelsAgree(store: map<string, string>, route: seq<Node>, hex: string, k: nat)
    requires k <= |route| <= |hex|
    requires forall q :: 0 <= q < |route| ==> LevelAt(store, hex, q) == Level(Hti(hex[q]), route[q].hashes)
    ensures LevelsTo(store, hex, k) == RouteLevelsOf(route, hex, k)
  {
    if k > 0 {
      LevelsAgree(store, route, hex, k - 1);
      assert LevelAt(store, hex, k - 1) == Level(Hti(hex[k - 1]), route[k - 1].hashes);
    }
  }

  /** The route's level at depth q is well formed, holds the hash from
      below in its slot, and hashes to the hash coming up from it. */
  ghost predicate LinkAt(H: Hasher, route: seq<Node>, hex: string, value: string, q: nat)
    requires q < |route| <= |hex|
  {
    LevelOk(Level(Hti(hex[q]), route[q].hashes)) && route[q].hashes[Hti(hex[q])] == UpHash(H, route, q + 1, value)
    && UpHash(H, route, q, value) == Hash(H, Concat(route[q].hashes))
  }

  ghost predicate Folds(H: Hasher, route: seq<Node>, hex: string, value: string) {
    |route| <= |hex| && forall q :: 0 <= q < |route| ==> LinkAt(H, route, hex, value, q)
  }

  lemma {:induction false} PathFolds(H: Hasher, store: map<string, string>, route: seq<Node>, hex: string, value: string, n: nat)
    requires Path(H, store, route, hex, value, n)
    ensures Folds(H, route, hex, value)
    ensures forall q :: 0 <= q < |route| ==> LevelAt(store, hex, q) == Level(Hti(hex[q]), route[q].hashes)
  {
    forall q | 0 <= q < |route|
      ensures q < |hex| && LinkAt(H, route, hex, value, q) && LevelAt(store, hex, q) == Level(Hti(hex[q]), route[q].hashes)
    {
      PathLinkAt(H, store, route, hex, value, n, q);
    }
  }

  /** Entry q of a path links to the one below it and gives the stored level. */
  lemma {:induction false} PathLinkAt(H: Hasher, store: map<string, string>, route: seq<Node>, hex: string, value: string, n: nat, q: nat)
    requires Path(H, store, route, hex, value, n) && q < |route|
    ensures q < |hex| && LinkAt(H, route, hex, value, q) && LevelAt(store, hex, q) == Level(Hti(hex[q]), route[q].hashes)
  {
    RouteLevels(H, store, route, hex, value, n, q);
    ChainSlot(H, route, hex, value, q);
    assert UpHash(H, route, q, value) == Hash(H, Concat(route[q].hashes));
  }

  /** Along a chain from the root, entry q holds the hash from below in hex's slot. */
  lemma {:induction false} ChainSlot(H: Hasher, route: seq<Node>, hex: string, value: string, q: nat)
    requires ChainFrom(H, route, 0, hex, value) && q < |route|
    ensures q < |hex| && |route[q].hashes| == 16 && route[q].hashes[Hti(hex[q])] == UpHash(H, route, q + 1, value)
  {
    assert Link(H, route, 0, hex, value, q);
  }

  /** One level more at the bottom of a path: when its slot already holds
      the key, folding it first gives the hash of the level itself. */
  lemma {:induction false} FoldStep(H: Hasher, init: seq<Level>, l: Level, key: string)
    requires LevelsOk(init) && LevelOk(l) && l.hashes[l.which] == key
    ensures LevelsOk(init + [l])
    ensures FoldLevels(H, init + [l], key) == FoldLevels(H, init, Hash(H, Concat(l.hashes)))
  {
    assert (init + [l])[..|init|] == init;
    assert l.hashes[l.which := key] == l.hashes;
  }

  /** Folding the first k levels from the hash coming up into depth k gives
      the root's hash. */
  lemma {:induction false} FoldsToRoot(H: Hasher, route: seq<Node>, hex: string, value: string, k: nat)
    requires Folds(H, route, hex, value) && k <= |route|
    ensures LevelsOk(RouteLevelsOf(route, hex, k))
    ensures FoldLevels(H, RouteLevelsOf(route, hex, k), UpHash(H, route, k, value)) == UpHash(H, route, 0, value)
  {
    if k > 0 {
      FoldsToRoot(H, route, hex, value, k - 1);
      assert LinkAt(H, route, hex, value, k - 1);
      FoldStep(H, RouteLevelsOf(route, hex, k - 1), Level(Hti(hex[k - 1]), route[k - 1].hashes), UpHash(H, route, k, value));
    }
  }

  /** What update leaves behind for key spos, value and route. */
  ghost predicate Updated(H: Hasher, store: map<string, string>, n: nat, spos: string, value: string, route: seq<Node>) {
    IndexKey(spos) in store && store[IndexKey(spos)] in store && store[store[IndexKey(spos)]] == "!" + value
    && Path(H, store, route, store[IndexKey(spos)], value, n)
  }

  /** The round trip: right after update(spos, value), gen_proof(spos) is
      accepted by verify_proof with that value against the new digest. */
  lemma {:induction false} UpdatedVerifies(H: Hasher, store: map<string, string>, n: nat, spos: string, value: string, route: seq<Node>, digest: string)
    requires Updated(H, store, n, spos, value, route) && digest == NodeHash(H, route[0])
    ensures ProofReady(store, n, spos) && Verify(H, digest, value, ProofOf(store, n, spos))
  {
    var hex := store[IndexKey(spos)];
    PathFolds(H, store, route, hex, value, n);
    FoldsToRoot(H, route, hex, value, |route|);
    LevelsAgree(store, route, hex, |route|);
    VerifyPathComplete(H, digest, value, LevelsTo(store, hex, |route|));
  }

  // ---------------------------------------------------------------------
  // The tree

  /** A fresh store holds only the empty root: a branch with no children
      for every branch key, and its hash is the hash of nothing. */
  lemma {:induction false} EmptyStore(H: Hasher, height: nat)
    ensures Branches(map[RootKey := ""], height) && Indexes(map[RootKey := ""], 0, height)
    ensures Shaped(map[RootKey := ""], 0, height)
    ensures NodeHash(H, Read(map[RootKey := ""], RootKey)) == Hash(H, "")
  {
    EmptyStoreShaped(height);
    EmptyRootDigest(H);
  }

  /** A fresh store has every branch empty and no index records. */
  lemma {:induction false} EmptyStoreShaped(height: nat)
    ensures Branches(map[RootKey := ""], height) && Indexes(map[RootKey := ""], 0, height)
    ensures Shaped(map[RootKey := ""], 0, height)
  {
    var store := map[RootKey := ""];
    forall k | IsBranchKey(k, height)
      ensures |ReadOr(store, k, "")| == 64 * Children(k, 0)
    {
      assert ReadOr(store, k, "") == "";
      assert Filled(KeyValue(k), 1, 0, 0) == 0;
    }
  }

  /** The empty root's sixteen blank hashes hash as nothing. */
  lemma {:induction false} EmptyRootDigest(H: Hasher)
    ensures NodeHash(H, Read(map[RootKey := ""], RootKey)) == Hash(H, "")
  {
    var hs := Read(map[RootKey := ""], RootKey).hashes;
    assert hs == Blanks(16);
    RatTree.JoinEmpty(Sixteen(hs));
  }

  /** A new index record leaves the branches as they were and counts one
      index more. */
  lemma {:induction false} IndexAdded(store: map<string, string>, n: nat, height: nat, spos: string, hex: string)
    requires 0 < height && n < Pow(16, height) && Branches(store, height) && Indexes(store, n, height) && Shaped(store, n, height)
    requires |hex| == height && IsUpperHex(hex) && HexValueLsb(hex) == n
    ensures Placeable(store[IndexKey(spos) := hex], n + 1, height, hex, true)
  {
    var st := store[IndexKey(spos) := hex];
    assert IsIndexKey(IndexKey(spos));
    forall k | IsBranchKey(k, height)
      ensures ReadOr(st, k, "") == ReadOr(store, k, "")
    {
      assert k != IndexKey(spos);
    }
  }

  /** A key's index already in the store is one update can walk. */
  lemma {:induction false} IndexKnown(store: map<string, string>, n: nat, height: nat, spos: string)
    requires 0 < height && n <= Pow(16, height) && Branches(store, height) && Indexes(store, n, height) && Shaped(store, n, height)
    requires ReadOr(store, IndexKey(spos), "") != ""
    ensures IndexKey(spos) in store && Placeable(store, n, height, store[IndexKey(spos)], false)
    ensures store[IndexKey(spos) := store[IndexKey(spos)]] == store
  {
    assert IsIndexKey(IndexKey(spos));
  }

  /** After update the root's record is the head of the route. */
  lemma {:induction false} RootIsRoute(H: Hasher, store: map<string, string>, n: nat, hex: string, value: string, route: seq<Node>)
    requires Path(H, store, route, hex, value, n)
    ensures Read(store, RootKey) == route[0]
  {
    assert Link(H, route, 0, hex, value, 0);
    ParsePrinted(route[0]);
  }

  /** The end of update: the root read back is the head of the route, and
      the key's index record is untouched by the writes along the path. */
  lemma {:induction false} UpdateDone(H: Hasher, before: map<string, string>, store: map<string, string>, n: nat,
                                      spos: string, hex: string, value: string, route: seq<Node>)
    requires Path(H, store, route, hex, value, n) && hex in store && store[hex] == "!" + value
    requires Framed(before, store, hex, |route|) && IndexKey(spos) in before && before[IndexKey(spos)] == hex
    ensures Read(store, RootKey) == route[0]
    ensures IndexKey(spos) in store && store[IndexKey(spos)] == hex
    ensures Updated(H, store, n, spos, value, route)
  {
    RootIsRoute(H, store, n, hex, value, route);
    var k := IndexKey(spos);
    assert k[0] == '?' && k != RootKey;
    assert 0 < |hex| && IsUpperHexChar(hex[0]);
    assert 1 <= |k| <= |hex| ==> hex[..|k|][0] == hex[0] != k[0];
    assert k != hex && !OnPath(k, hex, 0, |route|);
  }

  /** FatMint: the store, the root digest and the count of indices handed
      out. */
  class FatMint {
    const H: Hasher
    const height: nat
    var store: map<string, string>
    var digest: string
    var numLeaf: nat

    /** The store is well formed and shaped for numLeaf indices, and the
        digest is the root's hash. */
    ghost predicate Valid()
      reads this
    {
      0 < height && numLeaf <= Pow(16, height)
      && Indexes(store, numLeaf, height) && Branches(store, height) && Shaped(store, numLeaf, height)
      && digest == NodeHash(H, Read(store, RootKey))
    }

    constructor(H: Hasher, height: nat)
      ensures this.H == H && this.height == height && numLeaf == 0 && digest == "" && store == map[]
    {
      this.H := H;
      this.height := height;
      numLeaf := 0;
      digest := "";
      store := map[];
    }

    /** init: with a fresh store, write the empty root; the digest is the
        hash of nothing. */
    method Init(dbOpened: bool, createDb: bool) returns (ok: bool)
      modifies this`store, this`digest
      ensures ok == dbOpened
      ensures ok && createDb ==> store == map[RootKey := ""] && digest == Hash(H, "")
      ensures ok && createDb && 0 < height && numLeaf == 0 ==> Valid()
      ensures !(ok && createDb) ==> store == old(store) && digest == old(digest)
    {
      if !dbOpened {
        return false;
      }
      if createDb {
        EmptyStore(H, height);
        store := map[RootKey := ""];
        digest := Hash(H, "");
      }
      ok := true;
    }

    /** update: a key seen for the first time gets the next index; then
        the leaf is written under the index, a branch split off where two
        indices meet, and the branches passed rewritten from the bottom up,
        the root's hash becoming the digest. Only the index record, the
        leaf and the branches on the index's path change. */
    method Update(spos: string, value: string) returns (ghost route: seq<Node>)
      requires Valid()
      requires IndexKey(spos) !in store ==> numLeaf < Pow(16, height)
      modifies this`store, this`digest, this`numLeaf
      ensures Valid()
      ensures Updated(H, store, numLeaf, spos, value, route) && digest == NodeHash(H, route[0])
      ensures IndexKey(spos) in old(store) ==> numLeaf == old(numLeaf) && store[IndexKey(spos)] == old(store)[IndexKey(spos)]
      ensures IndexKey(spos) !in old(store) ==> numLeaf == old(numLeaf) + 1 && store[IndexKey(spos)] == PaddedHex(old(numLeaf), height)
      ensures var hex := store[IndexKey(spos)]; Framed(old(store)[IndexKey(spos) := hex], store, hex, |route|)
    {
      var hex, isNew := TakeIndex(spos);
      ghost var before := store;
      var up;
      store, up, route := Place(H, height, store, numLeaf, hex, isNew, value);
      digest := up;
      UpdateDone(H, before, store, numLeaf, spos, hex, value, route);
    }

    /** The first part of update: the key's index, read from the store or,
        for a key seen for the first time, the next one, written there. */
    method TakeIndex(spos: string) returns (hex: string, isNew: bool)
      requires Valid()
      requires IndexKey(spos) !in store ==> numLeaf < Pow(16, height)
      modifies this`store, this`numLeaf
      ensures Placeable(store, numLeaf, height, hex, isNew)
      ensures IndexKey(spos) in store && store[IndexKey(spos)] == hex
      ensures isNew == (IndexKey(spos) !in old(store)) && store == old(store)[IndexKey(spos) := hex]
      ensures isNew ==> numLeaf == old(numLeaf) + 1 && hex == PaddedHex(old(numLeaf), height)
      ensures !isNew ==> numLeaf == old(numLeaf) && old(store)[IndexKey(spos)] == hex
    {
      hex := ReadOr(store, IndexKey(spos), "");
      isNew := false;
      if hex == "" {
        hex := IntToHexPadded(numLeaf, height);
        IndexAdded(store, numLeaf, height, spos, hex);
        store := store[IndexKey(spos) := hex];
        numLeaf := numLeaf + 1;
        isNew := true;
      } else {
        IndexKnown(store, numLeaf, height, spos);
      }
    }

    /** gen_proof: "?" for a key without an index, otherwise the records
        of the branches from the root down to where hex's index is alone. */
    method GenProof(spos: string) returns (proof: string)
      requires Valid()
      ensures ProofReady(store, numLeaf, spos) && proof == ProofOf(store, numLeaf, spos)
    {
      var hex := ReadOr(store, IndexKey(spos), "");
      if hex == "" {
        return "?";
      }
      assert IsIndexKey(IndexKey(spos));
      proof := WalkProof(store, hex, numLeaf);
    }

    /** verify_proof; the key argument is not used. */
    method VerifyProof(spos: string, value: string, proof: string) returns (ok: bool)
      ensures ok == Verify(H, digest, value, proof)
    {
      ok := Proof16.VerifyProof(H, digest, value, proof);
    }
  }
}
