// DupTreePlus (duptree_plus.hpp): a P-ary tree of blocks, P = 2^base_height.
// Block 1 is the root and block id's children are (id - 1) * P + 2 + i for
// i < P. Blocks from num_blocks on are leaf blocks, each a base tree over Pl
// positions; every other block is a base tree over P positions whose values
// are its children's digests. update and gen_proof walk from the leaf block
// that holds a position up to block 1. The base trees themselves are given
// as functions: the proof a block's tree emits for a local position, and the
// digest a block's tree has after an update.
module DupPlus {
  import opened Tools

  /** The i-th child of block id. */
  function ChildBlock(P: int, id: int, i: int): int {
    (id - 1) * P + 2 + i
  }

  /** The parent of block id, (id - 2) / P + 1; for id >= 2 the truncating
      division of C++ and Dafny's agree. */
  function ParentBlock(P: int, id: int): int
    requires P >= 1 && id >= 2
  {
    (id - 2) / P + 1
  }

  /** Division by P of q * P + i with 0 <= i < P. */
  lemma {:induction false} DivideExactly(P: int, q: int, i: int)
    requires P >= 1 && 0 <= i < P
    ensures (q * P + i) / P == q && (q * P + i) % P == i
  {
    var a := q * P + i;
    var d, r := a / P, a % P;
    assert d * P + r == q * P + i;
    if d > q {
      assert d * P >= (q + 1) * P by { MulMono(P, q + 1, d); }
      assert false;
    } else if d < q {
      assert q * P >= (d + 1) * P by { MulMono(P, d + 1, q); }
      assert false;
    }
  }

  lemma {:induction false} MulMono(P: int, a: int, b: int)
    requires P >= 1 && a <= b
    ensures a * P <= b * P
  {
    assert b * P - a * P == (b - a) * P;
  }

  /** The parent of a block's child is the block. */
  lemma {:induction false} ParentOfChild(P: int, id: int, i: int)
    requires P >= 1 && id >= 1 && 0 <= i < P
    ensures ChildBlock(P, id, i) >= 2 && ParentBlock(P, ChildBlock(P, id, i)) == id
    ensures (ChildBlock(P, id, i) - 2) % P == i
  {
    assert ChildBlock(P, id, i) - 2 == (id - 1) * P + i;
    DivideExactly(P, id - 1, i);
  }

  /** Every block but the root is a child of its parent, the one at
      (id - 2) % P, and lies after it. */
  lemma {:induction false} ChildOfParent(P: int, id: int)
    requires P >= 1 && id >= 2
    ensures 1 <= ParentBlock(P, id) < id
    ensures ChildBlock(P, ParentBlock(P, id), (id - 2) % P) == id
  {
    var q, r := (id - 2) / P, (id - 2) % P;
    assert id - 2 == q * P + r;
    if q >= 1 {
      MulMono(P, 1, q);
    }
  }

  // ---------------------------------------------------------------------
  // The walk of update and gen_proof

  /** The fan-out of block id: Pl for a leaf block, P otherwise. */
  function FanOut(P: int, Pl: int, numBlocks: int, id: int): int {
    if id >= numBlocks then Pl else P
  }

  /** The (block, local position) pairs the loop visits from block id with
      position pos: the block takes pos mod its fan-out, its parent the
      quotient; the walk ends at block 1. */
  function Route(P: int, Pl: int, numBlocks: int, id: int, pos: int): seq<(int, int)>
    requires P >= 1 && Pl >= 1 && id >= 1 && pos >= 0
    decreases id
  {
    var f := FanOut(P, Pl, numBlocks, id);
    [(id, pos % f)] + (if id == 1 then [] else ParentBelow(P, id); Route(P, Pl, numBlocks, ParentBlock(P, id), pos / f))
  }

  /** The parent of a block other than the root has a smaller id. */
  lemma {:induction false} ParentBelow(P: int, id: int)
    requires P >= 1 && id >= 2
    ensures 1 <= ParentBlock(P, id) < id
  {
    ChildOfParent(P, id);
  }

  /** The route climbs parent by parent from its first block to block 1,
      each block being its successor's child, and each local position lies
      inside its block. */
  lemma {:induction false} RouteClimbs(P: int, Pl: int, numBlocks: int, id: int, pos: int)
    requires P >= 1 && Pl >= 1 && id >= 1 && pos >= 0
    ensures var r := Route(P, Pl, numBlocks, id, pos);
      |r| >= 1 && r[0].0 == id && r[|r| - 1].0 == 1
      && (forall k :: 0 <= k < |r| ==> 0 <= r[k].1 < FanOut(P, Pl, numBlocks, r[k].0))
      && (forall k :: 0 <= k < |r| - 1 ==>
            r[k].0 >= 2 && r[k + 1].0 == ParentBlock(P, r[k].0)
            && ChildBlock(P, r[k + 1].0, (r[k].0 - 2) % P) == r[k].0)
    decreases id
  {
    var r := Route(P, Pl, numBlocks, id, pos);
    if id != 1 {
      var f := FanOut(P, Pl, numBlocks, id);
      ChildOfParent(P, id);
      RouteClimbs(P, Pl, numBlocks, ParentBlock(P, id), pos / f);
      var rest := Route(P, Pl, numBlocks, ParentBlock(P, id), pos / f);
      assert r == [(id, pos % f)] + rest;
      forall k | 1 <= k < |r|
        ensures r[k] == rest[k - 1]
      {
      }
    }
  }

  /** gen_proof's output: the blocks' proofs along the route, in order. */
  function Joined(route: seq<(int, int)>, proof: (int, int) -> string): string {
    if route == [] then "" else proof(route[0].0, route[0].1) + Joined(route[1..], proof)
  }

  /** update's climb: each block takes the value at its local position and
      its new digest is the value passed to its parent. */
  function Climb(route: seq<(int, int)>, v: string, update: (int, int, string) -> string): string {
    if route == [] then v else Climb(route[1..], update(route[0].0, route[0].1, v), update)
  }

  /** One step of the walk: block id's part, then the rest from its parent. */
  lemma {:induction false} JoinedStep(P: int, Pl: int, numBlocks: int, id: int, pos: int, proof: (int, int) -> string)
    requires P >= 1 && Pl >= 1 && id >= 2 && pos >= 0
    ensures ParentBlock(P, id) >= 1 && pos / FanOut(P, Pl, numBlocks, id) >= 0
    ensures Joined(Route(P, Pl, numBlocks, id, pos), proof)
      == proof(id, pos % FanOut(P, Pl, numBlocks, id))
         + Joined(Route(P, Pl, numBlocks, ParentBlock(P, id), pos / FanOut(P, Pl, numBlocks, id)), proof)
  {
    ChildOfParent(P, id);
    var r := Route(P, Pl, numBlocks, id, pos);
    assert r[1..] == Route(P, Pl, numBlocks, ParentBlock(P, id), pos / FanOut(P, Pl, numBlocks, id));
  }

  lemma {:induction false} ClimbStep(P: int, Pl: int, numBlocks: int, id: int, pos: int, v: string, update: (int, int, string) -> string)
    requires P >= 1 && Pl >= 1 && id >= 2 && pos >= 0
    ensures ParentBlock(P, id) >= 1 && pos / FanOut(P, Pl, numBlocks, id) >= 0
    ensures Climb(Route(P, Pl, numBlocks, id, pos), v, update)
      == Climb(Route(P, Pl, numBlocks, ParentBlock(P, id), pos / FanOut(P, Pl, numBlocks, id)),
               update(id, pos % FanOut(P, Pl, numBlocks, id), v), update)
  {
    ChildOfParent(P, id);
    var r := Route(P, Pl, numBlocks, id, pos);
    assert r[1..] == Route(P, Pl, numBlocks, ParentBlock(P, id), pos / FanOut(P, Pl, numBlocks, id));
  }

  /** The walk at block 1 is block 1's part alone. */
  lemma {:induction false} RootStep(P: int, Pl: int, numBlocks: int, pos: int, v: string,
                                    proof: (int, int) -> string, update: (int, int, string) -> string)
    requires P >= 1 && Pl >= 1 && pos >= 0
    ensures Joined(Route(P, Pl, numBlocks, 1, pos), proof) == proof(1, pos % FanOut(P, Pl, numBlocks, 1))
    ensures Climb(Route(P, Pl, numBlocks, 1, pos), v, update) == update(1, pos % FanOut(P, Pl, numBlocks, 1), v)
  {
    var r := Route(P, Pl, numBlocks, 1, pos);
    assert r == [(1, pos % FanOut(P, Pl, numBlocks, 1))];
    assert r[1..] == [];
  }

  /** gen_proof(pos): from leaf block pos / Pl + num_blocks up to block 1,
      each block's proof for its local position. */
  method GenProof(P: int, Pl: int, numBlocks: int, pos: int, proof: (int, int) -> string)
    returns (output: string)
    requires P >= 1 && Pl >= 1 && numBlocks >= 1 && pos >= 0
    ensures output == Joined(Route(P, Pl, numBlocks, pos / Pl + numBlocks, pos), proof)
  {
    ghost var whole := Joined(Route(P, Pl, numBlocks, pos / Pl + numBlocks, pos), proof);
    output := "";
    var id, p := pos / Pl + numBlocks, pos;
    while id != 1
      invariant id >= 1 && p >= 0
      invariant output + Joined(Route(P, Pl, numBlocks, id, p), proof) == whole
      decreases id
    {
      var f := FanOut(P, Pl, numBlocks, id);
      JoinedStep(P, Pl, numBlocks, id, p, proof);
      ChildOfParent(P, id);
      output := output + proof(id, p % f);
      id, p := ParentBlock(P, id), p / f;
    }
    RootStep(P, Pl, numBlocks, p, "", proof, (_, _, v) => v);
    output := output + proof(1, p % FanOut(P, Pl, numBlocks, 1));
  }

  /** update(pos, value): the climb from the leaf block; the digest is what
      block 1 ends with. */
  method Update(P: int, Pl: int, numBlocks: int, pos: int, value: string, update: (int, int, string) -> string)
    returns (digest: string)
    requires P >= 1 && Pl >= 1 && numBlocks >= 1 && pos >= 0
    ensures digest == Climb(Route(P, Pl, numBlocks, pos / Pl + numBlocks, pos), value, update)
  {
    ghost var whole := Climb(Route(P, Pl, numBlocks, pos / Pl + numBlocks, pos), value, update);
    var v := value;
    var id, p := pos / Pl + numBlocks, pos;
    while id != 1
      invariant id >= 1 && p >= 0
      invariant Climb(Route(P, Pl, numBlocks, id, p), v, update) == whole
      decreases id
    {
      var f := FanOut(P, Pl, numBlocks, id);
      ClimbStep(P, Pl, numBlocks, id, p, v, update);
      ChildOfParent(P, id);
      v := update(id, p % f, v);
      id, p := ParentBlock(P, id), p / f;
    }
    RootStep(P, Pl, numBlocks, p, v, (_, _) => "", update);
    digest := update(1, p % FanOut(P, Pl, numBlocks, 1), v);
  }

  // ---------------------------------------------------------------------
  // The shape the constructor computes

  /** 1 + P + .. + P^(d-1): the number of blocks above depth d. */
  function Above(P: nat, d: nat): nat {
    if d == 0 then 0 else Above(P, d - 1) * P + 1
  }

  /** The first block on depth d is Above(P, d) + 1: the leftmost child of
      the first block on depth d - 1. */
  lemma {:induction false} FirstOnDepth(P: nat, d: nat)
    requires P >= 1 && d >= 1
    ensures ChildBlock(P, Above(P, d - 1) + 1, 0) == Above(P, d) + 1
  {
  }

  /** P^d - 1 == (P - 1) * Above(P, d). */
  lemma {:induction false} AboveGeometric(P: nat, d: nat)
    ensures Pow(P, d) - 1 == (P - 1) * Above(P, d)
  {
    if d > 0 {
      AboveGeometric(P, d - 1);
      var a, t := Above(P, d - 1), Pow(P, d - 1);
      var x := (P - 1) * a;
      assert t == x + 1;
      assert Pow(P, d) == P * t;
      assert Above(P, d) == a * P + 1;
      GeometricStep(P, a, x);
    }
  }

  lemma {:induction false} GeometricStep(P: int, a: int, x: int)
    requires x == (P - 1) * a
    ensures P * (x + 1) - 1 == (P - 1) * (a * P + 1)
  {
    assert (P - 1) * (a * P) == x * P;
  }

  /** num_blocks = (P^k - P) / (P * (P - 1)) + 1, with k levels of blocks
      (k = height / base_height, or one more when base_height does not divide
      height), is the id of the first leaf block, the first on depth k - 1. */
  lemma {:induction false} NumBlocksIsFirstLeafBlock(P: nat, k: nat)
    requires P >= 2 && k >= 1
    ensures (Pow(P, k) - P) / (P * (P - 1)) + 1 == Above(P, k - 1) + 1
  {
    AboveGeometric(P, k - 1);
    var a, t, q := Above(P, k - 1), Pow(P, k - 1), P * (P - 1);
    assert Pow(P, k) == P * t;
    assert t - 1 == (P - 1) * a;
    ScaledGeometric(P, a, t, q);
    MulMono(P, 1, P - 1);
    DivideExactly(q, a, 0);
  }

  lemma {:induction false} ScaledGeometric(P: int, a: int, t: int, q: int)
    requires t - 1 == (P - 1) * a && q == P * (P - 1)
    ensures P * t - P == a * q + 0
  {
    assert P * t - P == P * (t - 1);
  }

  /** The constructor: P = 2^base_height; Pl and num_blocks from whether
      base_height divides height. */
  function Shape(height: nat, baseHeight: nat): (r: (nat, nat, int))
    requires baseHeight >= 1
    ensures r.0 == Pow(2, baseHeight) && r.1 >= 1
  {
    var P := Pow(2, baseHeight);
    if height % baseHeight == 0 then
      (P, P, (Pow(2, height) - P) / (P * (P - 1)) + 1)
    else
      (P, Pow(2, height % baseHeight), (Pow(2, (height / baseHeight + 1) * baseHeight) - P) / (P * (P - 1)) + 1)
  }
}
