// The part every binary Merkle-style tree shares (mem_checker.hpp): leaf
// count, proof verification and the digest.
module MemChecker {
  import opened Results
  import opened Tools

  /** num_leaf = 1 << height. */
  function NumLeaf(height: nat): (n: nat)
    ensures n >= 1
  {
    Pow(2, height)
  }

  /** id / 2 * 4 + 1 - id: the other child of id's parent. */
  function SiblingId(id: int): int {
    id / 2 * 4 + 1 - id
  }

  /** The sibling formula flips the lowest bit: same parent, other parity. */
  lemma {:induction false} SiblingFlipsLowestBit(id: int)
    requires id >= 0
    ensures SiblingId(id) == (if id % 2 == 0 then id + 1 else id - 1)
    ensures SiblingId(id) / 2 == id / 2 && SiblingId(id) % 2 != id % 2
    ensures SiblingId(SiblingId(id)) == id
  {
  }

  /** A node's hash from its own hash `key` and its sibling's hash `s`: an even
      id is a left child. For positive id, id & 1 is id % 2. */
  function Combine(H: Hasher, id: int, key: string, s: string): string {
    if id % 2 == 0 then Hash(H, key + s) else Hash(H, s + key)
  }

  /** The value verify_proof's loop ends with: starting at id with `key`,
      combine with the 64-character chunk at offset i while id >= 2. */
  function VerifyFold(H: Hasher, id: int, i: nat, key: string, proof: string): Result<string>
    decreases id
  {
    if id < 2 then Ok(key)
    else match Substr(proof, i, 64)
      case None => Err(OutOfRange)
      case Some(s) => VerifyFold(H, id / 2, i + 64, Combine(H, id, key, s), proof)
  }

  /** The chunk right after `pre` is what substr reads at offset |pre|. */
  lemma {:induction false} ChunkAt(pre: string, s: string, rest: string)
    requires |s| == 64
    ensures Substr(pre + s + rest, |pre|, 64) == Some(s)
  {
    assert (pre + s + rest)[|pre| .. |pre| + 64] == s;
  }

  /** The number of times the loop runs from id. */
  function Steps(id: int): nat
    decreases id
  {
    if id < 2 then 0 else 1 + Steps(id / 2)
  }

  /** verify_proof: accept iff the fold ends at the digest; a proof too short
      for the walk makes substr throw. */
  method VerifyProof(H: Hasher, numLeaf: int, digest: string, pos: int, value: string, proof: string)
    returns (r: Result<bool>)
    ensures r.Ok? <==> VerifyFold(H, pos + numLeaf, 0, value, proof).Ok?
    ensures r.Ok? ==> (r.value <==> VerifyFold(H, pos + numLeaf, 0, value, proof).value == digest)
  {
    var key := value;
    var i: nat := 0;
    var id := pos + numLeaf;
    while id >= 2
      invariant VerifyFold(H, id, i, key, proof) == VerifyFold(H, pos + numLeaf, 0, value, proof)
      decreases id
    {
      var s := Substr(proof, i, 64);
      if s.None? {
        return Err(OutOfRange);
      }
      key := Combine(H, id, key, s.value);
      i := i + 64;
      id := id / 2;
    }
    return Ok(key == digest);
  }

  /** A leaf id lies on level `height`: the loop runs exactly height times. */
  lemma {:induction false} LeafDepth(id: int, height: nat)
    requires Pow(2, height) <= id < Pow(2, height + 1)
    ensures Steps(id) == height
  {
    if height > 0 {
      assert Pow(2, height) == 2 * Pow(2, height - 1);
      LeafDepth(id / 2, height - 1);
    }
  }

  /** Hence verification reads exactly the first 64 * height characters of the
      proof: it succeeds on any proof at least that long, and what follows
      them changes nothing. */
  lemma {:induction false} VerifyFoldReadsSteps(H: Hasher, id: int, i: nat, key: string, proof: string, rest: string)
    requires i + 64 * Steps(id) <= |proof|
    ensures VerifyFold(H, id, i, key, proof).Ok?
    ensures VerifyFold(H, id, i, key, proof) == VerifyFold(H, id, i, key, proof + rest)
    decreases id
  {
    if id >= 2 {
      var s := proof[i .. i + 64];
      assert Substr(proof, i, 64) == Some(s);
      assert (proof + rest)[i .. i + 64] == s;
      assert Substr(proof + rest, i, 64) == Some(s);
      VerifyFoldReadsSteps(H, id / 2, i + 64, Combine(H, id, key, s), proof, rest);
    }
  }

  /** For a position inside the tree, a proof of 64 * height characters is
      read completely and never makes verification throw. */
  lemma {:induction false} VerifyConsumesHeightChunks(H: Hasher, height: nat, pos: int, value: string, proof: string)
    requires 0 <= pos < NumLeaf(height)
    requires |proof| == 64 * height
    ensures Steps(pos + NumLeaf(height)) == height
    ensures VerifyFold(H, pos + NumLeaf(height), 0, value, proof).Ok?
  {
    LeafDepth(pos + NumLeaf(height), height);
    VerifyFoldReadsSteps(H, pos + NumLeaf(height), 0, value, proof, "");
  }
}
