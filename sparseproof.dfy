// The proof format of the binary trees of sparse.hpp: gen_proof emits,
// root first, one 65-character record per branch passed: '0' when the path
// takes the left child and '1' when it takes the right, then the other
// child's hash, null64 standing for an empty one. verify_proof folds the
// records from the end of the string.
module SparseProofs {
  import opened Tools
  import Proof16

  /** One record: a side and one 64-character hash. */
  const StepLen: int := 65

  /** One branch on a proof path: the side the path takes and the hash on
      the other side. */
  datatype Step = Step(left: bool, sibling: string)

  /** Every sibling is empty or a hash a proof can carry. */
  predicate StepsOk(steps: seq<Step>) {
    forall k :: 0 <= k < |steps| ==> Proof16.ChildHashOk(steps[k].sibling)
  }

  /** The record gen_proof emits for one branch. */
  function StepRecord(s: Step): (r: string)
    ensures |r| == 1 + |Proof16.Entry(s.sibling)|
  {
    (if s.left then "0" else "1") + Proof16.Entry(s.sibling)
  }

  /** The proof for a path, root first. */
  function PathProof(steps: seq<Step>): string {
    if steps == [] then "" else PathProof(steps[..|steps| - 1]) + StepRecord(steps[|steps| - 1])
  }

  /** The hash of a branch that has key on the side the step takes. */
  function StepHash(H: Hasher, s: Step, key: string): string {
    Hash(H, if s.left then key + s.sibling else s.sibling + key)
  }

  /** What verify_proof computes from a path: hash the deepest branch with
      key on its side, then each branch above with the result on its side. */
  function FoldSteps(H: Hasher, steps: seq<Step>, key: string): string {
    if steps == [] then key else FoldSteps(H, steps[..|steps| - 1], StepHash(H, steps[|steps| - 1], key))
  }

  /** What verify_proof takes as the sibling of the record at i: the 64
      characters after its side, nothing when they start with '@'. */
  function SiblingAt(proof: string, i: int): string {
    var s := Proof16.Chunk(proof, i + 1);
    if Proof16.CharAt(s, 0) == '@' then "" else s
  }

  /** The fold of verify_proof: from the record at i down to the first;
      any side character other than '0' counts as right. */
  function Fold(H: Hasher, proof: string, i: int, key: string): string
    decreases if i < 0 then 0 else i + 1
  {
    if i < 0 then key
    else
      var s := SiblingAt(proof, i);
      Fold(H, proof, i - StepLen, Hash(H, if Proof16.CharAt(proof, i) == '0' then key + s else s + key))
  }

  /** verify_proof: a proof starting with '?' is accepted outright; any other
      is folded from the value's hash and must end at the digest. The key
      argument is not used. */
  predicate Verify(H: Hasher, digest: string, value: string, proof: string) {
    Proof16.CharAt(proof, 0) == '?' || Fold(H, proof, |proof| - StepLen, Hash(H, value)) == digest
  }

  method VerifyProof(H: Hasher, digest: string, value: string, proof: string) returns (ok: bool)
    ensures ok == Verify(H, digest, value, proof)
  {
    if Proof16.CharAt(proof, 0) == '?' {
      return true;
    }
    var key := Hash(H, value);
    var i := |proof| - StepLen;
    while i >= 0
      invariant i >= -StepLen
      invariant Fold(H, proof, i, key) == Fold(H, proof, |proof| - StepLen, Hash(H, value))
      decreases i + StepLen
    {
      var s := Proof16.Chunk(proof, i + 1);
      if Proof16.CharAt(s, 0) == '@' {
        s := "";
      }
      assert s == SiblingAt(proof, i) && proof[i] == Proof16.CharAt(proof, i);
      key := Hash(H, if proof[i] == '0' then key + s else s + key);
      i := i - StepLen;
    }
    ok := key == digest;
  }

  lemma {:induction false} PathProofLength(steps: seq<Step>)
    requires StepsOk(steps)
    ensures |PathProof(steps)| == StepLen * |steps|
  {
    if steps != [] {
      var init := steps[..|steps| - 1];
      assert StepsOk(init) by {
        forall k | 0 <= k < |init| ensures Proof16.ChildHashOk(init[k].sibling) {
          assert init[k] == steps[k];
        }
      }
      PathProofLength(init);
      Proof16.EntryLength(steps[|steps| - 1].sibling);
    }
  }

  /** verify_proof reads the record of a step back: its side, and the
      sibling it carries. */
  lemma {:induction false} ReadStep(H: Hasher, proof: string, start: nat, s: Step, key: string)
    requires Proof16.ChildHashOk(s.sibling)
    requires start + StepLen <= |proof| && proof[start .. start + StepLen] == StepRecord(s)
    ensures Fold(H, proof, start, key) == Fold(H, proof, start - StepLen, StepHash(H, s, key))
  {
    var r := StepRecord(s);
    Proof16.EntryLength(s.sibling);
    assert proof[start] == r[0];
    var chunk := Proof16.Chunk(proof, start + 1);
    assert chunk == proof[start + 1 .. start + StepLen];
    assert chunk == r[1..] == Proof16.Entry(s.sibling);
    if s.sibling == "" {
      assert chunk[0] == '@';
    } else {
      assert chunk[0] == s.sibling[0];
    }
    assert SiblingAt(proof, start) == s.sibling;
  }

  /** verify_proof reads a path's proof back as the fold over its steps,
      whatever follows it. */
  lemma {:induction false} FoldPath(H: Hasher, steps: seq<Step>, proof: string, key: string, i: int)
    requires StepsOk(steps) && i == StepLen * |steps| - StepLen
    requires |PathProof(steps)| <= |proof| && proof[..|PathProof(steps)|] == PathProof(steps)
    ensures Fold(H, proof, i, key) == FoldSteps(H, steps, key)
    decreases |steps|
  {
    if steps != [] {
      StepsInit(steps);
      LastRecord(steps, proof);
      ReadStep(H, proof, i, steps[|steps| - 1], key);
      FoldPath(H, steps[..|steps| - 1], proof, StepHash(H, steps[|steps| - 1], key), i - StepLen);
    }
  }

  /** The steps before the last one can be carried too. */
  lemma {:induction false} StepsInit(steps: seq<Step>)
    requires StepsOk(steps) && steps != []
    ensures StepsOk(steps[..|steps| - 1])
  {
    var init := steps[..|steps| - 1];
    forall k | 0 <= k < |init| ensures Proof16.ChildHashOk(init[k].sibling) {
      assert init[k] == steps[k];
    }
  }

  /** A path's proof is the proof of the steps before the last, then the
      last step's record. */
  lemma {:induction false} LastRecord(steps: seq<Step>, proof: string)
    requires StepsOk(steps) && steps != [] && StepsOk(steps[..|steps| - 1])
    requires |PathProof(steps)| <= |proof| && proof[..|PathProof(steps)|] == PathProof(steps)
    ensures var pre := PathProof(steps[..|steps| - 1]);
      |pre| <= |proof| && proof[..|pre|] == pre && |pre| == StepLen * (|steps| - 1)
      && Proof16.ChildHashOk(steps[|steps| - 1].sibling)
      && |pre| + StepLen <= |proof| && proof[|pre| .. |pre| + StepLen] == StepRecord(steps[|steps| - 1])
  {
    var init, s := steps[..|steps| - 1], steps[|steps| - 1];
    var pre := PathProof(init);
    PathProofLength(init);
    Proof16.EntryLength(s.sibling);
    assert PathProof(steps) == pre + StepRecord(s);
    HeadParts(proof, pre, StepRecord(s));
  }

  /** A string that starts with a + b starts with a, and b follows it. */
  lemma {:induction false} HeadParts(proof: string, a: string, b: string)
    requires |a + b| <= |proof| && proof[..|a + b|] == a + b
    ensures proof[..|a|] == a && proof[|a| .. |a| + |b|] == b
  {
    assert proof[..|a + b|][..|a|] == proof[..|a|];
    assert proof[..|a + b|][|a| .. |a| + |b|] == proof[|a| .. |a| + |b|];
  }

  /** verify_proof accepts the proof of a path whose fold from the value's
      hash reaches the digest. */
  lemma {:induction false} VerifyPathComplete(H: Hasher, digest: string, value: string, steps: seq<Step>)
    requires StepsOk(steps)
    requires FoldSteps(H, steps, Hash(H, value)) == digest
    ensures Verify(H, digest, value, PathProof(steps))
  {
    WholePrefix(PathProof(steps));
    PathProofLength(steps);
    FoldPath(H, steps, PathProof(steps), Hash(H, value), |PathProof(steps)| - StepLen);
  }

  /** A string is its own longest prefix. */
  lemma {:induction false} WholePrefix(s: string)
    ensures s[..|s|] == s
  {
  }

  /** Folding a path whose first step is s: the rest first, then s. */
  lemma {:induction false} FoldStepsPrepend(H: Hasher, s: Step, rest: seq<Step>, key: string)
    ensures FoldSteps(H, [s] + rest, key) == StepHash(H, s, FoldSteps(H, rest, key))
    decreases |rest|
  {
    var all := [s] + rest;
    if rest != [] {
      var init := rest[..|rest| - 1];
      FoldStepsPrepend(H, s, init, StepHash(H, rest[|rest| - 1], key));
      assert all[..|all| - 1] == [s] + init;
      assert all[|all| - 1] == rest[|rest| - 1];
    }
  }

  /** Emitting one more record extends the proof by that step. */
  lemma {:induction false} PathProofAppend(steps: seq<Step>, s: Step)
    ensures PathProof(steps + [s]) == PathProof(steps) + StepRecord(s)
  {
    assert (steps + [s])[..|steps|] == steps;
  }
}
