// The 16-ary proof format shared by the RatTree family (rattree.hpp) and
// FatTree / FatMint (fattree.hpp). gen_proof emits, root first, one record
// per branch on the path: the selector character '0'+slot followed by the
// other fifteen children's hashes in slot order, null64 standing for an
// empty child. verify_proof folds the records from the end of the string.
module Proof16 {
  import opened Tools

  /** One record: a selector and fifteen 64-character entries. */
  const RecordLen: int := 961

  /** '0' + which. */
  function Selector(which: int): (c: char)
    requires 0 <= which < 16
    ensures c as int - '0' as int == which
  {
    (48 + which) as char
  }

  /** The slot a selector character names: proof[i] - '0'. */
  function Which(c: char): int {
    c as int - '0' as int
  }

  /** std::string's operator[]: the terminating '\0' at the end. */
  function CharAt(s: string, p: int): char {
    if 0 <= p < |s| then s[p] else 0 as char
  }

  /** substr(pos, 64) where pos is never past the end. */
  function Chunk(s: string, pos: int): string {
    if 0 <= pos <= |s| then s[pos .. pos + Min(64, |s| - pos)] else ""
  }

  /** What a branch hashes: its children's hashes appended in slot order. */
  function Concat(hs: seq<string>): string {
    if hs == [] then "" else hs[0] + Concat(hs[1..])
  }

  /** The entry gen_proof writes for a child: null64 for an empty one. */
  function Entry(h: string): string {
    if h == "" then Null64 else h
  }

  /** The entries of every slot but `which`, from slot j on. */
  function Siblings(entries: seq<string>, which: int, j: nat): string
    decreases |entries| - j
  {
    if j >= |entries| then ""
    else (if j == which then "" else entries[j]) + Siblings(entries, which, j + 1)
  }

  /** The record gen_proof emits for one branch, given each slot's entry. */
  function ProofRecord(which: int, entries: seq<string>): string
    requires 0 <= which < 16
  {
    [Selector(which)] + Siblings(entries, which, 0)
  }

  /** What verify_proof takes from the chunk at pos: nothing when it starts
      with '@'. */
  function Piece(proof: string, pos: int): string {
    if CharAt(proof, pos) != '@' then Chunk(proof, pos) else ""
  }

  /** The string verify_proof hashes for the record whose selector is at i:
      from slot j on, key at the selected slot and the chunks at pos, pos+64,
      ... elsewhere, a chunk starting with '@' contributing nothing. */
  function Rebuild(proof: string, which: int, key: string, j: nat, pos: int): string
    decreases 16 - j
  {
    if j >= 16 then ""
    else if j == which then key + Rebuild(proof, which, key, j + 1, pos)
    else Piece(proof, pos) + Rebuild(proof, which, key, j + 1, pos + 64)
  }

  /** The fold of verify_proof: from the record at i down to the first. */
  function Fold(H: Hasher, proof: string, i: int, key: string): string
    decreases if i < 0 then 0 else i + 1
  {
    if i < 0 then key
    else Fold(H, proof, i - RecordLen, Hash(H, Rebuild(proof, Which(CharAt(proof, i)), key, 0, i + 1)))
  }

  /** verify_proof: a proof starting with '?' is accepted outright; any other
      is folded from the value's hash and must end at the digest. The key
      argument is not used. */
  predicate Verify(H: Hasher, digest: string, value: string, proof: string) {
    CharAt(proof, 0) == '?' || Fold(H, proof, |proof| - RecordLen, Hash(H, value)) == digest
  }

  method VerifyProof(H: Hasher, digest: string, value: string, proof: string) returns (ok: bool)
    ensures ok == Verify(H, digest, value, proof)
  {
    if CharAt(proof, 0) == '?' {
      return true;
    }
    var key := Hash(H, value);
    var i := |proof| - RecordLen;
    while i >= 0
      invariant i >= -RecordLen
      invariant Fold(H, proof, i, key) == Fold(H, proof, |proof| - RecordLen, Hash(H, value))
      decreases i + RecordLen
    {
      var s := Reassemble(proof, Which(proof[i]), key, i);
      key := Hash(H, s);
      i := i - RecordLen;
    }
    ok := key == digest;
  }

  /** The inner loop of verify_proof: the string hashed for the record whose
      selector is at i. */
  method Reassemble(proof: string, which: int, key: string, i: int) returns (s: string)
    ensures s == Rebuild(proof, which, key, 0, i + 1)
  {
    var pos := i + 1;
    s := "";
    var j := 0;
    ghost var goal := Rebuild(proof, which, key, 0, pos);
    assert "" + goal == goal;
    while j < 16
      invariant 0 <= j <= 16
      invariant s + Rebuild(proof, which, key, j, pos) == goal
    {
      var piece := if j == which then key else Piece(proof, pos);
      var next := if j == which then pos else pos + 64;
      ghost var rest := Rebuild(proof, which, key, j + 1, next);
      RebuildNext(proof, which, key, j, pos, piece, next);
      Associative(s, piece, rest);
      s := s + piece;
      pos := next;
      j := j + 1;
    }
  }

  lemma {:induction false} RebuildStep(proof: string, which: int, key: string, j: nat, pos: int)
    requires j < 16
    ensures Rebuild(proof, which, key, j, pos)
         == (if j == which then key else Piece(proof, pos))
            + Rebuild(proof, which, key, j + 1, if j == which then pos else pos + 64)
  {
  }

  /** RebuildStep with the step's piece and next position named. */
  lemma {:induction false} RebuildNext(proof: string, which: int, key: string, j: nat, pos: int, piece: string, next: int)
    requires j < 16
    requires piece == (if j == which then key else Piece(proof, pos))
    requires next == (if j == which then pos else pos + 64)
    ensures Rebuild(proof, which, key, j, pos) == piece + Rebuild(proof, which, key, j + 1, next)
  {
    if j == which {
      assert next == pos;
    } else {
      assert next == pos + 64;
    }
  }

  lemma {:induction false} Associative(a: string, b: string, c: string)
    ensures a + (b + c) == (a + b) + c
  {
  }

  // ---------------------------------------------------------------------
  // Proofs built from paths

  /** A child's hash as a proof can carry it: empty, or 64 characters not
      starting with '@' (a digest never does). */
  predicate ChildHashOk(h: string) {
    h == "" || (|h| == 64 && h[0] != '@')
  }

  predicate Slots(hs: seq<string>) {
    |hs| == 16 && forall k :: 0 <= k < 16 ==> ChildHashOk(hs[k])
  }

  /** One branch on a proof path: the slot taken and every child's hash. */
  datatype Level = Level(which: int, hashes: seq<string>)

  predicate LevelOk(l: Level) {
    0 <= l.which < 16 && Slots(l.hashes)
  }

  predicate LevelsOk(levels: seq<Level>) {
    forall k :: 0 <= k < |levels| ==> LevelOk(levels[k])
  }

  /** Every level names a slot, so its selector is a character '0'..'?'. */
  predicate Selects(levels: seq<Level>) {
    forall k :: 0 <= k < |levels| ==> 0 <= levels[k].which < 16
  }

  function Entries(hs: seq<string>): (es: seq<string>)
    ensures |es| == |hs| && forall k :: 0 <= k < |hs| ==> es[k] == Entry(hs[k])
  {
    if hs == [] then [] else [Entry(hs[0])] + Entries(hs[1..])
  }

  /** The record gen_proof emits for a branch on the path. */
  function LevelRecord(l: Level): string
    requires 0 <= l.which < 16
  {
    ProofRecord(l.which, Entries(l.hashes))
  }

  /** The proof for a path, root first. */
  function PathProof(levels: seq<Level>): string
    requires Selects(levels)
  {
    if levels == [] then ""
    else PathProof(levels[..|levels| - 1]) + LevelRecord(levels[|levels| - 1])
  }

  /** What verify_proof computes from a path: hash the deepest branch with
      key in its slot, then each branch above with the result in its slot. */
  function FoldLevels(H: Hasher, levels: seq<Level>, key: string): string
    requires LevelsOk(levels)
  {
    if levels == [] then key
    else FoldLevels(H, levels[..|levels| - 1], LevelHash(H, levels[|levels| - 1], key))
  }

  /** The hash of a branch with key in the slot the path takes. */
  function LevelHash(H: Hasher, l: Level, key: string): string
    requires LevelOk(l)
  {
    Hash(H, Concat(l.hashes[l.which := key]))
  }

  /** Folding a path whose first level is l: the rest first, then l. */
  lemma {:induction false} FoldLevelsPrepend(H: Hasher, l: Level, rest: seq<Level>, key: string)
    requires LevelOk(l) && LevelsOk(rest)
    ensures LevelsOk([l] + rest)
    ensures FoldLevels(H, [l] + rest, key) == LevelHash(H, l, FoldLevels(H, rest, key))
    decreases |rest|
  {
    var all := [l] + rest;
    assert forall k :: 0 < k < |all| ==> all[k] == rest[k - 1];
    if rest != [] {
      var init := rest[..|rest| - 1];
      var last := rest[|rest| - 1];
      FoldLevelsPrepend(H, l, init, LevelHash(H, last, key));
      assert all[..|all| - 1] == [l] + init;
    }
  }

  lemma {:induction false} SiblingsLength(entries: seq<string>, which: int, j: nat)
    requires j <= |entries| == 16 && 0 <= which < 16
    requires forall k :: 0 <= k < 16 ==> |entries[k]| == 64
    ensures |Siblings(entries, which, j)| == 64 * (16 - j - (if j <= which then 1 else 0))
    decreases 16 - j
  {
    if j < 16 {
      SiblingsLength(entries, which, j + 1);
    }
  }

  lemma {:induction false} EntryLength(h: string)
    requires ChildHashOk(h)
    ensures |Entry(h)| == 64
  {
  }

  lemma {:induction false} ProofRecordLength(l: Level)
    requires LevelOk(l)
    ensures |LevelRecord(l)| == RecordLen
  {
    var es := Entries(l.hashes);
    forall k | 0 <= k < 16
      ensures |es[k]| == 64
    {
      EntryLength(l.hashes[k]);
    }
    SiblingsLength(es, l.which, 0);
  }

  lemma {:induction false} PathProofLength(levels: seq<Level>)
    requires LevelsOk(levels)
    ensures |PathProof(levels)| == RecordLen * |levels|
  {
    if levels != [] {
      PathProofLength(levels[..|levels| - 1]);
      ProofRecordLength(levels[|levels| - 1]);
    }
  }

  /** The slots of hs from j on, with key at slot which. */
  function ConcatFrom(hs: seq<string>, which: int, key: string, j: nat): string
    requires |hs| == 16
    decreases 16 - j
  {
    if j >= 16 then "" else (if j == which then key else hs[j]) + ConcatFrom(hs, which, key, j + 1)
  }

  lemma {:induction false} ConcatFromReplaced(hs: seq<string>, which: int, key: string, j: nat)
    requires |hs| == 16 && 0 <= which < 16 && j <= 16
    ensures ConcatFrom(hs, which, key, j) == Concat(hs[which := key][j..])
    decreases 16 - j
  {
    if j < 16 {
      ConcatFromReplaced(hs, which, key, j + 1);
      assert hs[which := key][j..][1..] == hs[which := key][j + 1..];
    } else {
      assert hs[which := key][j..] == [];
    }
  }

  /** Where slot j's entry starts in a record whose selector is at start. */
  function SlotPos(start: int, which: int, j: int): int {
    start + 1 + 64 * (j - (if j > which then 1 else 0))
  }

  /** Reading a record back: when every slot from j on but the selected one
      reads back as its hash (null64 dropping out), the rebuilt string is
      the hashes with key in the selected slot. */
  lemma {:induction false} RebuildRecord(proof: string, start: int, l: Level, key: string, j: nat)
    requires LevelOk(l) && j <= 16
    requires forall m :: j <= m < 16 && m != l.which ==> Piece(proof, SlotPos(start, l.which, m)) == l.hashes[m]
    ensures Rebuild(proof, l.which, key, j, SlotPos(start, l.which, j)) == ConcatFrom(l.hashes, l.which, key, j)
    decreases 16 - j
  {
    if j < 16 {
      RebuildRecord(proof, start, l, key, j + 1);
      RebuildStep(proof, l.which, key, j, SlotPos(start, l.which, j));
    }
  }

  /** Slot j's entry sits at pos in the proof. */
  lemma {:induction false} SiblingAt(pre: string, l: Level, rest: string, j: nat, pos: int)
    requires LevelOk(l) && j < 16 && j != l.which
    requires pos == |pre| + 1 + 64 * (j - (if j > l.which then 1 else 0))
    ensures var proof := pre + ProofRecord(l.which, Entries(l.hashes)) + rest;
      Piece(proof, pos) == l.hashes[j]
  {
    var es := Entries(l.hashes);
    forall k | 0 <= k < 16
      ensures |es[k]| == 64
    {
      EntryLength(l.hashes[k]);
    }
    var before := SiblingsPrefix(es, l.which, j);
    SiblingsSplit(es, l.which, j);
    var proof := pre + ProofRecord(l.which, es) + rest;
    var tail := Siblings(es, l.which, j + 1) + rest;
    assert proof == (pre + [Selector(l.which)] + before) + es[j] + tail;
    SiblingsPrefixLength(es, l.which, j);
    ChunkBetween(pre + [Selector(l.which)] + before, es[j], tail, pos);
    if l.hashes[j] == "" {
      assert es[j] == Null64;
      assert CharAt(proof, pos) == Null64[0] == '@';
    } else {
      assert CharAt(proof, pos) == l.hashes[j][0];
    }
  }

  /** A 64-character piece placed at pos is the chunk read there. */
  lemma {:induction false} ChunkBetween(a: string, b: string, c: string, pos: int)
    requires |a| == pos && |b| == 64
    ensures Chunk(a + b + c, pos) == b && CharAt(a + b + c, pos) == b[0]
  {
    assert (a + b + c)[pos .. pos + 64] == b;
  }

  /** gen_proof's emission of one branch on the path: the selector, then
      every other slot's hash in order, null64 for an empty one. */
  method EmitRecord(which: int, hashes: seq<string>) returns (s: string)
    requires 0 <= which < 16 && |hashes| == 16
    ensures s == LevelRecord(Level(which, hashes))
  {
    s := [Selector(which)];
    var i := 0;
    while i < 16
      invariant 0 <= i <= 16
      invariant s == [Selector(which)] + SiblingsPrefix(Entries(hashes), which, i)
    {
      var e := if hashes[i] == "" then Null64 else hashes[i];
      SiblingsGrow([Selector(which)], Entries(hashes), which, i, s, e);
      if i != which {
        s := s + e;
      }
      i := i + 1;
    }
    SiblingsSplit(Entries(hashes), which, 16);
  }

  /** The entries of the slots before j, skipping `which`. */
  function SiblingsPrefix(entries: seq<string>, which: int, j: nat): string
    requires j <= |entries|
  {
    if j == 0 then "" else SiblingsPrefix(entries, which, j - 1) + (if j - 1 == which then "" else entries[j - 1])
  }

  /** One more slot: nothing for the selected one, its entry otherwise. */
  lemma {:induction false} SiblingsPrefixNext(entries: seq<string>, which: int, j: nat)
    requires j < |entries|
    ensures SiblingsPrefix(entries, which, j + 1)
      == SiblingsPrefix(entries, which, j) + (if j == which then "" else entries[j])
  {
  }

  /** The text emitted so far grows by slot j's entry unless j is selected. */
  lemma {:induction false} SiblingsGrow(head: string, entries: seq<string>, which: int, j: nat, s: string, e: string)
    requires j < |entries| && s == head + SiblingsPrefix(entries, which, j)
    requires j != which ==> e == entries[j]
    ensures (if j == which then s else s + e) == head + SiblingsPrefix(entries, which, j + 1)
  {
    SiblingsPrefixNext(entries, which, j);
    if j != which {
      assert s + e == head + (SiblingsPrefix(entries, which, j) + e);
    }
  }

  lemma {:induction false} SiblingsSplit(entries: seq<string>, which: int, j: nat)
    requires j <= |entries|
    ensures Siblings(entries, which, 0) == SiblingsPrefix(entries, which, j) + Siblings(entries, which, j)
  {
    if j > 0 {
      SiblingsSplit(entries, which, j - 1);
      assert Siblings(entries, which, j - 1)
          == (if j - 1 == which then "" else entries[j - 1]) + Siblings(entries, which, j);
    }
  }

  lemma {:induction false} SiblingsPrefixLength(entries: seq<string>, which: int, j: nat)
    requires j <= |entries| == 16 && 0 <= which < 16
    requires forall k :: 0 <= k < 16 ==> |entries[k]| == 64
    ensures |SiblingsPrefix(entries, which, j)| == 64 * (j - (if j > which then 1 else 0))
  {
    if j > 0 {
      SiblingsPrefixLength(entries, which, j - 1);
    }
  }

  /** verify_proof's step over one record: the branch hash with key in the
      selected slot becomes the key for the record before it. */
  lemma {:induction false} FoldRecord(H: Hasher, proof: string, start: int, l: Level, key: string)
    requires LevelOk(l) && 0 <= start && start + RecordLen <= |proof|
    requires proof[start .. start + RecordLen] == LevelRecord(l)
    ensures Fold(H, proof, start, key) == Fold(H, proof, start - RecordLen, LevelHash(H, l, key))
  {
    RecordPieces(proof, start, l);
    RecordRebuilds(proof, start, l, key);
    assert Which(CharAt(proof, start)) == l.which;
  }

  /** A record in place: its selector at start, each sibling's hash at its
      slot's position. */
  lemma {:induction false} RecordPieces(proof: string, start: int, l: Level)
    requires LevelOk(l) && 0 <= start && start + RecordLen <= |proof|
    requires proof[start .. start + RecordLen] == LevelRecord(l)
    ensures CharAt(proof, start) == Selector(l.which)
    ensures forall m :: 0 <= m < 16 && m != l.which ==> Piece(proof, SlotPos(start, l.which, m)) == l.hashes[m]
  {
    var pre, rest := proof[..start], proof[start + RecordLen..];
    assert proof == pre + LevelRecord(l) + rest;
    forall m | 0 <= m < 16 && m != l.which
      ensures Piece(proof, SlotPos(start, l.which, m)) == l.hashes[m]
    {
      SiblingAt(pre, l, rest, m, SlotPos(start, l.which, m));
    }
  }

  /** With the pieces in place, verify_proof's inner loop rebuilds the
      branch's children with key in the selected slot. */
  lemma {:induction false} RecordRebuilds(proof: string, start: int, l: Level, key: string)
    requires LevelOk(l)
    requires forall m :: 0 <= m < 16 && m != l.which ==> Piece(proof, SlotPos(start, l.which, m)) == l.hashes[m]
    ensures Rebuild(proof, l.which, key, 0, start + 1) == Concat(l.hashes[l.which := key])
  {
    var first := SlotPos(start, l.which, 0);
    RebuildRecord(proof, start, l, key, 0);
    ConcatFromReplaced(l.hashes, l.which, key, 0);
    assert l.hashes[l.which := key][0..] == l.hashes[l.which := key];
    assert first == start + 1;
  }

  /** verify_proof reads a path's proof back as the fold over its levels,
      whatever follows it. */
  lemma {:induction false} FoldPath(H: Hasher, levels: seq<Level>, proof: string, key: string)
    requires LevelsOk(levels)
    requires |PathProof(levels)| <= |proof| && proof[..|PathProof(levels)|] == PathProof(levels)
    ensures Fold(H, proof, |PathProof(levels)| - RecordLen, key) == FoldLevels(H, levels, key)
    decreases |levels|
  {
    if levels != [] {
      var init := levels[..|levels| - 1];
      var l := levels[|levels| - 1];
      var pre := PathProof(init);
      var k2 := LevelHash(H, l, key);
      LastRecord(levels, proof);
      FoldRecord(H, proof, |pre|, l, key);
      FoldPath(H, init, proof, k2);
    }
  }

  /** A path's proof at the head of proof: the last level's record right
      after the proof of the levels before it. */
  lemma {:induction false} LastRecord(levels: seq<Level>, proof: string)
    requires LevelsOk(levels) && levels != []
    requires |PathProof(levels)| <= |proof| && proof[..|PathProof(levels)|] == PathProof(levels)
    ensures var pre := PathProof(levels[..|levels| - 1]);
      && |PathProof(levels)| == |pre| + RecordLen
      && proof[|pre| .. |pre| + RecordLen] == LevelRecord(levels[|levels| - 1])
      && |pre| <= |proof| && proof[..|pre|] == pre
  {
    var l := levels[|levels| - 1];
    var pre := PathProof(levels[..|levels| - 1]);
    ProofRecordLength(l);
    assert PathProof(levels) == pre + LevelRecord(l);
    assert proof[..|PathProof(levels)|] == pre + LevelRecord(l);
  }

  lemma {:induction false} FoldWhole(H: Hasher, levels: seq<Level>, key: string)
    requires LevelsOk(levels)
    ensures Fold(H, PathProof(levels), |PathProof(levels)| - RecordLen, key) == FoldLevels(H, levels, key)
  {
    var proof := PathProof(levels);
    assert proof[..|proof|] == proof;
    FoldPath(H, levels, proof, key);
  }

  /** verify_proof accepts the proof of a path whose fold from the value's
      hash reaches the digest. */
  lemma {:induction false} VerifyPathComplete(H: Hasher, digest: string, value: string, levels: seq<Level>)
    requires LevelsOk(levels)
    requires FoldLevels(H, levels, Hash(H, value)) == digest
    ensures Verify(H, digest, value, PathProof(levels))
  {
    FoldWhole(H, levels, Hash(H, value));
  }

  // ---------------------------------------------------------------------
  // The selector of slot 15

  /** '0' + 15 is '?', the character gen_proof returns for a key it cannot
      prove. */
  lemma {:induction false} SelectorFifteen()
    ensures Selector(15) == '?'
  {
  }

  /** As written, verify_proof accepts a real proof whose root record takes
      slot 15 without checking it: the same record is accepted against a
      digest it does not fold to. */
  lemma {:induction false} SlotFifteenUnchecked(H: Hasher, value: string, l: Level, rest: string)
    requires LevelOk(l) && l.which == 15
    ensures var proof := ProofRecord(15, Entries(l.hashes)) + rest;
      var wrong := Fold(H, proof, |proof| - RecordLen, Hash(H, value)) + "x";
      Verify(H, wrong, value, proof) && Fold(H, proof, |proof| - RecordLen, Hash(H, value)) != wrong
  {
    var proof := ProofRecord(15, Entries(l.hashes)) + rest;
    assert CharAt(proof, 0) == '?';
    var f := Fold(H, proof, |proof| - RecordLen, Hash(H, value));
    assert |f + "x"| == |f| + 1;
  }

  /** verify_proof as evidently intended: only gen_proof's whole answer "?"
      escapes the check. */
  predicate VerifyChecked(H: Hasher, digest: string, value: string, proof: string) {
    proof == "?" || Fold(H, proof, |proof| - RecordLen, Hash(H, value)) == digest
  }

  /** The intended check is sound: any accepted proof other than "?" folds
      to the digest, whatever its first selector. */
  lemma {:induction false} CheckedIsSound(H: Hasher, digest: string, value: string, proof: string)
    requires VerifyChecked(H, digest, value, proof) && proof != "?"
    ensures Fold(H, proof, |proof| - RecordLen, Hash(H, value)) == digest
  {
  }

  /** The intended check accepts the proof of a path whose fold reaches the
      digest. */
  lemma {:induction false} CheckedPathComplete(H: Hasher, digest: string, value: string, levels: seq<Level>)
    requires LevelsOk(levels)
    requires FoldLevels(H, levels, Hash(H, value)) == digest
    ensures VerifyChecked(H, digest, value, PathProof(levels))
  {
    FoldWhole(H, levels, Hash(H, value));
  }

  /** The intended check accepts nothing the written one rejects. */
  lemma {:induction false} CheckedImpliesWritten(H: Hasher, digest: string, value: string, proof: string)
    requires VerifyChecked(H, digest, value, proof)
    ensures Verify(H, digest, value, proof)
  {
  }
}
