// RatTree (rattree.hpp): a path-compressed 16-ary trie whose records are
// content-addressed. A leaf's record is stored under the hash of its value,
// a branch's under the hash of its sixteen child hashes appended; each
// record also carries the node's key prefix. commit stages the listed
// updates in an arena of nodes (the source's `stack`), then hashes and
// writes the staged nodes children first.
module RatTree {
  import opened Results
  import opened Tools
  import opened IO
  import opened Proof16

  /** NodeRat. A leaf holds a value, a branch sixteen child hashes ("" for an
      empty slot); `pointers` link a node staged during commit to its staged
      children, -1 where a slot has none. */
  datatype Node = Node(hash: string, value: string, hashes: seq<string>,
                       pointers: seq<int>, prefix: string, isLeaf: bool)

  function Unlinked(): (p: seq<int>)
    ensures |p| == 16 && forall i :: 0 <= i < 16 ==> p[i] == -1
  {
    [-1, -1, -1, -1, -1, -1, -1, -1, -1, -1, -1, -1, -1, -1, -1, -1]
  }

  function NoHashes(): (h: seq<string>)
    ensures |h| == 16 && forall i :: 0 <= i < 16 ==> h[i] == ""
  {
    ["", "", "", "", "", "", "", "", "", "", "", "", "", "", "", ""]
  }

  /** NodeRat(key, prefix, value): a new leaf, not yet hashed. */
  function NewLeaf(prefix: string, value: string): Node {
    Node("", value, [], Unlinked(), prefix, true)
  }

  /** NodeRat(key, prefix, hashes): a new branch, not yet hashed. */
  function NewBranch(prefix: string, hashes: seq<string>): Node {
    Node("", "", hashes, Unlinked(), prefix, false)
  }

  // ---------------------------------------------------------------------
  // Records

  /** string::find(c, from): the first c at or after from, |s| for npos. */
  function Find(s: string, c: char, from: nat): (p: nat)
    requires from <= |s|
    ensures from <= p <= |s| && (p < |s| ==> s[p] == c)
    decreases |s| - from
  {
    if from == |s| || s[from] == c then from else Find(s, c, from + 1)
  }

  /** The n comma-separated fields of v from pred on. A field runs to the
      next comma or the end; substr throws when a field would start past
      the end, which happens once the commas run out. */
  function FieldsFrom(v: string, pred: nat, n: nat): (r: Result<seq<string>>)
    ensures r.Ok? ==> |r.value| == n
    decreases |v| + n - pred
  {
    if n == 0 then Ok([])
    else if pred > |v| then Err(OutOfRange)
    else
      var pos := Find(v, ',', pred);
      match FieldsFrom(v, pos + 1, n - 1)
      case Err(e) => Err(e)
      case Ok(rest) => Ok([v[pred..pos]] + rest)
  }

  /** Fields already read, then what is still to be read. */
  function Then(fields: seq<string>, r: Result<seq<string>>): Result<seq<string>> {
    match r
    case Err(e) => Err(e)
    case Ok(rest) => Ok(fields + rest)
  }

  /** The field loop of NodeRat's reading constructor. */
  method SplitFields(v: string) returns (r: Result<seq<string>>)
    ensures r == FieldsFrom(v, 0, 16)
  {
    var fields: seq<string> := [];
    var pos, pred := 0, 0;
    var i := 0;
    ghost var goal := FieldsFrom(v, 0, 16);
    ThenNothing(goal);
    while i < 16
      invariant 0 <= i <= 16 && pos == pred
      invariant Then(fields, FieldsFrom(v, pred, 16 - i)) == goal
    {
      while pos < |v| && v[pos] != ','
        invariant pred <= pos
        invariant pred <= |v| ==> pos <= |v| && Find(v, ',', pos) == Find(v, ',', pred)
      {
        pos := pos + 1;
      }
      if pred > |v| {
        return Err(OutOfRange);
      }
      FieldStep(v, pred, 16 - i, fields, goal);
      fields, pred, i := fields + [v[pred..pos]], pos + 1, i + 1;
      pos := pred;
    }
    assert fields + [] == fields;
    return Ok(fields);
  }

  lemma {:induction false} ThenNothing(r: Result<seq<string>>)
    ensures Then([], r) == r
  {
    if r.Ok? {
      assert [] + r.value == r.value;
    }
  }

  /** Reading one more field moves it from what is left to what is read. */
  lemma {:induction false} FieldStep(v: string, pred: nat, n: nat, fields: seq<string>, goal: Result<seq<string>>)
    requires 0 < n && pred <= |v| && Then(fields, FieldsFrom(v, pred, n)) == goal
    ensures var pos := Find(v, ',', pred);
      Then(fields + [v[pred..pos]], FieldsFrom(v, pos + 1, n - 1)) == goal
  {
    var pos := Find(v, ',', pred);
    var rest := FieldsFrom(v, pos + 1, n - 1);
    if rest.Ok? {
      assert fields + ([v[pred..pos]] + rest.value) == fields + [v[pred..pos]] + rest.value;
    }
  }

  /** The fields joined with commas, as to_string writes them. */
  function Join(hs: seq<string>): string {
    if hs == [] then ""
    else if |hs| == 1 then hs[0]
    else hs[0] + "," + Join(hs[1..])
  }

  predicate NoChar(s: string, c: char) {
    forall k :: 0 <= k < |s| ==> s[k] != c
  }

  /** Reading a node back: the prefix runs to the first '|' (all of the
      record when there is none, and then the rest is the whole record too);
      a rest starting with '!' is a leaf's value, anything else a branch's
      sixteen fields. A missing record reads as "". */
  function Parse(key: string, v: string): (r: Result<Node>)
    ensures r.Ok? ==> r.value.hash == key && r.value.pointers == Unlinked()
    ensures r.Ok? ==> NoChar(r.value.prefix, '|')
    ensures r.Ok? && !r.value.isLeaf ==> |r.value.hashes| == 16
  {
    FindFirst(v, '|', 0);
    var p := Find(v, '|', 0);
    var prefix := v[..p];
    var rest := if p < |v| then v[p + 1..] else v;
    if CharAt(rest, 0) == '!' then Ok(Node(key, rest[1..], [], Unlinked(), prefix, true))
    else
      match FieldsFrom(rest, 0, 16)
      case Err(e) => Err(e)
      case Ok(hs) => Ok(Node(key, "", hs, Unlinked(), prefix, false))
  }

  /** NodeRat::to_string. */
  function ToString(n: Node): string {
    if n.isLeaf then n.prefix + "|!" + n.value else n.prefix + "|" + Join(n.hashes)
  }

  /** NodeRat::computeHash: a leaf hashes its value, a branch its child
      hashes appended in slot order. */
  function NodeHash(H: Hasher, n: Node): string {
    if n.isLeaf then Hash(H, n.value) else Hash(H, Concat(n.hashes))
  }

  /** NodeRat::ofWhich: the slot of k below n, from k's character just past
      n's prefix ('\0', slot 0, at the end of k). */
  function OfWhich(n: Node, k: string): (w: int)
    ensures 0 <= w < 16
  {
    Hti(CharAt(k, |n.prefix|))
  }

  /** A node whose record reads back as itself: its prefix has no '|', a
      branch has sixteen hashes without commas. */
  predicate Printable(n: Node) {
    NoChar(n.prefix, '|')
    && (!n.isLeaf ==> |n.hashes| == 16 && forall i :: 0 <= i < 16 ==> Field(n.hashes[i]))
  }

  /** A child hash as a branch record holds it: "" or a digest, so never a
      comma and never a leading '!'. */
  predicate Field(h: string) {
    h == "" || IsDigest(h)
  }

  lemma {:induction false} FieldHasNoComma(h: string)
    requires Field(h)
    ensures NoChar(h, ',') && NoChar(h, '!')
  {
    if h != "" {
      forall k | 0 <= k < |h| ensures h[k] != ',' && h[k] != '!' {
        assert IsLowerHexChar(h[k]);
      }
    }
  }

  lemma {:induction false} FindFirst(s: string, c: char, from: nat)
    requires from <= |s|
    ensures forall k :: from <= k < Find(s, c, from) ==> s[k] != c
    decreases |s| - from
  {
    if from < |s| && s[from] != c {
      FindFirst(s, c, from + 1);
    }
  }

  /** Find stops at the first c: none in [from, q), and q is a c or the end. */
  lemma {:induction false} FindAt(v: string, c: char, from: nat, q: nat)
    requires from <= q <= |v| && (q < |v| ==> v[q] == c)
    requires forall k :: from <= k < q ==> v[k] != c
    ensures Find(v, c, from) == q
    decreases q - from
  {
    if from < q {
      FindAt(v, c, from + 1, q);
    }
  }

  lemma {:induction false} FindPast(pre: string, s: string, rest: string, c: char)
    requires NoChar(s, c) && (rest == [] || rest[0] == c)
    ensures Find(pre + s + rest, c, |pre|) == |pre| + |s|
  {
    var v := pre + s + rest;
    forall k | |pre| <= k < |pre| + |s| ensures v[k] != c {
      assert v[k] == s[k - |pre|];
    }
    if rest != [] {
      assert v[|pre| + |s|] == rest[0];
    }
    FindAt(v, c, |pre|, |pre| + |s|);
  }

  /** Reading back joined fields gives the fields, whatever precedes them. */
  lemma {:induction false} FieldsOfJoin(pre: string, hs: seq<string>)
    requires |hs| >= 1 && forall i :: 0 <= i < |hs| ==> NoChar(hs[i], ',')
    ensures FieldsFrom(pre + Join(hs), |pre|, |hs|) == Ok(hs)
    decreases |hs|
  {
    var v := pre + Join(hs);
    var pos := |pre| + |hs[0]|;
    if |hs| == 1 {
      FindPast(pre, hs[0], "", ',');
      assert pre + hs[0] + "" == v;
      assert v[|pre|..pos] == hs[0];
      FieldsStep(v, |pre|, 1, pos, []);
      assert [hs[0]] + [] == hs;
    } else {
      FieldsOfJoin(pre + hs[0] + ",", hs[1..]);
      FieldsOfJoinCons(pre, hs);
    }
  }

  /** The first field of a join of several, read before the rest. */
  lemma {:induction false} FieldsOfJoinCons(pre: string, hs: seq<string>)
    requires |hs| >= 2 && NoChar(hs[0], ',')
    requires FieldsFrom(pre + hs[0] + "," + Join(hs[1..]), |pre| + |hs[0]| + 1, |hs| - 1) == Ok(hs[1..])
    ensures FieldsFrom(pre + Join(hs), |pre|, |hs|) == Ok(hs)
  {
    JoinSplit(pre, hs);
    var w := pre + hs[0] + ("," + Join(hs[1..]));
    SameFields(pre + hs[0] + "," + Join(hs[1..]), w, |pre| + |hs[0]| + 1, |hs| - 1);
    FieldsHead(pre, hs[0], Join(hs[1..]), hs[1..]);
    assert [hs[0]] + hs[1..] == hs;
    SameFields(w, pre + Join(hs), |pre|, |hs|);
  }

  /** A field and a comma in front of fields already read. */
  lemma {:induction false} FieldsHead(pre: string, a: string, t: string, rest: seq<string>)
    requires NoChar(a, ',') && FieldsFrom(pre + a + ("," + t), |pre| + |a| + 1, |rest|) == Ok(rest)
    ensures FieldsFrom(pre + a + ("," + t), |pre|, |rest| + 1) == Ok([a] + rest)
  {
    FindPast(pre, a, "," + t, ',');
    SliceFirst(pre, a, "," + t);
    FieldsStep(pre + a + ("," + t), |pre|, |rest| + 1, |pre| + |a|, rest);
  }

  /** A join of several splits after its first field and comma. */
  lemma {:induction false} JoinSplit(pre: string, hs: seq<string>)
    requires |hs| >= 2
    ensures pre + Join(hs) == pre + hs[0] + ("," + Join(hs[1..]))
    ensures pre + hs[0] + "," + Join(hs[1..]) == pre + hs[0] + ("," + Join(hs[1..]))
  {
    assert Join(hs) == hs[0] + "," + Join(hs[1..]);
  }

  /** The middle part of a concatenation, sliced back out. */
  lemma {:induction false} SliceFirst(pre: string, s: string, rest: string)
    ensures (pre + s + rest)[|pre|..|pre| + |s|] == s
  {
    var v := pre + s + rest;
    assert forall k :: 0 <= k < |s| ==> v[|pre|..|pre| + |s|][k] == s[k];
  }

  /** Reading fields depends only on the text read. */
  lemma {:induction false} SameFields(a: string, b: string, pred: nat, n: nat)
    requires a == b
    ensures FieldsFrom(a, pred, n) == FieldsFrom(b, pred, n)
  {
  }

  /** One field read: the text up to the next comma, then the rest. */
  lemma {:induction false} FieldsStep(v: string, pred: nat, n: nat, pos: int, rest: seq<string>)
    requires n >= 1 && pred <= |v| && Find(v, ',', pred) == pos
    requires FieldsFrom(v, pos + 1, n - 1) == Ok(rest)
    ensures FieldsFrom(v, pred, n) == Ok([v[pred..pos]] + rest)
  {
  }

  /** A record splits at its first '|' into the prefix and the rest. */
  lemma {:induction false} SplitRecord(prefix: string, rest: string)
    requires NoChar(prefix, '|')
    ensures var v := prefix + "|" + rest;
      Find(v, '|', 0) == |prefix| && v[..|prefix|] == prefix && v[|prefix| + 1..] == rest
  {
    var v := prefix + "|" + rest;
    FindPast([], prefix, "|" + rest, '|');
    assert [] + prefix + ("|" + rest) == v;
  }

  /** A join whose first field is a hash does not start with '!'. */
  lemma {:induction false} JoinHead(hs: seq<string>)
    requires |hs| >= 2 && Field(hs[0])
    ensures CharAt(Join(hs), 0) != '!'
  {
    FieldHasNoComma(hs[0]);
    var rest := Join(hs);
    assert rest == hs[0] + ("," + Join(hs[1..]));
    if hs[0] != [] {
      assert rest[0] == hs[0][0];
    }
  }

  /** A branch's joined hashes read back as its hashes. */
  lemma {:induction false} BranchFields(hs: seq<string>)
    requires |hs| == 16 && forall i :: 0 <= i < 16 ==> Field(hs[i])
    ensures FieldsFrom(Join(hs), 0, 16) == Ok(hs)
  {
    forall i | 0 <= i < 16 ensures NoChar(hs[i], ',') {
      FieldHasNoComma(hs[i]);
    }
    FieldsOfJoin([], hs);
    assert [] + Join(hs) == Join(hs);
  }

  /** to_string and the reading constructor are inverse on printable nodes:
      the record reads back with the same kind, prefix and contents. */
  lemma {:induction false} ParsePrinted(key: string, n: Node)
    requires Printable(n)
    ensures Parse(key, ToString(n)).Ok?
    ensures var m := Parse(key, ToString(n)).value;
      m.hash == key && m.prefix == n.prefix && m.isLeaf == n.isLeaf
      && (n.isLeaf ==> m.value == n.value) && (!n.isLeaf ==> m.hashes == n.hashes)
  {
    if n.isLeaf {
      SplitRecord(n.prefix, "!" + n.value);
      assert ToString(n) == n.prefix + "|" + ("!" + n.value);
    } else {
      SplitRecord(n.prefix, Join(n.hashes));
      JoinHead(n.hashes);
      BranchFields(n.hashes);
    }
  }

  /** The node's hash survives a round trip through its record. */
  lemma {:induction false} HashPrinted(H: Hasher, key: string, n: Node)
    requires Printable(n)
    ensures Parse(key, ToString(n)).Ok? && NodeHash(H, Parse(key, ToString(n)).value) == NodeHash(H, n)
  {
    ParsePrinted(key, n);
  }

  /** A missing record reads as "": taken for a branch, its second field
      starts past the end of the string, so it is no node. */
  lemma {:induction false} ParseMissing(key: string)
    ensures Parse(key, "").Err?
  {
    assert Find("", '|', 0) == 0;
    assert Find("", ',', 0) == 0;
  }

  // ---------------------------------------------------------------------
  // The store

  /** Every hash in a branch names a stored record or is empty. */
  predicate Linked(store: map<string, string>, n: Node) {
    !n.isLeaf ==> |n.hashes| == 16 && forall i :: 0 <= i < 16 ==> n.hashes[i] == "" || n.hashes[i] in store
  }

  /** A node that prints as a record and whose children are stored. */
  predicate Anchored(store: map<string, string>, n: Node) {
    NoChar(n.prefix, '|') && Linked(store, n)
  }

  /** The record under k reads back as a node whose hash is k and whose
      children are stored. */
  predicate RecordOk(H: Hasher, store: map<string, string>, k: string)
    requires k in store
  {
    var r := Parse(k, store[k]);
    r.Ok? && NodeHash(H, r.value) == k && Anchored(store, r.value)
  }

  /** The store RatTree keeps: content-addressed records, closed under the
      child links. */
  predicate Sealed(H: Hasher, store: map<string, string>) {
    forall k {:trigger RecordOk(H, store, k)} :: k in store ==> RecordOk(H, store, k)
  }

  /** Stored keys are hashes, so digests. */
  lemma {:induction false} StoredIsDigest(H: Hasher, store: map<string, string>, k: string)
    requires Sealed(H, store) && k in store
    ensures IsDigest(k)
  {
    assert RecordOk(H, store, k);
  }

  lemma {:induction false} AnchoredGrows(store: map<string, string>, store': map<string, string>, n: Node)
    requires Anchored(store, n) && store.Keys <= store'.Keys
    ensures Anchored(store', n)
  {
  }

  /** An anchored node in a sealed store prints as a record. */
  lemma {:induction false} AnchoredPrintable(H: Hasher, store: map<string, string>, n: Node)
    requires Sealed(H, store) && Anchored(store, n)
    ensures Printable(n)
  {
    if !n.isLeaf {
      forall i | 0 <= i < 16 ensures Field(n.hashes[i]) {
        if n.hashes[i] != "" {
          StoredIsDigest(H, store, n.hashes[i]);
        }
      }
    }
  }

  /** NodeRat::write: storing an anchored node's record under its hash
      keeps the store sealed, whatever was stored under that hash before. */
  lemma {:induction false} WriteSealed(H: Hasher, store: map<string, string>, n: Node)
    requires Sealed(H, store) && Anchored(store, n)
    ensures Sealed(H, store[NodeHash(H, n) := ToString(n)])
  {
    var h := NodeHash(H, n);
    var store' := store[h := ToString(n)];
    AnchoredPrintable(H, store, n);
    HashPrinted(H, h, n);
    ParsePrinted(h, n);
    forall k | k in store' ensures RecordOk(H, store', k) {
      if k != h {
        assert RecordOk(H, store, k);
        AnchoredGrows(store, store', Parse(k, store[k]).value);
      }
    }
  }

  // ---------------------------------------------------------------------
  // The arena: commit's `stack` of staged nodes

  /** A node fitting an arena of `size` nodes: sixteen links, each -1 or an
      index; a leaf links nowhere; a branch has sixteen hashes. */
  predicate Fits(n: Node, size: int) {
    |n.pointers| == 16 && (forall i :: 0 <= i < 16 ==> -1 <= n.pointers[i] < size)
    && (n.isLeaf ==> n.pointers == Unlinked())
    && (!n.isLeaf ==> |n.hashes| == 16)
  }

  predicate Shaped(stack: seq<Node>) {
    forall i :: 0 <= i < |stack| ==> Fits(stack[i], |stack|)
  }

  /** Links run from a higher rank to a lower one, so following them ends. */
  predicate Arena(stack: seq<Node>, rank: seq<real>) {
    Shaped(stack) && |rank| == |stack|
    && forall i, j :: 0 <= i < |stack| && 0 <= j < 16 && stack[i].pointers[j] != -1 ==>
         rank[stack[i].pointers[j]] < rank[i]
  }

  predicate Staged(store: map<string, string>, stack: seq<Node>) {
    forall i :: 0 <= i < |stack| ==> Anchored(store, stack[i])
  }

  lemma {:induction false} StagedGrows(store: map<string, string>, store': map<string, string>, stack: seq<Node>)
    requires Staged(store, stack) && store.Keys <= store'.Keys
    ensures Staged(store', stack)
  {
    forall i | 0 <= i < |stack| ensures Anchored(store', stack[i]) {
      AnchoredGrows(store, store', stack[i]);
    }
  }

  /** The nodes ranked below r: what _compute may still descend into. */
  ghost function Below(rank: seq<real>, r: real): set<int> {
    set i | 0 <= i < |rank| && rank[i] < r
  }

  lemma {:induction false} BelowShrinks(rank: seq<real>, p: int, pos: int)
    requires 0 <= p < |rank| && 0 <= pos < |rank| && rank[p] < rank[pos]
    ensures Below(rank, rank[p]) < Below(rank, rank[pos])
  {
    assert p in Below(rank, rank[pos]) && p !in Below(rank, rank[p]);
  }

  // ---------------------------------------------------------------------
  // Placing one update: the body of commit's inner loop

  /** One pass of the inner loop: placed (break), descend to another node,
      or failed (a throw, or undefined behaviour in the source). */
  datatype Step = Stop(arena: seq<Node>) | Down(arena: seq<Node>, at: int) | Fail(error: Failure)

  /** The node at pos with slot `which` linked to the node at `target`. */
  function Link(stack: seq<Node>, pos: int, which: int, target: int): (s: seq<Node>)
    requires 0 <= pos < |stack| && 0 <= which < |stack[pos].pointers|
    ensures |s| == |stack|
  {
    stack[pos := stack[pos].(pointers := stack[pos].pointers[which := target])]
  }

  lemma {:induction false} FitsGrows(n: Node, size: int, size': int)
    requires Fits(n, size) && size <= size'
    ensures Fits(n, size')
  {
  }

  /** Staging new nodes and linking a branch to one keeps the arena shaped. */
  lemma {:induction false} ShapedLink(stack: seq<Node>, added: seq<Node>, pos: int, which: int, target: int)
    requires Shaped(stack) && 0 <= pos < |stack| && !stack[pos].isLeaf && 0 <= which < 16
    requires forall k :: 0 <= k < |added| ==> Fits(added[k], |stack| + |added|)
    requires 0 <= target < |stack| + |added|
    ensures Shaped(Link(stack + added, pos, which, target))
  {
    var s := stack + added;
    forall i | 0 <= i < |s| ensures Fits(s[i], |s|) {
      if i < |stack| {
        FitsGrows(stack[i], |stack|, |s|);
      } else {
        assert s[i] == added[i - |stack|];
      }
    }
  }

  /** The branch a split puts above a node with prefix np: its prefix is
      what hex and np share, and hex's slot links to the new leaf. */
  function SplitBranch(hex: string, np: string, leaf: int): (b: Node)
    ensures b.prefix <= hex && b.prefix <= np
    ensures |b.prefix| == |hex| || |b.prefix| == |np| || hex[|b.prefix|] != np[|b.prefix|]
    ensures !b.isLeaf && b.hashes == NoHashes() && |b.pointers| == 16
    ensures forall i :: 0 <= i < 16 ==> b.pointers[i] == if i == OfWhich(b, hex) then leaf else -1
  {
    var b := NewBranch(CommonPrefix(hex, np), NoHashes());
    b.(pointers := b.pointers[OfWhich(b, hex) := leaf])
  }

  /** One pass of commit's inner loop at the node pos: a staged child is
      followed by its link, an unstaged one is read from the store. */
  function PlaceStep(store: map<string, string>, stack: seq<Node>, hex: string, value: string, pos: int): (st: Step)
    requires Shaped(stack) && 0 <= pos < |stack|
    ensures st.Stop? ==> Shaped(st.arena) && |st.arena| >= |stack|
    ensures st.Down? ==> Shaped(st.arena) && 0 <= st.at < |st.arena|
  {
    var which := OfWhich(stack[pos], hex);
    if stack[pos].pointers[which] != -1 then PlaceStaged(stack, hex, value, pos, which)
    else if stack[pos].isLeaf then Fail(BadRecord)
    else PlaceUnstaged(store, stack, hex, value, pos, which)
  }

  /** hex's slot links to a staged child: a child whose prefix is hex takes
      the value; a child whose prefix hex does not extend is split off under
      a new branch beside a new leaf; otherwise the walk goes down. */
  function PlaceStaged(stack: seq<Node>, hex: string, value: string, pos: int, which: int): (st: Step)
    requires Shaped(stack) && 0 <= pos < |stack| && 0 <= which < 16 && stack[pos].pointers[which] != -1
    ensures st.Stop? ==> Shaped(st.arena) && |st.arena| >= |stack|
    ensures st.Down? ==> Shaped(st.arena) && 0 <= st.at < |st.arena|
  {
    var q := |stack|;
    var p := stack[pos].pointers[which];
    var next := stack[p];
    if next.prefix == hex then
      assert Fits(next.(value := value), q) by { assert Fits(next, q); }
      Stop(stack[p := next.(value := value)])
    else if !IsPrefix(hex, next.prefix) then
      var b := SplitBranch(hex, next.prefix, q);
      var b' := b.(pointers := b.pointers[OfWhich(b, next.prefix) := p]);
      ShapedLink(stack, [NewLeaf(hex, value), b'], pos, which, q + 1);
      Stop(Link(stack + [NewLeaf(hex, value), b'], pos, which, q + 1))
    else Down(stack, p)
  }

  /** hex's slot of a staged branch has no link: an empty slot takes a new
      leaf; otherwise the child is read from the store and staged, with the
      same three cases as for a staged child, except that a child split off
      stays unstaged and is kept by its hash. */
  function PlaceUnstaged(store: map<string, string>, stack: seq<Node>, hex: string, value: string, pos: int, which: int): (st: Step)
    requires Shaped(stack) && 0 <= pos < |stack| && 0 <= which < 16 && !stack[pos].isLeaf
    ensures st.Stop? ==> Shaped(st.arena) && |st.arena| >= |stack|
    ensures st.Down? ==> Shaped(st.arena) && 0 <= st.at < |st.arena|
  {
    var q := |stack|;
    var h := stack[pos].hashes[which];
    if h == "" then
      ShapedLink(stack, [NewLeaf(hex, value)], pos, which, q);
      Stop(Link(stack + [NewLeaf(hex, value)], pos, which, q))
    else
      match Parse(h, ReadOr(store, h, ""))
      case Err(e) => Fail(e)
      case Ok(next) => PlaceRead(stack, hex, value, pos, which, next)
  }

  /** The child `next` just read for hex's slot: it takes the value when its
      prefix is hex; it is split off, by its hash, when hex does not extend
      its prefix; otherwise it is staged and the walk goes down to it. */
  function PlaceRead(stack: seq<Node>, hex: string, value: string, pos: int, which: int, next: Node): (st: Step)
    requires Shaped(stack) && 0 <= pos < |stack| && 0 <= which < 16 && !stack[pos].isLeaf
    requires next.pointers == Unlinked() && (!next.isLeaf ==> |next.hashes| == 16)
    ensures st.Stop? ==> Shaped(st.arena) && |st.arena| >= |stack|
    ensures st.Down? ==> Shaped(st.arena) && 0 <= st.at < |st.arena|
  {
    var q := |stack|;
    if next.prefix == hex then
      ShapedLink(stack, [next.(value := value)], pos, which, q);
      Stop(Link(stack + [next.(value := value)], pos, which, q))
    else if !IsPrefix(hex, next.prefix) then
      var b := SplitBranch(hex, next.prefix, q);
      var b' := b.(hashes := b.hashes[OfWhich(b, next.prefix) := next.hash]);
      ShapedLink(stack, [NewLeaf(hex, value), b'], pos, which, q + 1);
      Stop(Link(stack + [NewLeaf(hex, value), b'], pos, which, q + 1))
    else
      ShapedLink(stack, [next], pos, which, q);
      Down(Link(stack + [next], pos, which, q), q)
  }

  /** commit's inner loop from the node pos on, cnt passes made: the walk
      throws on its 42nd pass. */
  function Descend(store: map<string, string>, stack: seq<Node>, hex: string, value: string, pos: int, cnt: nat): Result<seq<Node>>
    requires Shaped(stack) && 0 <= pos < |stack|
    decreases 41 - cnt
  {
    if cnt > 40 then Err(InvalidLoop)
    else match PlaceStep(store, stack, hex, value, pos)
      case Stop(s) => Ok(s)
      case Fail(e) => Err(e)
      case Down(s, p) => Descend(store, s, hex, value, p, cnt + 1)
  }

  lemma {:induction false} NoCharPrefix(pre: string, s: string, c: char)
    requires pre <= s && NoChar(s, c)
    ensures NoChar(pre, c)
  {
    forall k | 0 <= k < |pre| ensures pre[k] != c {
      assert pre[k] == s[k];
    }
  }

  /** Staging nodes ranked below their links' sources, and linking a node to
      one ranked below it, keeps the arena ranked. */
  lemma {:induction false} ArenaLink(stack: seq<Node>, rank: seq<real>, added: seq<Node>, more: seq<real>, pos: int, which: int, target: int)
    requires Arena(stack, rank) && 0 <= pos < |stack| && 0 <= which < 16 && |more| == |added|
    requires Shaped(Link(stack + added, pos, which, target)) && 0 <= target < |stack| + |added|
    requires forall k, j ::
               (0 <= k < |added| && 0 <= j < |added[k].pointers| && 0 <= added[k].pointers[j] < |rank| + |more|) ==>
               (rank + more)[added[k].pointers[j]] < more[k]
    requires (rank + more)[target] < rank[pos]
    ensures Arena(Link(stack + added, pos, which, target), rank + more)
  {
    var s := Link(stack + added, pos, which, target);
    var r := rank + more;
    forall i, j | 0 <= i < |s| && 0 <= j < 16 && s[i].pointers[j] != -1
      ensures r[s[i].pointers[j]] < r[i]
    {
      if i == pos {
        if j != which {
          assert s[i].pointers[j] == stack[i].pointers[j];
        }
      } else if i < |stack| {
        assert s[i] == stack[i];
      } else {
        assert s[i] == added[i - |stack|];
      }
    }
  }

  lemma {:induction false} StagedLink(store: map<string, string>, stack: seq<Node>, added: seq<Node>, pos: int, which: int, target: int)
    requires Staged(store, stack) && 0 <= pos < |stack| && 0 <= which < |stack[pos].pointers|
    requires forall k :: 0 <= k < |added| ==> Anchored(store, added[k])
    ensures Staged(store, Link(stack + added, pos, which, target))
  {
    var s := Link(stack + added, pos, which, target);
    forall i | 0 <= i < |s| ensures Anchored(store, s[i]) {
      if i == pos {
        assert Anchored(store, stack[i]);
      } else if i < |stack| {
        assert s[i] == stack[i];
      } else {
        assert s[i] == added[i - |stack|];
      }
    }
  }

  /** A split's new branch and the new leaf are anchored: their prefixes
      are hex's, and the branch's one hash is a stored child's. */
  lemma {:induction false} SplitAnchored(store: map<string, string>, hex: string, np: string, leaf: int, w: int, h: string)
    requires NoChar(hex, '|') && 0 <= w < 16 && (h == "" || h in store)
    ensures Anchored(store, SplitBranch(hex, np, leaf))
    ensures Anchored(store, SplitBranch(hex, np, leaf).(hashes := NoHashes()[w := h]))
  {
    NoCharPrefix(CommonPrefix(hex, np), hex, '|');
  }

  /** The staged branch of PlaceStep keeps the arena ranked and staged. */
  lemma {:induction false} StagedKeeps(H: Hasher, store: map<string, string>, stack: seq<Node>, rank: seq<real>,
                    hex: string, value: string, pos: int, which: int) returns (rank': seq<real>)
    requires Arena(stack, rank) && Staged(store, stack) && NoChar(hex, '|')
    requires 0 <= pos < |stack| && 0 <= which < 16 && stack[pos].pointers[which] != -1
    ensures var st := PlaceStaged(stack, hex, value, pos, which);
      (st.Stop? || st.Down?) ==> Arena(st.arena, rank') && Staged(store, st.arena)
  {
    var p := stack[pos].pointers[which];
    var next := stack[p];
    rank' := rank;
    if next.prefix == hex {
      ValueKeeps(store, stack, rank, p, value);
    } else if !IsPrefix(hex, next.prefix) {
      rank' := SplitKeeps(store, stack, rank, hex, value, pos, which);
    }
  }

  /** Setting a staged node's value keeps the arena and what is anchored. */
  lemma {:induction false} ValueKeeps(store: map<string, string>, stack: seq<Node>, rank: seq<real>, p: int, value: string)
    requires Arena(stack, rank) && Staged(store, stack) && 0 <= p < |stack|
    ensures Arena(stack[p := stack[p].(value := value)], rank)
    ensures Staged(store, stack[p := stack[p].(value := value)])
  {
    var s := stack[p := stack[p].(value := value)];
    assert Anchored(store, stack[p]);
    forall i | 0 <= i < |s| ensures Anchored(store, s[i]) {
      assert Anchored(store, stack[i]);
    }
    forall i, j | 0 <= i < |s| && 0 <= j < 16 && s[i].pointers[j] != -1
      ensures rank[s[i].pointers[j]] < rank[i]
    {
      assert s[i].pointers == stack[i].pointers;
    }
  }

  /** Splitting above a staged node: the new leaf and branch are appended
      and linked, ranked below the parent and above the old child. */
  lemma {:induction false} SplitKeeps(store: map<string, string>, stack: seq<Node>, rank: seq<real>,
                    hex: string, value: string, pos: int, which: int) returns (rank': seq<real>)
    requires Arena(stack, rank) && Staged(store, stack) && NoChar(hex, '|')
    requires 0 <= pos < |stack| && 0 <= which < 16 && stack[pos].pointers[which] != -1
    requires !IsPrefix(hex, stack[stack[pos].pointers[which]].prefix)
    ensures var st := PlaceStaged(stack, hex, value, pos, which);
      Arena(st.arena, rank') && Staged(store, st.arena)
  {
    var q := |stack|;
    var p := stack[pos].pointers[which];
    var next := stack[p];
    var b := SplitBranch(hex, next.prefix, q);
    var b' := b.(pointers := b.pointers[OfWhich(b, next.prefix) := p]);
    var rc, rp := rank[pos], rank[p];
    var added := [NewLeaf(hex, value), b'];
    var more := [rp - 1.0, (rc + rp) / 2.0];
    assert next.prefix != hex;
    assert PlaceStaged(stack, hex, value, pos, which).arena == Link(stack + added, pos, which, q + 1);
    rank' := rank + more;
    SplitAnchored(store, hex, next.prefix, q, 0, "");
    assert Anchored(store, NewLeaf(hex, value));
    StagedLink(store, stack, added, pos, which, q + 1);
    SplitRanked(rank, added, p, rp, rc);
    ArenaLink(stack, rank, added, more, pos, which, q + 1);
  }

  /** The new leaf ranks below the new branch, which ranks above the old
      child and below the parent: every pointer of the added pair (to the
      leaf or to the old child) goes down in rank. */
  lemma {:induction false} SplitRanked(rank: seq<real>, added: seq<Node>, p: int, rp: real, rc: real)
    requires |added| == 2 && 0 <= p < |rank| && rank[p] == rp && rp < rc
    requires forall j :: 0 <= j < |added[0].pointers| ==> added[0].pointers[j] == -1
    requires forall j :: 0 <= j < |added[1].pointers| ==> added[1].pointers[j] in {-1, |rank|, p}
    ensures forall k, j ::
              (0 <= k < |added| && 0 <= j < |added[k].pointers| && 0 <= added[k].pointers[j] < |rank| + 2) ==>
              (rank + [rp - 1.0, (rc + rp) / 2.0])[added[k].pointers[j]] < [rp - 1.0, (rc + rp) / 2.0][k]
  {
    var r := rank + [rp - 1.0, (rc + rp) / 2.0];
    assert r[p] == rp && r[|rank|] == rp - 1.0;
  }

  /** Staging nodes ranked below their links' sources, each anchored, and
      linking the node at pos to one ranked below it. */
  lemma {:induction false} Stage(store: map<string, string>, stack: seq<Node>, rank: seq<real>, added: seq<Node>, more: seq<real>,
              pos: int, which: int, target: int)
    requires Arena(stack, rank) && Staged(store, stack) && 0 <= pos < |stack| && 0 <= which < 16 && |more| == |added|
    requires Shaped(Link(stack + added, pos, which, target)) && 0 <= target < |stack| + |added|
    requires forall k :: 0 <= k < |added| ==> Anchored(store, added[k])
    requires forall k, j ::
               (0 <= k < |added| && 0 <= j < |added[k].pointers| && 0 <= added[k].pointers[j] < |rank| + |more|) ==>
               (rank + more)[added[k].pointers[j]] < more[k]
    requires (rank + more)[target] < rank[pos]
    ensures Arena(Link(stack + added, pos, which, target), rank + more)
    ensures Staged(store, Link(stack + added, pos, which, target))
  {
    StagedLink(store, stack, added, pos, which, target);
    ArenaLink(stack, rank, added, more, pos, which, target);
  }

  /** The unstaged branch of PlaceStep keeps the arena ranked and staged:
      a child read from a sealed store is anchored. */
  lemma {:induction false} UnstagedKeeps(H: Hasher, store: map<string, string>, stack: seq<Node>, rank: seq<real>,
                      hex: string, value: string, pos: int, which: int) returns (rank': seq<real>)
    requires Arena(stack, rank) && Sealed(H, store) && Staged(store, stack) && NoChar(hex, '|')
    requires 0 <= pos < |stack| && 0 <= which < 16 && !stack[pos].isLeaf
    ensures var st := PlaceUnstaged(store, stack, hex, value, pos, which);
      (st.Stop? || st.Down?) ==> Arena(st.arena, rank') && Staged(store, st.arena)
  {
    var st := PlaceUnstaged(store, stack, hex, value, pos, which);
    var q := |stack|;
    var rc := rank[pos];
    var h := stack[pos].hashes[which];
    assert Anchored(store, stack[pos]);
    rank' := rank + [rc - 1.0];
    if h == "" {
      var leaf := NewLeaf(hex, value);
      assert st == Stop(Link(stack + [leaf], pos, which, q));
      Stage(store, stack, rank, [leaf], [rc - 1.0], pos, which, q);
    } else {
      assert RecordOk(H, store, h);
      var r := Parse(h, ReadOr(store, h, ""));
      if r.Ok? {
        rank' := ReadKeeps(store, stack, rank, hex, value, pos, which, r.value);
      }
    }
  }

  /** Staging a child anchored in the store keeps the arena ranked and
      staged. */
  lemma {:induction false} ReadKeeps(store: map<string, string>, stack: seq<Node>, rank: seq<real>,
                  hex: string, value: string, pos: int, which: int, next: Node) returns (rank': seq<real>)
    requires Arena(stack, rank) && Staged(store, stack) && NoChar(hex, '|')
    requires 0 <= pos < |stack| && 0 <= which < 16 && !stack[pos].isLeaf
    requires next.pointers == Unlinked() && Anchored(store, next) && next.hash in store
    ensures var st := PlaceRead(stack, hex, value, pos, which, next);
      (st.Stop? || st.Down?) ==> Arena(st.arena, rank') && Staged(store, st.arena)
  {
    var st := PlaceRead(stack, hex, value, pos, which, next);
    var q := |stack|;
    var rc := rank[pos];
    rank' := rank + [rc - 1.0];
    if next.prefix == hex {
      var copy := next.(value := value);
      Stage(store, stack, rank, [copy], [rc - 1.0], pos, which, q);
    } else if !IsPrefix(hex, next.prefix) {
      rank' := ReadSplitKeeps(store, stack, rank, hex, value, pos, which, next);
    } else {
      Stage(store, stack, rank, [next], [rc - 1.0], pos, which, q);
    }
  }

  /** A child read from the store that leaves hex's path, split off under a
      new branch beside the new leaf. */
  lemma {:induction false} ReadSplitKeeps(store: map<string, string>, stack: seq<Node>, rank: seq<real>,
                  hex: string, value: string, pos: int, which: int, next: Node) returns (rank': seq<real>)
    requires Arena(stack, rank) && Staged(store, stack) && NoChar(hex, '|')
    requires 0 <= pos < |stack| && 0 <= which < 16 && !stack[pos].isLeaf
    requires next.pointers == Unlinked() && Anchored(store, next) && next.hash in store
    requires next.prefix != hex && !IsPrefix(hex, next.prefix)
    ensures var st := PlaceRead(stack, hex, value, pos, which, next);
      Arena(st.arena, rank') && Staged(store, st.arena)
  {
    var q := |stack|;
    var rc := rank[pos];
    var leaf := NewLeaf(hex, value);
    var b := SplitBranch(hex, next.prefix, q);
    var w := OfWhich(b, next.prefix);
    var b' := b.(hashes := b.hashes[w := next.hash]);
    rank' := rank + [rc - 2.0, rc - 1.0];
    SplitAnchored(store, hex, next.prefix, q, w, next.hash);
    Stage(store, stack, rank, [leaf, b'], [rc - 2.0, rc - 1.0], pos, which, q + 1);
  }

  /** commit's inner loop keeps the arena ranked and staged. */
  lemma {:induction false} DescendKeeps(H: Hasher, store: map<string, string>, stack: seq<Node>, rank: seq<real>,
                                        hex: string, value: string, pos: int, cnt: nat) returns (rank': seq<real>)
    requires Arena(stack, rank) && Sealed(H, store) && Staged(store, stack) && NoChar(hex, '|')
    requires 0 <= pos < |stack|
    ensures var r := Descend(store, stack, hex, value, pos, cnt);
      r.Ok? ==> Arena(r.value, rank') && Staged(store, r.value) && |r.value| >= |stack|
    decreases 41 - cnt
  {
    rank' := rank;
    if cnt <= 40 {
      var which := OfWhich(stack[pos], hex);
      var st := PlaceStep(store, stack, hex, value, pos);
      if stack[pos].pointers[which] != -1 {
        rank' := StagedKeeps(H, store, stack, rank, hex, value, pos, which);
      } else if !stack[pos].isLeaf {
        rank' := UnstagedKeeps(H, store, stack, rank, hex, value, pos, which);
      }
      if st.Down? {
        rank' := DescendKeeps(H, store, st.arena, rank', hex, value, st.at, cnt + 1);
      }
    }
  }

  /** Dropping a branch's link and putting a stored hash in its slot keeps
      the arena ranked and staged. */
  lemma {:induction false} Unlink(store: map<string, string>, out: seq<Node>, rank: seq<real>, pos: int, i: int, h: string)
    requires Arena(out, rank) && Staged(store, out) && 0 <= pos < |out| && !out[pos].isLeaf && 0 <= i < 16 && h in store
    ensures var cur := out[pos];
      var out' := out[pos := cur.(hashes := cur.hashes[i := h], pointers := cur.pointers[i := -1])];
      Arena(out', rank) && Staged(store, out')
  {
    var cur := out[pos];
    var out' := out[pos := cur.(hashes := cur.hashes[i := h], pointers := cur.pointers[i := -1])];
    assert Fits(cur, |out|) && Anchored(store, cur);
    forall k, j | 0 <= k < |out'| && 0 <= j < 16 && out'[k].pointers[j] != -1
      ensures rank[out'[k].pointers[j]] < rank[k]
    {
      assert out'[k].pointers[j] == out[k].pointers[j];
    }
  }

  // ---------------------------------------------------------------------
  // gen_proof's walk

  datatype Walked = Found(levels: seq<Level>, last: Node) | Missing

  /** gen_proof's walk from the record under key towards hex: it stops at
      the node whose prefix is hex, answers Missing where hex leaves the
      trie, and otherwise descends through hex's slot, recording the branch.
      Levels are listed root first. The source's walk has no bound; here it
      gives up after `fuel` records. */
  function Walk(store: map<string, string>, key: string, hex: string, fuel: nat): (r: Result<Walked>)
    ensures r.Ok? && r.value.Found? ==> Selects(r.value.levels)
    decreases fuel, 1
  {
    if fuel == 0 then Err(InvalidLoop) else WalkRecord(store, key, hex, fuel)
  }

  /** One step of the walk: read key's record and stop there, or go on
      down hex's slot. */
  function WalkRecord(store: map<string, string>, key: string, hex: string, fuel: nat): (r: Result<Walked>)
    requires fuel > 0
    ensures r.Ok? && r.value.Found? ==> Selects(r.value.levels)
    decreases fuel, 0
  {
    match Parse(key, ReadOr(store, key, ""))
    case Err(e) => Err(e)
    case Ok(cur) =>
      if cur.prefix == hex then Ok(Found([], cur))
      else if !IsPrefix(hex, cur.prefix) then Ok(Missing)
      else if cur.isLeaf then Err(BadRecord)
      else
        var which := OfWhich(cur, hex);
        if cur.hashes[which] == "" then Ok(Missing)
        else match Walk(store, cur.hashes[which], hex, fuel - 1)
          case Err(e) => Err(e)
          case Ok(Missing) => Ok(Missing)
          case Ok(Found(levels, last)) => Ok(Found([Level(which, cur.hashes)] + levels, last))
  }

  /** The walk so far, `above` root first, then the walk still to come. */
  function Under(above: seq<Level>, r: Result<Walked>): Result<Walked> {
    match r
    case Err(e) => Err(e)
    case Ok(Missing) => Ok(Missing)
    case Ok(Found(levels, last)) => Ok(Found(above + levels, last))
  }

  /** What gen_proof answers for a walk: "?" where the key is missing, the
      records of the branches on the path otherwise. */
  function ProofText(r: Result<Walked>): Result<string>
    requires r.Ok? && r.value.Found? ==> Selects(r.value.levels)
  {
    match r
    case Err(e) => Err(e)
    case Ok(Missing) => Ok("?")
    case Ok(Found(levels, _)) => Ok(PathProof(levels))
  }

  /** The whole walk, seen one branch further down. */
  lemma {:induction false} UnderDown(above: seq<Level>, l: Level, r: Result<Walked>, r': Result<Walked>, top: Result<Walked>)
    requires top == Under(above, r) && r == Under([l], r')
    ensures top == Under(above + [l], r')
  {
    assert Under(above, Under([l], r')) == Under(above + [l], r') by {
      if r'.Ok? && r'.value.Found? {
        assert above + ([l] + r'.value.levels) == above + [l] + r'.value.levels;
      }
    }
  }

  lemma {:induction false} UnderFound(above: seq<Level>, r: Result<Walked>)
    requires Under(above, r).Ok? && Under(above, r).value.Found?
    ensures r.Ok? && r.value.Found?
    ensures Under(above, r).value == Found(above + r.value.levels, r.value.last)
  {
  }

  lemma {:induction false} PathProofAppend(levels: seq<Level>, l: Level)
    requires Selects(levels) && 0 <= l.which < 16
    ensures Selects(levels + [l]) && PathProof(levels + [l]) == PathProof(levels) + LevelRecord(l)
  {
    assert (levels + [l])[..|levels|] == levels;
  }

  /** Where the walk stops at the record it has just read. */
  lemma {:induction false} WalkStops(store: map<string, string>, key: string, hex: string, fuel: nat, cur: Node)
    requires fuel > 0 && Parse(key, ReadOr(store, key, "")) == Ok(cur)
    ensures cur.prefix == hex ==> Walk(store, key, hex, fuel) == Ok(Found([], cur))
    ensures cur.prefix != hex && !IsPrefix(hex, cur.prefix) ==> Walk(store, key, hex, fuel) == Ok(Missing)
    ensures cur.prefix != hex && IsPrefix(hex, cur.prefix) && cur.isLeaf ==> Walk(store, key, hex, fuel) == Err(BadRecord)
    ensures cur.prefix != hex && IsPrefix(hex, cur.prefix) && !cur.isLeaf && cur.hashes[OfWhich(cur, hex)] == "" ==>
      Walk(store, key, hex, fuel) == Ok(Missing)
  {
  }

  /** One step of the walk through a branch that hex extends. */
  lemma {:induction false} WalkUnfolds(store: map<string, string>, key: string, hex: string, fuel: nat, cur: Node)
    requires fuel > 0 && Parse(key, ReadOr(store, key, "")) == Ok(cur)
    requires cur.prefix != hex && IsPrefix(hex, cur.prefix) && !cur.isLeaf
    requires cur.hashes[OfWhich(cur, hex)] != ""
    ensures Walk(store, key, hex, fuel)
         == Under([Level(OfWhich(cur, hex), cur.hashes)], Walk(store, cur.hashes[OfWhich(cur, hex)], hex, fuel - 1))
  {
  }

  /** A stored branch's slots are all proof entries. */
  lemma {:induction false} StoredSlots(H: Hasher, store: map<string, string>, n: Node)
    requires Sealed(H, store) && Anchored(store, n) && !n.isLeaf
    ensures Slots(n.hashes)
  {
    forall k | 0 <= k < 16 ensures ChildHashOk(n.hashes[k]) {
      if n.hashes[k] != "" {
        StoredIsDigest(H, store, n.hashes[k]);
        DigestIsNotNull(n.hashes[k]);
      }
    }
  }

  /** What a walk that found its node went through first: the record
      under key, and either that node or a branch and the walk below it. */
  lemma {:induction false} WalkFound(store: map<string, string>, key: string, hex: string, fuel: nat, levels: seq<Level>, last: Node)
    returns (cur: Node)
    requires Walk(store, key, hex, fuel) == Ok(Found(levels, last))
    ensures fuel > 0 && key in store && Parse(key, store[key]) == Ok(cur)
    ensures cur.prefix == hex ==> levels == [] && last == cur
    ensures cur.prefix != hex ==> !cur.isLeaf && cur.hashes[OfWhich(cur, hex)] != "" && |levels| > 0
    ensures cur.prefix != hex ==> levels[0] == Level(OfWhich(cur, hex), cur.hashes)
    ensures cur.prefix != hex ==> Walk(store, cur.hashes[OfWhich(cur, hex)], hex, fuel - 1) == Ok(Found(levels[1..], last))
  {
    if key !in store {
      ParseMissing(key);
    }
    cur := Parse(key, store[key]).value;
    if cur.prefix != hex {
      var which := OfWhich(cur, hex);
      WalkUnfolds(store, key, hex, fuel, cur);
      UnderFound([Level(which, cur.hashes)], Walk(store, cur.hashes[which], hex, fuel - 1));
    }
  }

  /** Each level is a branch hashing to keys[j] whose slot on the path
      holds keys[j + 1]. */
  predicate Chained(H: Hasher, levels: seq<Level>, keys: seq<string>) {
    |keys| == |levels| + 1
    && forall j :: 0 <= j < |levels| ==>
         LevelOk(levels[j]) && Hash(H, Concat(levels[j].hashes)) == keys[j]
         && levels[j].hashes[levels[j].which] == keys[j + 1]
  }

  /** A chain of branches folds its last key back to its first. */
  lemma {:induction false} ChainFolds(H: Hasher, levels: seq<Level>, keys: seq<string>)
    requires Chained(H, levels, keys)
    ensures LevelsOk(levels) && FoldLevels(H, levels, keys[|levels|]) == keys[0]
    decreases |levels|
  {
    if levels != [] {
      var n := |levels|;
      var l := levels[n - 1];
      assert l.hashes[l.which := keys[n]] == l.hashes;
      assert Chained(H, levels[..n - 1], keys[..n]);
      ChainFolds(H, levels[..n - 1], keys[..n]);
    }
  }

  lemma {:induction false} ChainExtend(H: Hasher, levels: seq<Level>, keys: seq<string>, l: Level)
    requires Chained(H, levels, keys) && LevelOk(l) && Hash(H, Concat(l.hashes)) == keys[|levels|]
    ensures Chained(H, levels + [l], keys + [l.hashes[l.which]])
  {
    var levels', keys' := levels + [l], keys + [l.hashes[l.which]];
    forall j | 0 <= j < |levels'|
      ensures LevelOk(levels'[j]) && Hash(H, Concat(levels'[j].hashes)) == keys'[j]
              && levels'[j].hashes[levels'[j].which] == keys'[j + 1]
    {
      if j < |levels| {
        assert levels'[j] == levels[j] && keys'[j] == keys[j] && keys'[j + 1] == keys[j + 1];
      }
    }
  }

  /** One more level of a walk that found a leaf: the chain grows by the
      level's branch and the walk goes on from the slot it took. */
  lemma {:induction false} WalkChainStep(H: Hasher, store: map<string, string>, hex: string, w: Walked,
                                         i: int, k: string, f: nat, keys: seq<string>)
    requires Sealed(H, store) && w.Found? && w.last.isLeaf && 0 <= i < |w.levels|
    requires |keys| == i + 1 && keys[i] == k && Chained(H, w.levels[..i], keys)
    requires Walk(store, k, hex, f) == Ok(Found(w.levels[i..], w.last))
    ensures f > 0 && 0 <= w.levels[i].which < |w.levels[i].hashes|
    ensures Chained(H, w.levels[..i + 1], keys + [w.levels[i].hashes[w.levels[i].which]])
    ensures Walk(store, w.levels[i].hashes[w.levels[i].which], hex, f - 1) == Ok(Found(w.levels[i + 1..], w.last))
  {
    WalkSealed(H, store, k, hex, f, Found(w.levels[i..], w.last));
    assert w.levels[i..][0] == w.levels[i] && w.levels[i..][1..] == w.levels[i + 1..];
    ChainExtend(H, w.levels[..i], keys, w.levels[i]);
    assert w.levels[..i + 1] == w.levels[..i] + [w.levels[i]];
  }

  /** In a sealed store, the path to a leaf folds, with the leaf's value
      hashed, back to the key the walk started from. */
  lemma {:induction false} WalkFolds(H: Hasher, store: map<string, string>, key: string, hex: string, fuel: nat,
                                     w: Walked)
    requires Sealed(H, store) && w.Found? && w.last.isLeaf
    requires Walk(store, key, hex, fuel) == Ok(w)
    ensures LevelsOk(w.levels) && FoldLevels(H, w.levels, Hash(H, w.last.value)) == key
  {
    WalkFoldsFrom(H, store, hex, w, 0, key, fuel, [key]);
  }

  /** The walk's levels from i on, with the chain of keys down to level i. */
  lemma {:induction false} WalkFoldsFrom(H: Hasher, store: map<string, string>, hex: string, w: Walked,
                                         i: int, k: string, f: nat, keys: seq<string>)
    requires Sealed(H, store) && w.Found? && w.last.isLeaf && 0 <= i <= |w.levels|
    requires |keys| == i + 1 && keys[i] == k && Chained(H, w.levels[..i], keys)
    requires Walk(store, k, hex, f) == Ok(Found(w.levels[i..], w.last))
    ensures LevelsOk(w.levels) && FoldLevels(H, w.levels, Hash(H, w.last.value)) == keys[0]
    decreases |w.levels| - i
  {
    if i == |w.levels| {
      assert w.levels[..i] == w.levels && w.levels[i..] == [];
      WalkChainEnd(H, store, hex, w, k, f, keys);
    } else {
      WalkChainStep(H, store, hex, w, i, k, f, keys);
      var k' := w.levels[i].hashes[w.levels[i].which];
      WalkFoldsFrom(H, store, hex, w, i + 1, k', f - 1, keys + [k']);
    }
  }

  /** At the leaf the chain closes: its hash is the last key. */
  lemma {:induction false} WalkChainEnd(H: Hasher, store: map<string, string>, hex: string, w: Walked,
                                        k: string, f: nat, keys: seq<string>)
    requires Sealed(H, store) && w.Found? && w.last.isLeaf
    requires |keys| == |w.levels| + 1 && keys[|w.levels|] == k && Chained(H, w.levels, keys)
    requires Walk(store, k, hex, f) == Ok(Found([], w.last))
    ensures LevelsOk(w.levels) && FoldLevels(H, w.levels, Hash(H, w.last.value)) == keys[0]
  {
    WalkSealed(H, store, k, hex, f, Found([], w.last));
    ChainFolds(H, w.levels, keys[|w.levels| := Hash(H, w.last.value)]);
  }

  /** What one record of a sealed store tells about a walk that found a
      leaf: the leaf hashes to key, or the first branch does and the walk
      goes on from the slot it took. */
  lemma {:induction false} WalkSealed(H: Hasher, store: map<string, string>, key: string, hex: string, fuel: nat,
                                      w: Walked)
    requires Sealed(H, store) && w.Found? && w.last.isLeaf
    requires Walk(store, key, hex, fuel) == Ok(w)
    ensures w.levels == [] ==> Hash(H, w.last.value) == key
    ensures w.levels != [] ==> fuel > 0 && LevelOk(w.levels[0]) && Hash(H, Concat(w.levels[0].hashes)) == key
    ensures w.levels != [] ==>
      Walk(store, w.levels[0].hashes[w.levels[0].which], hex, fuel - 1) == Ok(Found(w.levels[1..], w.last))
  {
    var cur := WalkFound(store, key, hex, fuel, w.levels, w.last);
    if cur.prefix == hex {
      FoldHere(H, store, key, cur);
    } else {
      BranchHere(H, store, key, cur);
    }
  }

  /** A stored leaf's key is the hash of its value. */
  lemma {:induction false} FoldHere(H: Hasher, store: map<string, string>, key: string, cur: Node)
    requires Sealed(H, store) && key in store && Parse(key, store[key]) == Ok(cur) && cur.isLeaf
    ensures Hash(H, cur.value) == key
  {
    assert RecordOk(H, store, key);
  }

  /** A stored branch's key is the hash of its slots, all proof entries. */
  lemma {:induction false} BranchHere(H: Hasher, store: map<string, string>, key: string, cur: Node)
    requires Sealed(H, store) && key in store && Parse(key, store[key]) == Ok(cur) && !cur.isLeaf
    ensures Slots(cur.hashes) && Hash(H, Concat(cur.hashes)) == key
  {
    assert RecordOk(H, store, key);
    StoredSlots(H, store, cur);
  }

  /** gen_proof's loop: from the root digest down hex's path, emitting one
      record per branch passed. */
  method WalkProof(store: map<string, string>, digest: string, hex: string) returns (r: Result<string>)
    ensures r == ProofText(Walk(store, digest, hex, |hex| + 1))
  {
    var output, key := "", digest;
    var fuel: nat := |hex| + 1;
    ghost var top := Walk(store, digest, hex, fuel);
    ghost var rest, levels: seq<Level> := top, [];
    if top.Ok? && top.value.Found? {
      assert [] + top.value.levels == top.value.levels;
    }
    while true
      invariant rest == Walk(store, key, hex, fuel)
      invariant top == Under(levels, rest)
      invariant Selects(levels) && output == PathProof(levels)
      decreases fuel
    {
      if fuel == 0 {
        r := Err(InvalidLoop);
        break;
      }
      var done;
      done, key, rest, levels, output, fuel := Visit(store, key, hex, fuel, rest, levels, output, top);
      if done.Some? {
        r := done.value;
        break;
      }
    }
  }

  /** One pass of gen_proof's loop: read key's record, then either stop
      with the answer, or emit the branch's record and go down hex's slot,
      the walk still to come (rest) becoming the walk from the child. */
  method Visit(store: map<string, string>, key: string, hex: string, fuel: nat, ghost rest: Result<Walked>,
               ghost levels: seq<Level>, output: string, ghost top: Result<Walked>)
    returns (done: Option<Result<string>>, key': string, ghost rest': Result<Walked>, ghost levels': seq<Level>, output': string,
             fuel': nat)
    requires fuel > 0 && rest == Walk(store, key, hex, fuel)
    requires Selects(levels) && output == PathProof(levels) && top == Under(levels, rest)
    ensures fuel' < fuel
    ensures done.Some? ==> (rest.Ok? && rest.value.Found? ==> rest.value.levels == [])
    ensures done.Some? ==> done.value == ProofText(top)
    ensures done.None? ==> rest' == Walk(store, key', hex, fuel') && top == Under(levels', rest')
    ensures done.None? ==> Selects(levels') && output' == PathProof(levels')
  {
    key', rest', levels', output', fuel' := key, rest, levels, output, fuel - 1;
    var parsed := Parse(key, ReadOr(store, key, ""));
    if parsed.Err? {
      return Some(Err(parsed.error)), key', rest', levels', output', fuel';
    }
    var cur := parsed.value;
    WalkStops(store, key, hex, fuel, cur);
    if cur.prefix == hex {
      assert levels + [] == levels;
      return Some(Ok(output)), key', rest', levels', output', fuel';
    }
    if !IsPrefix(hex, cur.prefix) {
      return Some(Ok("?")), key', rest', levels', output', fuel';
    }
    if cur.isLeaf {
      return Some(Err(BadRecord)), key', rest', levels', output', fuel';
    }
    var which := OfWhich(cur, hex);
    if cur.hashes[which] == "" {
      return Some(Ok("?")), key', rest', levels', output', fuel';
    }
    WalkUnfolds(store, key, hex, fuel, cur);
    var l := Level(which, cur.hashes);
    var record := EmitRecord(which, cur.hashes);
    key' := cur.hashes[which];
    rest' := Walk(store, key', hex, fuel');
    UnderDown(levels, l, rest, rest', top);
    PathProofAppend(levels, l);
    levels', output' := levels + [l], output + record;
    done := None;
  }

  /** What gen_proof returns for a stored leaf is accepted by verify_proof
      against the digest, under the check as written and as intended. */
  lemma {:induction false} GenProofVerifies(H: Hasher, store: map<string, string>, digest: string, hex: string, fuel: nat)
    requires Sealed(H, store)
    requires Walk(store, digest, hex, fuel).Ok? && Walk(store, digest, hex, fuel).value.Found?
    requires Walk(store, digest, hex, fuel).value.last.isLeaf
    ensures var w := Walk(store, digest, hex, fuel).value;
      Verify(H, digest, w.last.value, PathProof(w.levels))
      && VerifyChecked(H, digest, w.last.value, PathProof(w.levels))
  {
    var w := Walk(store, digest, hex, fuel).value;
    WalkFolds(H, store, digest, hex, fuel, w);
    VerifyPathComplete(H, digest, w.last.value, w.levels);
    CheckedPathComplete(H, digest, w.last.value, w.levels);
  }

  // ---------------------------------------------------------------------
  // The tree

  /** The record init writes for the empty root: no prefix, sixteen empty
      slots. */
  const EmptyRoot: string := "|" + Repeat(',', 15)

  lemma {:induction false} JoinEmpty(hs: seq<string>)
    requires |hs| >= 1 && forall i :: 0 <= i < |hs| ==> hs[i] == ""
    ensures Join(hs) == Repeat(',', |hs| - 1) && Concat(hs) == ""
  {
    if |hs| > 1 {
      JoinEmpty(hs[1..]);
    }
  }

  lemma {:induction false} EmptyRootSealed(H: Hasher)
    ensures Sealed(H, map[Hash(H, "") := EmptyRoot])
  {
    EmptyRootPrinted(H);
    EmptyRootAnchored();
    WriteSealed(H, map[], NewBranch("", NoHashes()));
  }

  /** The empty root prints as EmptyRoot and hashes as the empty string. */
  lemma {:induction false} EmptyRootPrinted(H: Hasher)
    ensures ToString(NewBranch("", NoHashes())) == EmptyRoot
    ensures NodeHash(H, NewBranch("", NoHashes())) == Hash(H, "")
  {
    JoinEmpty(NoHashes());
  }

  /** The empty root needs nothing stored and nothing is sealed trivially. */
  lemma {:induction false} EmptyRootAnchored()
    ensures Anchored(map[], NewBranch("", NoHashes()))
    ensures forall H: Hasher :: Sealed(H, map[])
  {
    assert NoChar("", '|');
  }
}
