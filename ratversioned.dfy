// The versioned radix tries of rattree.hpp: RatPrefix (NodeRatPrefix),
// RatCompact (NodeRatCompact) and RatPadding (NodeRatPadding). Records are
// stored under keys "<prefix>-<version>" instead of under their hashes; a
// commit copies the path it changes under the new version and leaves every
// older record in place. RatPrefix keeps each child's hash in its parent's
// record; RatCompact and RatPadding keep a node's own hash at the head of
// its record, and RatPadding pads every key with '&' to 64 characters.
module RatVersioned {
  import opened Results
  import opened Tools
  import opened IO
  import opened Proof16
  import RatTree

  /** Which of the three trees: RatCompact and RatPadding share one engine,
      RatPadding adding the padding and the key-length checks. */
  datatype Kind = Prefix | Compact | Padding

  /** One node: `keys` name the sixteen children's records; `hashes` are
      RatPrefix's copies of the children's hashes (sixteen "" in the other
      two, which keep the node's own hash in `hash`); `keyLen` is the length
      of the key's prefix, up to its '-'. */
  datatype Node = Node(key: string, value: string, hash: string, keys: seq<string>, hashes: seq<string>,
                       pointers: seq<int>, isRoot: bool, isLeaf: bool, keyLen: int)

  function Blanks(): (s: seq<string>)
    ensures |s| == 16 && forall i :: 0 <= i < 16 ==> s[i] == ""
  {
    ["", "", "", "", "", "", "", "", "", "", "", "", "", "", "", ""]
  }

  // ---------------------------------------------------------------------
  // Keys and versions

  /** n padding characters '&'. */
  function Amps(n: nat): (s: string)
    ensures |s| == n && forall i :: 0 <= i < n ==> s[i] == '&'
  {
    if n == 0 then "" else "&" + Amps(n - 1)
  }

  /** RatPadding pads every key it writes with '&' to 64 characters; the
      other two use keys as they are. */
  function Pad(kind: Kind, k: string): (r: string)
    ensures k <= r && (kind == Padding ==> |r| >= 64)
    ensures kind != Padding ==> r == k
  {
    if kind == Padding && |k| < 64 then k + Amps(64 - |k|) else k
  }

  /** The key of a record with prefix p made at version v. */
  function KeyFor(kind: Kind, p: string, v: string): string {
    Pad(kind, p + "-" + v)
  }

  /** The root's key at version v. */
  function RootKey(kind: Kind, v: string): string {
    KeyFor(kind, "*", v)
  }

  /** strver: "0" before the first commit, then int_to_hex(version). */
  function StrVer(version: nat): string {
    if version == 0 then "0" else HexDigitsLsb(version)
  }

  /** The version a key names: what follows its first '-', up to any
      padding. */
  function TagOf(k: string): string {
    var d := RatTree.Find(k, '-', 0);
    var t := if d < |k| then k[d + 1..] else "";
    t[..RatTree.Find(t, '&', 0)]
  }

  lemma {:induction false} StrVerValue(version: nat)
    ensures HexValueLsb(StrVer(version)) == version && IsUpperHex(StrVer(version))
  {
    if version == 0 {
      assert Hti('0') == 0;
      assert HexValueLsb("0") == Hti('0') + 16 * HexValueLsb("");
    } else {
      HexDigitsRoundTrip(version);
    }
  }

  lemma {:induction false} UpperHexHasNo(s: string, c: char)
    requires IsUpperHex(s) && !IsUpperHexChar(c)
    ensures RatTree.NoChar(s, c)
  {
  }

  /** A key made from a prefix without '-' and a version without '&' names
      that version. */
  lemma {:induction false} TagOfKey(kind: Kind, p: string, v: string)
    requires RatTree.NoChar(p, '-') && RatTree.NoChar(v, '&')
    ensures TagOf(KeyFor(kind, p, v)) == v
  {
    var k := KeyFor(kind, p, v);
    var pad := k[|p| + 1 + |v|..];
    assert k == p + "-" + v + pad;
    assert pad == [] || pad[0] == '&';
    RatTree.FindPast([], p, "-" + v + pad, '-');
    assert [] + p + ("-" + v + pad) == k;
    var t := k[|p| + 1..];
    assert t == v + pad;
    RatTree.FindPast([], v, pad, '&');
    assert [] + v + pad == t;
  }

  /** Keys of different versions differ. */
  lemma {:induction false} TagsApart(a: string, b: string)
    requires HexValueLsb(TagOf(a)) != HexValueLsb(TagOf(b))
    ensures a != b
  {
  }

  // ---------------------------------------------------------------------
  // Nodes

  /** The leaf constructor: keyLen 64, no children. */
  function NewLeaf(key: string, value: string): Node {
    Node(key, value, "", [], [], RatTree.Unlinked(), false, true, 64)
  }

  /** The branch constructor of a split: sixteen empty slots, the key's
      prefix up to its '-'. */
  function NewBranch(key: string): Node {
    Node(key, "", "", Blanks(), Blanks(), RatTree.Unlinked(), false, false, RatTree.Find(key, '-', 0))
  }

  /** ofWhich: the slot of k below n, from k's first character at the root
      and from the character past n's prefix elsewhere ('\0', slot 0, past
      the end of k). */
  function OfWhich(n: Node, k: string): (w: int)
    ensures 0 <= w < 16
  {
    Hti(CharAt(k, if n.isRoot then 0 else n.keyLen))
  }

  /** The prefix a child key names: the text before its first '-'. */
  function KeyPrefix(kc: string): string {
    kc[..RatTree.Find(kc, '-', 0)]
  }

  /** isPrefixChild: k extends the prefix of the key in slot c. */
  function IsPrefixChild(n: Node, c: int, k: string): (r: bool)
    requires 0 <= c < |n.keys|
    ensures r <==> KeyPrefix(n.keys[c]) <= k
  {
    IsPrefix(k, KeyPrefix(n.keys[c]))
  }

  /** The part of n's key that a new version keeps: up to keyLen when the
      key is longer. */
  function Base(n: Node): string {
    if 0 <= n.keyLen < |n.key| then n.key[..n.keyLen] else n.key
  }

  /** changeVersion: the key's prefix, then "-" and the new version (and,
      in RatPadding, the padding). */
  function ChangeVersion(kind: Kind, n: Node, v: string): (m: Node)
    ensures m == n.(key := KeyFor(kind, Base(n), v))
  {
    n.(key := Pad(kind, Base(n) + "-" + v))
  }

  /** A node read from its record has keyLen at its key's first '-', so a
      new version of it names that version. */
  lemma {:induction false} ChangeVersionTag(kind: Kind, n: Node, v: string)
    requires n.keyLen == RatTree.Find(n.key, '-', 0) && RatTree.NoChar(v, '&')
    ensures TagOf(ChangeVersion(kind, n, v).key) == v
    ensures Base(n) <= n.key && RatTree.NoChar(Base(n), '-')
  {
    RatTree.FindFirst(n.key, '-', 0);
    TagOfKey(kind, Base(n), v);
  }

  // ---------------------------------------------------------------------
  // Records

  /** The reading constructor's loop of NodeRatPrefix: n pairs "key:hash"
      separated by commas at the start of v. A key runs to the next ':',
      which the source looks for without a bound (undefined past the end);
      a hash runs to the next comma or the end, and a further pair would
      start past the end. */
  function PairsOf(v: string, n: nat): (r: Result<(seq<string>, seq<string>)>)
    ensures r.Ok? ==> |r.value.0| == n && |r.value.1| == n
    decreases n
  {
    if n == 0 then Ok(([], []))
    else
      var c := RatTree.Find(v, ':', 0);
      if c == |v| then Err(BadRecord)
      else
        var e := RatTree.Find(v, ',', c + 1);
        var rest := if e < |v| then PairsOf(v[e + 1..], n - 1) else if n == 1 then Ok(([], [])) else Err(BadRecord);
        match rest
        case Err(x) => Err(x)
        case Ok(r) => Ok(([v[..c]] + r.0, [v[c + 1..e]] + r.1))
  }

  /** to_string's "key:hash" pairs joined with commas. */
  function JoinPairs(ks: seq<string>, hs: seq<string>): string
    requires |ks| == |hs|
  {
    if ks == [] then ""
    else if |ks| == 1 then ks[0] + ":" + hs[0]
    else ks[0] + ":" + hs[0] + "," + JoinPairs(ks[1..], hs[1..])
  }

  /** The reading constructors. RatPadding throws on a key shorter than 64
      characters; RatCompact and RatPadding take the first 64 characters as
      the node's hash and throw (substr) on a shorter record; a record (or,
      in those two, its rest) starting with '!' is a leaf. */
  function Parse(kind: Kind, key: string, v: string): (r: Result<Node>)
    ensures r.Ok? ==> r.value.key == key && r.value.pointers == RatTree.Unlinked()
    ensures r.Ok? ==> r.value.keyLen == RatTree.Find(key, '-', 0) && r.value.isRoot == (CharAt(key, 0) == '*')
    ensures r.Ok? && !r.value.isLeaf ==> |r.value.keys| == 16 && |r.value.hashes| == 16 && r.value.value == ""
    ensures r.Ok? && !r.value.isLeaf ==> if kind == Prefix then r.value.hash == "" else r.value.hashes == Blanks()
    ensures r.Ok? && kind != Prefix ==> |v| >= 64 && r.value.hash == v[..64]
    ensures r.Ok? && kind == Padding ==> |key| >= 64
  {
    var root := CharAt(key, 0) == '*';
    var kl := RatTree.Find(key, '-', 0);
    if kind == Padding && |key| < 64 then Err(KeyTooShort)
    else if kind == Prefix then
      if CharAt(v, 0) == '!' then Ok(Node(key, v[1..], "", [], [], RatTree.Unlinked(), root, true, kl))
      else
        match PairsOf(v, 16)
        case Err(e) => Err(e)
        case Ok(p) => Ok(Node(key, "", "", p.0, p.1, RatTree.Unlinked(), root, false, kl))
    else if |v| < 64 then Err(OutOfRange)
    else if CharAt(v, 64) == '!' then Ok(Node(key, v[65..], v[..64], [], [], RatTree.Unlinked(), root, true, kl))
    else
      match RatTree.FieldsFrom(v, 64, 16)
      case Err(e) => Err(e)
      case Ok(ks) => Ok(Node(key, "", v[..64], ks, Blanks(), RatTree.Unlinked(), root, false, kl))
  }

  /** to_string. */
  function ToString(kind: Kind, n: Node): string {
    if kind == Prefix then
      if n.isLeaf || |n.keys| != |n.hashes| then "!" + n.value else JoinPairs(n.keys, n.hashes)
    else if n.isLeaf then n.hash + "!" + n.value
    else n.hash + RatTree.Join(n.keys)
  }

  /** NodeRatPrefix::computeHash. */
  function NodeHash(H: Hasher, n: Node): string {
    if n.isLeaf then Hash(H, n.value) else Hash(H, Concat(n.hashes))
  }

  /** A key as a slot may hold it: without the record's separator, and not
      starting with '!', so that the record reads back. */
  predicate SlotKey(kind: Kind, k: string) {
    RatTree.NoChar(k, if kind == Prefix then ':' else ',') && CharAt(k, 0) != '!'
  }

  /** A node whose record reads back as itself. */
  predicate Printable(kind: Kind, n: Node) {
    (kind != Prefix ==> |n.hash| == 64)
    && (!n.isLeaf ==>
          |n.keys| == 16 && |n.hashes| == 16
          && (forall i :: 0 <= i < 16 ==> SlotKey(kind, n.keys[i]))
          && (kind == Prefix ==> forall i :: 0 <= i < 16 ==> RatTree.NoChar(n.hashes[i], ',')))
  }

  /** Reading back joined pairs gives the keys and hashes. */
  lemma {:induction false} PairsOfJoin(ks: seq<string>, hs: seq<string>)
    requires |ks| == |hs| >= 1
    requires forall i :: 0 <= i < |ks| ==> RatTree.NoChar(ks[i], ':') && RatTree.NoChar(hs[i], ',')
    ensures PairsOf(JoinPairs(ks, hs), |ks|) == Ok((ks, hs))
    decreases |ks|
  {
    if |ks| == 1 {
      PairsJoinStep(ks, hs);
    } else {
      PairsOfJoin(ks[1..], hs[1..]);
      PairsJoinStep(ks, hs);
    }
  }

  /** The first pair of joined pairs, then the rest. */
  lemma {:induction false} PairsJoinStep(ks: seq<string>, hs: seq<string>)
    requires |ks| == |hs| >= 1
    requires RatTree.NoChar(ks[0], ':') && RatTree.NoChar(hs[0], ',')
    requires |ks| > 1 ==> PairsOf(JoinPairs(ks[1..], hs[1..]), |ks| - 1) == Ok((ks[1..], hs[1..]))
    ensures PairsOf(JoinPairs(ks, hs), |ks|) == Ok((ks, hs))
  {
    var v := JoinPairs(ks, hs);
    var c := |ks[0]|;
    var e := c + 1 + |hs[0]|;
    var tail := if |ks| == 1 then "" else "," + JoinPairs(ks[1..], hs[1..]);
    PairSplit(v, ks[0], hs[0], tail);
    if |ks| == 1 {
      PairsStep(v, 1, c, e, ([], []));
      assert [ks[0]] + [] == ks && [hs[0]] + [] == hs;
    } else {
      var w := JoinPairs(ks[1..], hs[1..]);
      assert tail[1..] == w;
      PairsCons(v, ks, hs, c, e, w);
    }
  }

  lemma {:induction false} PairsCons(v: string, ks: seq<string>, hs: seq<string>, c: nat, e: nat, w: string)
    requires |ks| == |hs| >= 2
    requires RatTree.Find(v, ':', 0) == c < e < |v| && RatTree.Find(v, ',', c + 1) == e
    requires v[..c] == ks[0] && v[c + 1..e] == hs[0] && v[e + 1..] == w
    requires PairsOf(w, |ks| - 1) == Ok((ks[1..], hs[1..]))
    ensures PairsOf(v, |ks|) == Ok((ks, hs))
  {
    PairsStep(v, |ks|, c, e, (ks[1..], hs[1..]));
    assert [ks[0]] + ks[1..] == ks && [hs[0]] + hs[1..] == hs;
  }

  /** One pair read from the start of v, then the others. */
  lemma {:induction false} PairsStep(v: string, n: nat, c: nat, e: nat, r: (seq<string>, seq<string>))
    requires n >= 1 && RatTree.Find(v, ':', 0) == c < |v| && c + 1 <= |v| && RatTree.Find(v, ',', c + 1) == e
    requires e < |v| ==> PairsOf(v[e + 1..], n - 1) == Ok(r)
    requires e == |v| ==> n == 1 && r == ([], [])
    ensures PairsOf(v, n) == Ok(([v[..c]] + r.0, [v[c + 1..e]] + r.1))
  {
  }

  /** Where the reading loop finds the pair "k:h" at the start of v. */
  lemma {:induction false} PairSplit(v: string, k: string, h: string, tail: string)
    requires RatTree.NoChar(k, ':') && RatTree.NoChar(h, ',') && (tail == [] || tail[0] == ',')
    requires v == k + ":" + h + tail
    ensures RatTree.Find(v, ':', 0) == |k| < |v|
    ensures RatTree.Find(v, ',', |k| + 1) == |k| + 1 + |h|
    ensures v[..|k|] == k && v[|k| + 1..|k| + 1 + |h|] == h
    ensures tail != [] ==> v[|k| + 1 + |h| + 1..] == tail[1..]
  {
    PairParts(k, h, tail);
    RatTree.FindPast([], k, ":" + h + tail, ':');
    RatTree.FindPast(k + ":", h, tail, ',');
    PairSlices(k, h, tail);
  }

  /** The pair "k:h" followed by tail, grouped the ways the reading loop
      looks at it. */
  lemma {:induction false} PairParts(k: string, h: string, tail: string)
    ensures k + ":" + h + tail == [] + k + (":" + h + tail)
  {
  }

  /** The key, the hash and what follows the comma, sliced back out. */
  lemma {:induction false} PairSlices(k: string, h: string, tail: string)
    ensures var v := k + ":" + h + tail;
      v[..|k|] == k && v[|k| + 1..|k| + 1 + |h|] == h && (tail != [] ==> v[|k| + 1 + |h| + 1..] == tail[1..])
  {
    var v := k + ":" + h + tail;
    RatTree.SliceFirst(k + ":", h, tail);
    assert v[..|k|] == k;
    if tail != [] {
      assert v[|k| + 1 + |h| + 1..] == tail[1..];
    }
  }

  /** A record whose first key may hold no '!' does not start with one. */
  lemma {:induction false} BranchHead(kind: Kind, n: Node)
    requires Printable(kind, n) && !n.isLeaf
    ensures kind == Prefix ==> CharAt(ToString(kind, n), 0) != '!'
    ensures kind != Prefix ==> CharAt(ToString(kind, n), 64) != '!'
  {
    assert SlotKey(kind, n.keys[0]);
    var body := if kind == Prefix then JoinPairs(n.keys, n.hashes) else RatTree.Join(n.keys);
    var sep := if kind == Prefix then ":" else ",";
    assert body == n.keys[0] + sep + body[|n.keys[0]| + 1..];
    if kind != Prefix {
      assert ToString(kind, n) == n.hash + body;
    }
  }

  /** to_string and the reading constructor are inverse on printable nodes:
      the record reads back with the same kind, contents and (in RatCompact
      and RatPadding) hash. */
  lemma {:induction false} ParsePrinted(kind: Kind, key: string, n: Node)
    requires Printable(kind, n) && (kind == Padding ==> |key| >= 64)
    ensures Parse(kind, key, ToString(kind, n)).Ok?
    ensures var m := Parse(kind, key, ToString(kind, n)).value;
      m.isLeaf == n.isLeaf && (n.isLeaf ==> m.value == n.value) && (kind != Prefix ==> m.hash == n.hash)
      && (!n.isLeaf ==> m.keys == n.keys && (kind == Prefix ==> m.hashes == n.hashes))
  {
    var v := ToString(kind, n);
    if !n.isLeaf {
      BranchHead(kind, n);
      if kind == Prefix {
        forall i | 0 <= i < 16 ensures RatTree.NoChar(n.keys[i], ':') {
          assert SlotKey(kind, n.keys[i]);
        }
        PairsOfJoin(n.keys, n.hashes);
      } else {
        forall i | 0 <= i < 16 ensures RatTree.NoChar(n.keys[i], ',') {
          assert SlotKey(kind, n.keys[i]);
        }
        RatTree.FieldsOfJoin(n.hash, n.keys);
      }
    } else if kind != Prefix {
      assert v == n.hash + "!" + n.value;
      assert v[..64] == n.hash && v[65..] == n.value;
    }
  }
}
