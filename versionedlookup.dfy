// What a versioned trie's records say about each key (gen_proof's walk in
// rattree.hpp's RatPrefix, RatCompact and RatPadding, followed without a
// bound), the shape of trie a commit keeps, and how commit's placements and
// _compute's writes change what each key reads as.
module VersionedLookup {
  import opened Results
  import opened Tools
  import opened IO
  import opened Proof16
  import RatTree
  import RatLookup
  import opened RatVersioned
  import opened VersionedTree

  /** The prefix a node stands for: none for a root, otherwise the text of
      its key before the first '-'. */
  function Reach(n: Node): string {
    if n.isRoot then "" else KeyPrefix(n.key)
  }

  /** gen_proof's walk from the node cur towards k, with no bound: a child
      whose prefix is no longer than its parent's reads as broken, so the
      walk always ends. */
  function LookAt(kind: Kind, store: map<string, string>, cur: Node, k: string): RatLookup.Seen
    decreases RatLookup.Gap(Reach(cur), k), 1
  {
    if Reach(cur) == k then (if cur.isLeaf then RatLookup.Holds(cur.value) else RatLookup.Inner)
    else if !(Reach(cur) <= k) then RatLookup.Absent
    else if cur.isLeaf || |cur.keys| != 16 then RatLookup.Broken
    else Beneath(kind, store, Reach(cur), cur.keys[OfWhich(cur, k)], k)
  }

  /** The walk's step from a branch with prefix `above` into the child
      stored under sk. */
  function Beneath(kind: Kind, store: map<string, string>, above: string, sk: string, k: string): RatLookup.Seen
    requires above <= k && above != k
    decreases RatLookup.Gap(above, k), 0
  {
    if sk == "" then RatLookup.Absent
    else match Parse(kind, sk, ReadOr(store, sk, ""))
      case Err(_) => RatLookup.Broken
      case Ok(c) => if |Reach(c)| <= |above| then RatLookup.Broken else LookAt(kind, store, c, k)
  }

  /** What k reads as in the trie whose root record is stored under key. */
  function Look(kind: Kind, store: map<string, string>, key: string, k: string): RatLookup.Seen {
    match Parse(kind, key, ReadOr(store, key, ""))
    case Err(_) => RatLookup.Broken
    case Ok(n) => LookAt(kind, store, n, k)
  }

  /** The same walk over commit's stack from the node pos: a linked slot is
      followed by its link, an unlinked one into the store. */
  function Seek(kind: Kind, store: map<string, string>, s: seq<Node>, pos: int, k: string): RatLookup.Seen
    requires Shaped(s) && 0 <= pos < |s|
    decreases RatLookup.Gap(Reach(s[pos]), k)
  {
    var n := s[pos];
    assert Fits(n, |s|);
    if Reach(n) == k then (if n.isLeaf then RatLookup.Holds(n.value) else RatLookup.Inner)
    else if !(Reach(n) <= k) then RatLookup.Absent
    else if n.isLeaf then RatLookup.Broken
    else
      var p := n.pointers[OfWhich(n, k)];
      if p == -1 then Beneath(kind, store, Reach(n), n.keys[OfWhich(n, k)], k)
      else if |Reach(s[p])| <= |Reach(n)| then RatLookup.Broken
      else Seek(kind, store, s, p, k)
  }

  // ---------------------------------------------------------------------
  // The trie commit keeps

  /** A node of a trie over hex keys `height` long: its prefix is hex, and
      whole for a leaf; a root's key starts with '*', no other key does; a
      branch has sixteen slots, each key of which prints in a record, and
      finds its slots past its prefix. */
  predicate Sized(kind: Kind, n: Node, height: int) {
    IsUpperHex(Reach(n)) && n.isRoot == (CharAt(n.key, 0) == '*')
    && if n.isLeaf then |Reach(n)| == height
       else
         |Reach(n)| < height && |n.keys| == 16 && |n.hashes| == 16 && n.keyLen == RatTree.Find(n.key, '-', 0)
         && forall i :: 0 <= i < 16 ==> SlotKey(kind, n.keys[i]) && (kind == Prefix ==> RatTree.NoChar(n.hashes[i], ','))
  }

  /** sk names a stored record for a child of the prefix p in slot i. */
  predicate Slot(kind: Kind, store: map<string, string>, p: string, i: int, sk: string) {
    sk in store && Parse(kind, sk, store[sk]).Ok? && RatLookup.Extends(Reach(Parse(kind, sk, store[sk]).value), p, i)
  }

  predicate NodeTrie(kind: Kind, store: map<string, string>, n: Node, height: int) {
    Sized(kind, n, height)
    && (!n.isLeaf ==> forall i :: 0 <= i < 16 && n.keys[i] != "" ==> Slot(kind, store, Reach(n), i, n.keys[i]))
  }

  predicate RecordTrie(kind: Kind, store: map<string, string>, key: string, height: int)
    requires key in store
  {
    Parse(kind, key, store[key]).Ok? && NodeTrie(kind, store, Parse(kind, key, store[key]).value, height)
  }

  /** Every stored record, of every version, is a node of the trie. */
  predicate StoreTrie(kind: Kind, store: map<string, string>, height: int) {
    forall key {:trigger RecordTrie(kind, store, key, height)} :: key in store ==> RecordTrie(kind, store, key, height)
  }

  /** Slot i of the staged branch r: a link leads to a child of r's prefix
      in slot i whose key the slot holds, an unlinked non-empty key to a
      stored one. */
  predicate SlotFits(kind: Kind, store: map<string, string>, s: seq<Node>, r: int, i: int)
    requires Shaped(s) && 0 <= r < |s| && 0 <= i < 16 && !s[r].isLeaf
  {
    assert Fits(s[r], |s|);
    var n := s[r];
    (n.pointers[i] != -1 ==> n.keys[i] == s[n.pointers[i]].key && RatLookup.Extends(Reach(s[n.pointers[i]]), Reach(n), i))
    && (n.pointers[i] == -1 && n.keys[i] != "" ==> Slot(kind, store, Reach(n), i, n.keys[i]))
  }

  predicate StagedFits(kind: Kind, store: map<string, string>, s: seq<Node>, r: int, height: int)
    requires Shaped(s) && 0 <= r < |s|
  {
    Sized(kind, s[r], height) && (!s[r].isLeaf ==> forall i :: 0 <= i < 16 ==> SlotFits(kind, store, s, r, i))
  }

  /** Every staged node is a node of the trie. */
  predicate ArenaTrie(kind: Kind, store: map<string, string>, s: seq<Node>, height: int) {
    Shaped(s) && forall r :: 0 <= r < |s| ==> StagedFits(kind, store, s, r, height)
  }

  /** The stack starts at a root branch. */
  predicate Rooted(s: seq<Node>) {
    |s| > 0 && s[0].isRoot && !s[0].isLeaf
  }

  // ---------------------------------------------------------------------
  // Keys

  /** A key made from a prefix without '-' names that prefix. */
  lemma {:induction false} KeyForPrefix(kind: Kind, p: string, v: string)
    requires RatTree.NoChar(p, '-')
    ensures KeyPrefix(KeyFor(kind, p, v)) == p
  {
    var k := KeyFor(kind, p, v);
    var rest := k[|p|..];
    assert k == [] + p + rest && rest[0] == '-';
    RatTree.FindPast([], p, rest, '-');
  }

  /** A key's prefix is a prefix of the key, without '-'. */
  lemma {:induction false} KeyPrefixOf(k: string)
    ensures KeyPrefix(k) <= k && RatTree.NoChar(KeyPrefix(k), '-')
  {
    RatTree.FindFirst(k, '-', 0);
  }

  /** A key whose prefix is a hex position at most `height` long starts
      with the hex key k of that length exactly when its prefix is k. */
  lemma {:induction false} KeyStarts(sk: string, k: string, height: int)
    requires IsUpperHex(k) && |k| == height && |KeyPrefix(sk)| <= height
    ensures k <= sk <==> KeyPrefix(sk) == k
  {
    KeyPrefixOf(sk);
  }

  /** A key a commit makes for a hex prefix at a hex version: its prefix,
      a first character that is no root's, and it prints in a record. */
  lemma {:induction false} MadeKey(kind: Kind, p: string, v: string)
    requires IsUpperHex(p) && |p| > 0 && IsUpperHex(v)
    ensures KeyPrefix(KeyFor(kind, p, v)) == p && CharAt(KeyFor(kind, p, v), 0) == p[0] != '*'
    ensures RatTree.Find(KeyFor(kind, p, v), '-', 0) == |p|
    ensures SlotKey(kind, KeyFor(kind, p, v)) && KeyFor(kind, p, v) != ""
  {
    var k := KeyFor(kind, p, v);
    UpperHexHasNo(p, '-');
    KeyForPrefix(kind, p, v);
    assert k[0] == p[0];
    forall i | 0 <= i < |k| ensures k[i] != ':' && k[i] != ',' {
      if i < |p| {
        assert k[i] == p[i];
      } else if i == |p| {
        assert k[i] == '-';
      } else if i < |p| + 1 + |v| {
        assert k[i] == v[i - |p| - 1];
      } else {
        assert k[i] == '&';
      }
    }
  }

  /** A branch of the trie finds a key's slot at the first character past
      its prefix. */
  lemma {:induction false} SlotPast(kind: Kind, n: Node, k: string, height: int)
    requires Sized(kind, n, height) && !n.isLeaf
    ensures OfWhich(n, k) == Hti(CharAt(k, |Reach(n)|))
  {
  }

  // ---------------------------------------------------------------------
  // What leaves a walk unchanged

  /** Records added to a store of trie records change no walk from a node
      of the trie. */
  lemma {:induction false} LookKept(kind: Kind, store: map<string, string>, store': map<string, string>, cur: Node, k: string, height: int)
    requires StoreTrie(kind, store, height) && RatLookup.Kept(store, store') && NodeTrie(kind, store, cur, height)
    ensures LookAt(kind, store', cur, k) == LookAt(kind, store, cur, k)
    decreases RatLookup.Gap(Reach(cur), k), 1
  {
    if Reach(cur) != k && Reach(cur) <= k && !cur.isLeaf {
      BeneathKept(kind, store, store', Reach(cur), cur.keys[OfWhich(cur, k)], k, height);
    }
  }

  lemma {:induction false} BeneathKept(kind: Kind, store: map<string, string>, store': map<string, string>,
                                       above: string, sk: string, k: string, height: int)
    requires StoreTrie(kind, store, height) && RatLookup.Kept(store, store') && (sk == "" || sk in store)
    requires above <= k && above != k
    ensures Beneath(kind, store', above, sk, k) == Beneath(kind, store, above, sk, k)
    decreases RatLookup.Gap(above, k), 0
  {
    if sk != "" {
      assert RecordTrie(kind, store, sk, height);
      assert ReadOr(store', sk, "") == store[sk];
      var c := Parse(kind, sk, store[sk]).value;
      if |Reach(c)| > |above| {
        LookKept(kind, store, store', c, k, height);
      }
    }
  }

  /** A staged node linked nowhere is walked through the store. */
  lemma {:induction false} SeekUnlinked(kind: Kind, store: map<string, string>, s: seq<Node>, pos: int, k: string)
    requires Shaped(s) && 0 <= pos < |s| && s[pos].pointers == RatTree.Unlinked()
    ensures Seek(kind, store, s, pos, k) == LookAt(kind, store, s[pos], k)
  {
    assert Fits(s[pos], |s|);
  }

  /** A walk from the staged node q sees the same when only the node m has
      changed, keeping its prefix, and a walk from m sees the same. */
  lemma {:induction false} SeekAround(kind: Kind, store: map<string, string>, s: seq<Node>, s': seq<Node>, m: int, q: int, k: string)
    requires Shaped(s) && Shaped(s') && |s| <= |s'| && 0 <= m < |s| && 0 <= q < |s|
    requires forall r :: 0 <= r < |s| && r != m ==> s'[r] == s[r]
    requires Reach(s'[m]) == Reach(s[m]) && Seek(kind, store, s', m, k) == Seek(kind, store, s, m, k)
    ensures Seek(kind, store, s', q, k) == Seek(kind, store, s, q, k)
    decreases RatLookup.Gap(Reach(s[q]), k)
  {
    if q != m {
      var n := s[q];
      assert s'[q] == n && Fits(n, |s|);
      if Reach(n) != k && Reach(n) <= k && !n.isLeaf {
        var p := n.pointers[OfWhich(n, k)];
        if p != -1 && |Reach(s[p])| > |Reach(n)| {
          SeekAround(kind, store, s, s', m, p, k);
        }
      }
    }
  }

  /** A walk from the staged node c sees the same when no staged node with
      a prefix at least L long has changed, nor any staged prefix. */
  lemma {:induction false} SeekAbove(kind: Kind, store: map<string, string>, s: seq<Node>, s': seq<Node>, c: int, k: string, L: int)
    requires Shaped(s) && Shaped(s') && |s| <= |s'| && 0 <= c < |s| && |Reach(s[c])| >= L
    requires forall r :: 0 <= r < |s| ==> Reach(s'[r]) == Reach(s[r]) && (|Reach(s[r])| >= L ==> s'[r] == s[r])
    ensures Seek(kind, store, s', c, k) == Seek(kind, store, s, c, k)
    decreases RatLookup.Gap(Reach(s[c]), k)
  {
    var n := s[c];
    assert s'[c] == n && Fits(n, |s|);
    if Reach(n) != k && Reach(n) <= k && !n.isLeaf {
      var p := n.pointers[OfWhich(n, k)];
      if p != -1 && |Reach(s[p])| > |Reach(n)| {
        SeekAbove(kind, store, s, s', p, k, L);
      }
    }
  }

  // ---------------------------------------------------------------------
  // The walk commit's inner loop makes

  /** n is a branch on the way to hex. */
  predicate Toward(n: Node, hex: string) {
    Reach(n) <= hex && Reach(n) != hex && !n.isLeaf
  }

  /** From the staged node q, hex's slots link down to the staged node m. */
  predicate Leads(s: seq<Node>, q: int, m: int, hex: string)
    requires Shaped(s) && 0 <= q < |s|
    decreases RatLookup.Gap(Reach(s[q]), hex)
  {
    assert Fits(s[q], |s|);
    q == m
    || (Toward(s[q], hex)
        && var p := s[q].pointers[OfWhich(s[q], hex)];
           p != -1 && |Reach(s[p])| > |Reach(s[q])| && Leads(s, p, m, hex))
  }

  lemma {:induction false} LeadsSeek(kind: Kind, store: map<string, string>, s: seq<Node>, q: int, m: int, hex: string)
    requires Shaped(s) && 0 <= q < |s| && 0 <= m < |s| && Leads(s, q, m, hex)
    ensures Seek(kind, store, s, q, hex) == Seek(kind, store, s, m, hex)
    decreases RatLookup.Gap(Reach(s[q]), hex)
  {
    if q != m {
      assert Fits(s[q], |s|);
      LeadsSeek(kind, store, s, s[q].pointers[OfWhich(s[q], hex)], m, hex);
    }
  }

  /** The way down survives a change to the node it ends at that keeps
      its prefix. */
  lemma {:induction false} LeadsKept(s: seq<Node>, s': seq<Node>, q: int, m: int, hex: string)
    requires Shaped(s) && Shaped(s') && |s| <= |s'| && 0 <= q < |s| && 0 <= m < |s|
    requires forall r :: 0 <= r < |s| && r != m ==> s'[r] == s[r]
    requires Reach(s'[m]) == Reach(s[m]) && Leads(s, q, m, hex)
    ensures Leads(s', q, m, hex)
    decreases RatLookup.Gap(Reach(s[q]), hex)
  {
    if q != m {
      assert s'[q] == s[q] && Fits(s[q], |s|);
      LeadsKept(s, s', s[q].pointers[OfWhich(s[q], hex)], m, hex);
    }
  }

  /** The way down goes one link further. */
  lemma {:induction false} LeadsStep(s: seq<Node>, q: int, m: int, hex: string)
    requires Shaped(s) && 0 <= q < |s| && 0 <= m < |s| && Leads(s, q, m, hex) && Toward(s[m], hex)
    requires Fits(s[m], |s|) && s[m].pointers[OfWhich(s[m], hex)] != -1
    requires |Reach(s[s[m].pointers[OfWhich(s[m], hex)]])| > |Reach(s[m])|
    ensures Leads(s, q, s[m].pointers[OfWhich(s[m], hex)], hex)
    decreases RatLookup.Gap(Reach(s[q]), hex)
  {
    var p := s[m].pointers[OfWhich(s[m], hex)];
    if q == m {
      assert Leads(s, p, p, hex);
    } else {
      assert Fits(s[q], |s|);
      LeadsStep(s, s[q].pointers[OfWhich(s[q], hex)], m, hex);
    }
  }

  // ---------------------------------------------------------------------
  // Placing one update

  /** After placing hex: the stack is still a rooted trie, hex reads as a
      leaf holding value, and every other key of the trie's height reads as
      before. */
  ghost predicate Placed(kind: Kind, store: map<string, string>, s: seq<Node>, s': seq<Node>, hex: string, value: string,
                         height: int)
    requires Shaped(s) && |s| > 0
  {
    ArenaTrie(kind, store, s', height) && Rooted(s') && |s| <= |s'|
    && Seek(kind, store, s', 0, hex) == RatLookup.Holds(value)
    && forall k :: |k| == height && k != hex ==> Seek(kind, store, s', 0, k) == Seek(kind, store, s, 0, k)
  }

  /** After a pass that goes down to p: the stack is still a rooted trie
      leading to p, a branch on hex's way, and every key reads as before. */
  ghost predicate Descended(kind: Kind, store: map<string, string>, s: seq<Node>, s': seq<Node>, p: int, hex: string,
                            height: int)
    requires Shaped(s) && |s| > 0
  {
    ArenaTrie(kind, store, s', height) && Rooted(s') && |s| <= |s'| && 0 <= p < |s'|
    && Leads(s', 0, p, hex) && Toward(s'[p], hex)
    && forall k :: Seek(kind, store, s', 0, k) == Seek(kind, store, s, 0, k)
  }

  /** A staged branch's linked child in slot w extends it there, and the
      slot holds the child's key; both are nodes of the trie. */
  lemma {:induction false} ChildOf(kind: Kind, store: map<string, string>, s: seq<Node>, m: int, w: int, height: int)
    requires ArenaTrie(kind, store, s, height) == true && 0 <= m < |s| && 0 <= w < 16 && !s[m].isLeaf
    requires |s[m].pointers| == 16 && s[m].pointers[w] != -1
    ensures 0 <= s[m].pointers[w] < |s|
    ensures var c := s[s[m].pointers[w]];
      RatLookup.Extends(Reach(c), Reach(s[m]), w) && Sized(kind, c, height) && Sized(kind, s[m], height)
      && s[m].keys[w] == c.key && !c.isRoot && KeyPrefix(c.key) == Reach(c)
  {
    assert StagedFits(kind, store, s, m, height) && SlotFits(kind, store, s, m, w);
    assert StagedFits(kind, store, s, s[m].pointers[w], height);
  }

  /** The prefix a split puts between a branch and a child of hex's slot
      whose prefix C hex does not extend: longer than the branch's, in the
      same slot, and where hex and C part. */
  lemma {:induction false} SplitPoint(kind: Kind, n: Node, hex: string, C: string, height: int)
    requires Toward(n, hex) && Sized(kind, n, height) && IsUpperHex(hex) && IsUpperHex(C) && |hex| == height && |C| <= height
    requires RatLookup.Extends(C, Reach(n), OfWhich(n, hex)) && !(C <= hex)
    ensures var cp := CommonPrefix(hex, C);
      |Reach(n)| < |cp| < |hex| && |cp| < |C| && IsUpperHex(cp) && cp <= hex && cp <= C
      && RatLookup.Extends(cp, Reach(n), OfWhich(n, hex)) && Hti(hex[|cp|]) != Hti(C[|cp|])
  {
    var P, cp := Reach(n), CommonPrefix(hex, C);
    SlotPast(kind, n, hex, height);
    HtiInjectiveOnUpperHex(hex[|P|], C[|P|]);
    if |cp| < |hex| && |cp| < |C| && Hti(hex[|cp|]) == Hti(C[|cp|]) {
      HtiInjectiveOnUpperHex(hex[|cp|], C[|cp|]);
    }
  }

  /** hex parts from a child key ck where it parts from ck's prefix C, when
      hex does not extend C. */
  lemma {:induction false} SplitKey(hex: string, ck: string, C: string)
    requires C <= ck && !(C <= hex) && |C| <= |hex|
    ensures CommonPrefix(hex, ck) == CommonPrefix(hex, C)
  {
    var cp := CommonPrefix(hex, C);
    assert |cp| < |C| && |cp| < |hex| && hex[|cp|] != C[|cp|];
    RatLookup.PrefixTrans(cp, C, ck);
    CommonPrefixUnique(hex, ck, cp);
  }

  /** s' is s with nodes staged after it and the branch m's slot w linked
      to t under t's key, nothing else changed. */
  predicate Relinks(s: seq<Node>, s': seq<Node>, m: int, w: int, t: int) {
    Shaped(s) && Shaped(s') && |s| <= |s'| && 0 <= m < |s| && 0 <= t < |s'| && 0 <= w < 16
    && (forall r :: 0 <= r < |s| && r != m ==> s'[r] == s[r])
    && |s[m].pointers| == 16 && |s[m].keys| == 16
    && s'[m] == s[m].(keys := s[m].keys[w := s'[t].key], pointers := s[m].pointers[w := t])
  }

  lemma {:induction false} LinkRelinks(s: seq<Node>, added: seq<Node>, m: int, w: int, k: string, t: int)
    requires Shaped(s) && 0 <= m < |s| && !s[m].isLeaf && 0 <= w < 16 && 0 <= t < |s| + |added| && k == (s + added)[t].key
    requires Shaped(Link(s + added, m, w, k, t))
    ensures Relinks(s, Link(s + added, m, w, k, t), m, w, t)
  {
    assert Fits(s[m], |s|);
  }

  /** Relinking the branch m's slot w to the node t: keys not routed
      through that slot read as before, the others as from t. */
  lemma {:induction false} Relinked(kind: Kind, store: map<string, string>, s: seq<Node>, s': seq<Node>, m: int, w: int, t: int,
                                    k: string)
    requires Relinks(s, s', m, w, t) && !s[m].isLeaf && |Reach(s'[t])| > |Reach(s[m])|
    ensures !(Reach(s[m]) <= k && Reach(s[m]) != k && OfWhich(s[m], k) == w) ==>
      Seek(kind, store, s', m, k) == Seek(kind, store, s, m, k)
    ensures Reach(s[m]) <= k && Reach(s[m]) != k && OfWhich(s[m], k) == w ==>
      Seek(kind, store, s', m, k) == Seek(kind, store, s', t, k)
  {
    var P := Reach(s[m]);
    assert Fits(s[m], |s|);
    if P <= k && P != k && OfWhich(s[m], k) != w {
      var p := s[m].pointers[OfWhich(s[m], k)];
      if p != -1 && |Reach(s[p])| > |P| {
        SeekAbove(kind, store, s, s', p, k, |P| + 1);
      }
    }
  }

  /** The stack changed only at m, keeping its prefix and kind, with hex
      reading there as a leaf holding value and other keys as before: the
      same holds from the root. */
  lemma {:induction false} Lift(kind: Kind, store: map<string, string>, s: seq<Node>, s': seq<Node>, m: int, hex: string,
                                value: string, height: int)
    requires ArenaTrie(kind, store, s', height) && Shaped(s) && Rooted(s) && |s| <= |s'| && 0 <= m < |s|
    requires forall r :: 0 <= r < |s| && r != m ==> s'[r] == s[r]
    requires Reach(s'[m]) == Reach(s[m]) && s'[m].isLeaf == s[m].isLeaf && s'[m].isRoot == s[m].isRoot
    requires Leads(s, 0, m, hex) && Seek(kind, store, s', m, hex) == RatLookup.Holds(value)
    requires forall k :: |k| == height && k != hex ==> Seek(kind, store, s', m, k) == Seek(kind, store, s, m, k)
    ensures Placed(kind, store, s, s', hex, value, height)
  {
    LeadsKept(s, s', 0, m, hex);
    LeadsSeek(kind, store, s', 0, m, hex);
    forall k | |k| == height && k != hex ensures Seek(kind, store, s', 0, k) == Seek(kind, store, s, 0, k) {
      SeekAround(kind, store, s, s', m, 0, k);
    }
  }

  /** Staging nodes and relinking m's slot w to a child of its prefix in
      that slot keeps the stack a trie. */
  lemma {:induction false} TrieLinked(kind: Kind, store: map<string, string>, s: seq<Node>, s': seq<Node>, m: int, w: int,
                                      t: int, height: int)
    requires ArenaTrie(kind, store, s, height) == true && Relinks(s, s', m, w, t) && !s[m].isLeaf
    requires |s| < |s'| <= |s| + 2 && StagedFits(kind, store, s', |s|, height) == true
    requires |s'| == |s| + 2 ==> StagedFits(kind, store, s', |s| + 1, height) == true
    requires RatLookup.Extends(Reach(s'[t]), Reach(s[m]), w) && SlotKey(kind, s'[t].key)
    ensures ArenaTrie(kind, store, s', height)
  {
    forall r | 0 <= r < |s| ensures StagedFits(kind, store, s', r, height) {
      assert StagedFits(kind, store, s, r, height);
      if !s[r].isLeaf {
        forall i | 0 <= i < 16 ensures SlotFits(kind, store, s', r, i) {
          SlotRelinked(kind, store, s, s', m, w, t, r, i);
        }
      }
    }
  }

  /** One slot of TrieLinked. */
  lemma {:induction false} SlotRelinked(kind: Kind, store: map<string, string>, s: seq<Node>, s': seq<Node>, m: int, w: int,
                                        t: int, r: int, i: int)
    requires Relinks(s, s', m, w, t) && 0 <= r < |s| && 0 <= i < 16 && !s[r].isLeaf && SlotFits(kind, store, s, r, i)
    requires r == m && i == w ==> RatLookup.Extends(Reach(s'[t]), Reach(s[m]), w)
    ensures SlotFits(kind, store, s', r, i)
  {
    assert Fits(s[r], |s|);
    var c := s[r].pointers[i];
    if c != -1 && !(r == m && i == w) {
      assert s'[c].key == s[c].key && Reach(s'[c]) == Reach(s[c]);
    }
  }

  /** Below the node t of s', hex reads as a leaf holding value and every
      other key routed through m's slot w as it read below m in s. */
  ghost predicate Reroutes(kind: Kind, store: map<string, string>, s: seq<Node>, s': seq<Node>, m: int, w: int, t: int,
                           hex: string, value: string, height: int)
    requires Shaped(s) && Shaped(s') && 0 <= m < |s| && 0 <= t < |s'|
  {
    forall k :: |k| == height && Reach(s[m]) <= k && OfWhich(s[m], k) == w ==>
      Seek(kind, store, s', t, k) == if k == hex then RatLookup.Holds(value) else Seek(kind, store, s, m, k)
  }

  /** Relinking hex's slot of the branch m on hex's way to a node t where
      hex reads as a leaf holding value, and every other key routed through
      that slot reads as before, places hex. */
  lemma {:induction false} LinkPlaced(kind: Kind, store: map<string, string>, s: seq<Node>, s': seq<Node>, m: int, w: int,
                                      t: int, hex: string, value: string, height: int)
    requires Relinks(s, s', m, w, t) && ArenaTrie(kind, store, s', height) == true && Rooted(s) && Leads(s, 0, m, hex)
    requires Toward(s[m], hex) && w == OfWhich(s[m], hex) && |Reach(s'[t])| > |Reach(s[m])| && |hex| == height
    requires Reroutes(kind, store, s, s', m, w, t, hex, value, height) == true
    ensures Placed(kind, store, s, s', hex, value, height)
  {
    forall k | |k| == height
      ensures Seek(kind, store, s', m, k) == if k == hex then RatLookup.Holds(value) else Seek(kind, store, s, m, k)
    {
      Relinked(kind, store, s, s', m, w, t, k);
    }
    Lift(kind, store, s, s', m, hex, value, height);
  }

  /** A new value in a staged leaf keeps the stack a trie. */
  lemma {:induction false} ValueTrie(kind: Kind, store: map<string, string>, s: seq<Node>, p: int, value: string, height: int)
    requires ArenaTrie(kind, store, s, height) == true && 0 <= p < |s| && s[p].isLeaf
    ensures Shaped(s[p := s[p].(value := value)])
    ensures ArenaTrie(kind, store, s[p := s[p].(value := value)], height)
  {
    var s' := s[p := s[p].(value := value)];
    assert Fits(s[p], |s|);
    forall r | 0 <= r < |s| ensures StagedFits(kind, store, s', r, height) {
      assert StagedFits(kind, store, s, r, height);
      if !s[r].isLeaf {
        forall i | 0 <= i < 16 ensures SlotFits(kind, store, s', r, i) {
          assert SlotFits(kind, store, s, r, i);
        }
      }
    }
  }

  /** A staged child whose key starts with hex is hex's leaf, and takes the
      value. */
  lemma {:induction false} StagedValuePlaced(kind: Kind, store: map<string, string>, s: seq<Node>, hex: string, value: string,
                                             v: string, m: int, height: int)
    requires ArenaTrie(kind, store, s, height) && Rooted(s) && 0 <= m < |s| && Toward(s[m], hex) && Leads(s, 0, m, hex)
    requires IsUpperHex(hex) && |hex| == height && Fits(s[m], |s|)
    requires s[m].pointers[OfWhich(s[m], hex)] != -1 && hex <= s[s[m].pointers[OfWhich(s[m], hex)]].key
    ensures PlaceStaged(kind, s, hex, value, v, m, OfWhich(s[m], hex)).Stop?
    ensures Placed(kind, store, s, PlaceStaged(kind, s, hex, value, v, m, OfWhich(s[m], hex)).arena, hex, value, height)
  {
    var w := OfWhich(s[m], hex);
    var p := s[m].pointers[w];
    ChildOf(kind, store, s, m, w, height);
    KeyStarts(s[p].key, hex, height);
    var s' := s[p := s[p].(value := value)];
    assert PlaceStaged(kind, s, hex, value, v, m, w).arena == s';
    ValueTrie(kind, store, s, p, value, height);
    LeadsStep(s, 0, m, hex);
    forall k | |k| == height && k != hex ensures Seek(kind, store, s', p, k) == Seek(kind, store, s, p, k) {
      assert !(hex <= k);
    }
    Lift(kind, store, s, s', p, hex, value, height);
  }

  /** A staged child whose prefix hex extends is where the walk goes on. */
  lemma {:induction false} StagedDown(kind: Kind, store: map<string, string>, s: seq<Node>, hex: string, value: string,
                                      v: string, m: int, height: int)
    requires ArenaTrie(kind, store, s, height) && Rooted(s) && 0 <= m < |s| && Toward(s[m], hex) && Leads(s, 0, m, hex)
    requires IsUpperHex(hex) && |hex| == height && Fits(s[m], |s|)
    requires s[m].pointers[OfWhich(s[m], hex)] != -1
    requires var next := s[s[m].pointers[OfWhich(s[m], hex)]]; !(hex <= next.key) && KeyPrefix(next.key) <= hex
    ensures var st := PlaceStaged(kind, s, hex, value, v, m, OfWhich(s[m], hex));
      st.Down? && Descended(kind, store, s, st.arena, st.at, hex, height) && |Reach(st.arena[st.at])| > |Reach(s[m])|
  {
    var w := OfWhich(s[m], hex);
    var p := s[m].pointers[w];
    ChildOf(kind, store, s, m, w, height);
    KeyStarts(s[p].key, hex, height);
    assert PlaceStaged(kind, s, hex, value, v, m, w) == Down(s, p);
    LeadsStep(s, 0, m, hex);
  }

  /** The branch a split stages at cp, the common prefix of hex and the
      prefix C of the child key ck: one slot leads to hex's leaf, ck's slot
      holds ck (linked to p when the child is staged), the others are
      empty. */
  lemma {:induction false} SplitBranchFits(kind: Kind, b: Node, hex: string, ck: string, C: string, v: string, q: int,
                                           height: int)
    requires q >= 0 && b == SplitBranch(kind, hex, ck, v, q) && IsUpperHex(v) && IsUpperHex(hex) && C <= ck && SlotKey(kind, ck)
    requires var cp := CommonPrefix(hex, ck);
      IsUpperHex(cp) && 0 < |cp| < height && |cp| < |hex| && |cp| < |C| && Hti(hex[|cp|]) != Hti(C[|cp|])
    ensures var cp := CommonPrefix(hex, ck);
      Reach(b) == cp && !b.isRoot && b.keyLen == |cp| && |b.keys| == 16 && |b.hashes| == 16
      && OfWhich(b, hex) == Hti(hex[|cp|]) && OfWhich(b, ck) == Hti(C[|cp|])
      && b.keys[OfWhich(b, hex)] == KeyFor(kind, hex, v) && b.pointers[OfWhich(b, hex)] == q
      && b.keys[OfWhich(b, ck)] == ck && b.pointers[OfWhich(b, ck)] == -1
      && (forall i :: 0 <= i < 16 && i != OfWhich(b, hex) && i != OfWhich(b, ck) ==> b.keys[i] == "" && b.pointers[i] == -1)
      && (forall i :: 0 <= i < 16 ==> b.hashes[i] == "")
      && RatLookup.Extends(hex, cp, OfWhich(b, hex)) && RatLookup.Extends(C, cp, OfWhich(b, ck))
      && SlotKey(kind, KeyFor(kind, hex, v)) && SlotKey(kind, b.key) && Reach(NewLeaf(KeyFor(kind, hex, v), "")) == hex
      && CharAt(b.key, 0) != '*' && Sized(kind, b, height)
  {
    var cp := CommonPrefix(hex, ck);
    MadeKey(kind, cp, v);
    MadeKey(kind, hex, v);
    assert ck[|cp|] == C[|cp|];
  }

  /** The facts about a split of the child key ck below the branch m on
      hex's way, whose prefix C hex does not extend. */
  lemma {:induction false} SplitFacts(kind: Kind, n: Node, hex: string, ck: string, C: string, height: int)
    requires Toward(n, hex) && Sized(kind, n, height) && IsUpperHex(hex) && |hex| == height
    requires IsUpperHex(C) && |C| <= height && C == KeyPrefix(ck)
    requires RatLookup.Extends(C, Reach(n), OfWhich(n, hex)) && !(C <= hex)
    ensures var cp := CommonPrefix(hex, ck);
      cp == CommonPrefix(hex, C) && C <= ck
      && |Reach(n)| < |cp| < |hex| && |cp| < |C| && IsUpperHex(cp) && cp <= hex && cp <= C
      && RatLookup.Extends(cp, Reach(n), OfWhich(n, hex)) && Hti(hex[|cp|]) != Hti(C[|cp|])
  {
    KeyPrefixOf(ck);
    SplitPoint(kind, n, hex, C, height);
    SplitKey(hex, ck, C);
  }

  /** The branch a split stages at cp: slot w1 leads to t1, slot w2 to
      t2 (-1 when it holds the key of an unstaged child), the others are
      empty. */
  predicate SplitNode(n: Node, cp: string, w1: int, w2: int, t1: int, t2: int) {
    !n.isLeaf && !n.isRoot && Reach(n) == cp && n.keyLen == |cp| && |n.keys| == 16 && |n.pointers| == 16
    && 0 <= w1 < 16 && 0 <= w2 < 16 && w1 != w2 && n.pointers[w1] == t1 && n.pointers[w2] == t2
    && forall i :: 0 <= i < 16 && i != w1 && i != w2 ==> n.keys[i] == "" && n.pointers[i] == -1
  }

  /** A staged branch with two slots filled, w1 linked to the node just
      before it and w2 to p or to a stored child, each a child in its slot,
      is a node of the trie. */
  lemma {:induction false} SplitNodeFits(kind: Kind, store: map<string, string>, s': seq<Node>, j: int, t2: int, w1: int,
                                         w2: int, height: int)
    requires Shaped(s') && 0 < j < |s'| && Sized(kind, s'[j], height) && SplitNode(s'[j], Reach(s'[j]), w1, w2, j - 1, t2)
    requires s'[j].keys[w1] == s'[j - 1].key && RatLookup.Extends(Reach(s'[j - 1]), Reach(s'[j]), w1)
    requires SlotFits(kind, store, s', j, w2)
    ensures StagedFits(kind, store, s', j, height)
  {
    forall i | 0 <= i < 16 ensures SlotFits(kind, store, s', j, i) {
    }
  }

  /** The branch a staged split stages, linked to the leaf q and the
      child p: its slots in terms of where hex and C part. */
  lemma {:induction false} StagedSplitNode(kind: Kind, n: Node, hex: string, ck: string, C: string, v: string, q: int, p: int,
                                           height: int)
    requires q >= 0 && IsUpperHex(v) && IsUpperHex(hex) && C <= ck && SlotKey(kind, ck)
    requires var b := SplitBranch(kind, hex, ck, v, q); n == b.(pointers := b.pointers[OfWhich(b, ck) := p])
    requires var cp := CommonPrefix(hex, ck);
      IsUpperHex(cp) && 0 < |cp| < height && |cp| < |hex| && |cp| < |C| && Hti(hex[|cp|]) != Hti(C[|cp|])
    ensures var cp := CommonPrefix(hex, ck); var w1, w2 := Hti(hex[|cp|]), Hti(C[|cp|]);
      Sized(kind, n, height) && SplitNode(n, cp, w1, w2, q, p) && SlotKey(kind, n.key)
      && n.keys[w1] == KeyFor(kind, hex, v) && n.keys[w2] == ck
      && RatLookup.Extends(hex, cp, w1) && RatLookup.Extends(C, cp, w2)
  {
    var b := SplitBranch(kind, hex, ck, v, q);
    SplitBranchFits(kind, b, hex, ck, C, v, q, height);
  }

  /** The nodes a staged split stages keep the stack a trie. */
  lemma {:induction false} StagedSplitTrie(kind: Kind, store: map<string, string>, s: seq<Node>, s': seq<Node>, m: int, w: int,
                                           p: int, cp: string, w1: int, w2: int, height: int)
    requires ArenaTrie(kind, store, s, height) == true && Relinks(s, s', m, w, |s| + 1) && !s[m].isLeaf && |s'| == |s| + 2
    requires 0 <= p < |s| && p != m && s[m].pointers[w] == p
    requires var leaf := s'[|s|]; Sized(kind, leaf, height) && leaf.isLeaf && leaf.pointers == RatTree.Unlinked()
    requires var n := s'[|s| + 1];
      Sized(kind, n, height) && SplitNode(n, cp, w1, w2, |s|, p) && SlotKey(kind, n.key)
      && n.keys[w1] == s'[|s|].key && n.keys[w2] == s[p].key
      && RatLookup.Extends(Reach(s'[|s|]), cp, w1) && RatLookup.Extends(Reach(s[p]), cp, w2)
      && RatLookup.Extends(cp, Reach(s[m]), w)
    ensures ArenaTrie(kind, store, s', height)
  {
    var q := |s|;
    assert StagedFits(kind, store, s', q, height);
    assert s'[p] == s[p];
    SplitNodeFits(kind, store, s', q + 1, p, w1, w2, height);
    TrieLinked(kind, store, s, s', m, w, q + 1, height);
  }

  /** What a staged split stages: the new leaf, then the new branch at cp,
      the common prefix of hex and the prefix C of the child p, which links
      to the leaf and to p; m's slot w links to the branch. */
  ghost predicate StagedSplit(kind: Kind, s: seq<Node>, s': seq<Node>, m: int, w: int, p: int, hex: string, value: string,
                              C: string, cp: string, height: int)
    requires Shaped(s)
  {
    StagedRoutes(s, s', m, w, p, hex, value, C, cp) && p != m && |hex| == height && RatLookup.Extends(cp, Reach(s[m]), w)
    && (var leaf := s'[|s|]; Sized(kind, leaf, height) && leaf.pointers == RatTree.Unlinked())
    && (var n, w1, w2 := s'[|s| + 1], Hti(hex[|cp|]), Hti(C[|cp|]);
        Sized(kind, n, height) && SlotKey(kind, n.key) && n.keys[w1] == s'[|s|].key && n.keys[w2] == s[p].key
        && RatLookup.Extends(hex, cp, w1) && RatLookup.Extends(C, cp, w2))
  }

  /** The part of a staged split that the walk sees. */
  predicate StagedRoutes(s: seq<Node>, s': seq<Node>, m: int, w: int, p: int, hex: string, value: string, C: string, cp: string) {
    |s'| == |s| + 2 && Relinks(s, s', m, w, |s| + 1) && 0 <= p < |s| && Reach(s[p]) == C
    && |Reach(s[m])| < |cp| < |hex| && |cp| < |C| && cp <= C && cp <= hex && Hti(hex[|cp|]) != Hti(C[|cp|])
    && (var leaf := s'[|s|]; leaf.isLeaf && Reach(leaf) == hex && leaf.value == value)
    && SplitNode(s'[|s| + 1], cp, Hti(hex[|cp|]), Hti(C[|cp|]), |s|, p)
  }

  /** Relinking m keeps every staged prefix, and every staged node whose
      prefix is longer than m's. */
  lemma {:induction false} RelinksAbove(s: seq<Node>, s': seq<Node>, m: int, w: int, t: int, L: int)
    requires Relinks(s, s', m, w, t) && |Reach(s[m])| < L
    ensures forall r :: 0 <= r < |s| ==> Reach(s'[r]) == Reach(s[r]) && (|Reach(s[r])| >= L ==> s'[r] == s[r])
  {
  }

  /** The stack a staged split leaves. */
  function SplitStaged(kind: Kind, s: seq<Node>, hex: string, value: string, v: string, m: int, w: int, p: int): seq<Node>
    requires 0 <= m < |s| && 0 <= w < |s[m].keys| && 0 <= w < |s[m].pointers| && 0 <= p < |s|
  {
    var b := SplitBranch(kind, hex, s[p].key, v, |s|);
    Link(s + [NewLeaf(KeyFor(kind, hex, v), value), b.(pointers := b.pointers[OfWhich(b, s[p].key) := p])], m, w, b.key, |s| + 1)
  }

  lemma {:induction false} StagedSplitStep(kind: Kind, s: seq<Node>, hex: string, value: string, v: string, m: int, w: int)
    requires Shaped(s) && 0 <= m < |s| && 0 <= w < 16 && !s[m].isLeaf && s[m].pointers[w] != -1
    requires var next := s[s[m].pointers[w]]; !(hex <= next.key) && !(KeyPrefix(s[m].keys[w]) <= hex)
    ensures 0 <= s[m].pointers[w] < |s|
    ensures PlaceStaged(kind, s, hex, value, v, m, w) == Stop(SplitStaged(kind, s, hex, value, v, m, w, s[m].pointers[w]))
  {
    assert Fits(s[m], |s|);
  }

  lemma {:induction false} StagedSplitShape(kind: Kind, s: seq<Node>, hex: string, value: string, v: string, m: int, w: int,
                                            p: int, height: int)
    requires Shaped(s) && 0 <= m < |s| && Toward(s[m], hex) && Sized(kind, s[m], height) && Fits(s[m], |s|)
    requires IsUpperHex(hex) && |hex| == height && IsUpperHex(v) && w == OfWhich(s[m], hex)
    requires s[m].pointers[w] == p && 0 <= p < |s| && Sized(kind, s[p], height) && !s[p].isRoot
    requires KeyPrefix(s[p].key) == Reach(s[p]) && s[m].keys[w] == s[p].key && RatLookup.Extends(Reach(s[p]), Reach(s[m]), w)
    requires !(hex <= s[p].key) && !(Reach(s[p]) <= hex)
    ensures StagedSplit(kind, s, SplitStaged(kind, s, hex, value, v, m, w, p), m, w, p, hex, value, Reach(s[p]),
                        CommonPrefix(hex, s[p].key), height)
  {
    var q := |s|;
    var ck, C := s[p].key, Reach(s[p]);
    SplitFacts(kind, s[m], hex, ck, C, height);
    var b := SplitBranch(kind, hex, ck, v, q);
    var b' := b.(pointers := b.pointers[OfWhich(b, ck) := p]);
    SplitStagedLinks(kind, s, hex, value, v, m, w, p);
    StagedSplitNode(kind, b', hex, ck, C, v, q, p, height);
    MadeKey(kind, hex, v);
  }

  /** The stack of a staged split: the new leaf and the new branch, linked
      to the leaf and to p, follow the old nodes, and m's slot w is relinked
      to the branch. */
  lemma {:induction false} SplitStagedLinks(kind: Kind, s: seq<Node>, hex: string, value: string, v: string, m: int, w: int, p: int)
    requires Shaped(s) && 0 <= m < |s| && !s[m].isLeaf && 0 <= w < 16 && 0 <= p < |s|
    ensures var s', b := SplitStaged(kind, s, hex, value, v, m, w, p), SplitBranch(kind, hex, s[p].key, v, |s|);
      |s'| == |s| + 2 && Relinks(s, s', m, w, |s| + 1) && s'[|s|] == NewLeaf(KeyFor(kind, hex, v), value)
      && s'[|s| + 1] == b.(pointers := b.pointers[OfWhich(b, s[p].key) := p])
  {
    var q := |s|;
    assert Fits(s[m], q);
    var b := SplitBranch(kind, hex, s[p].key, v, q);
    var b' := b.(pointers := b.pointers[OfWhich(b, s[p].key) := p]);
    var leaf := NewLeaf(KeyFor(kind, hex, v), value);
    ShapedLink(s, [leaf, b'], m, w, b.key, q + 1);
    LinkRelinks(s, [leaf, b'], m, w, b.key, q + 1);
  }

  /** A key routed through a linked slot of a staged branch reads as from
      the linked node. */
  lemma {:induction false} SeekLinked(kind: Kind, store: map<string, string>, s: seq<Node>, m: int, w: int, k: string)
    requires Shaped(s) && 0 <= m < |s| && !s[m].isLeaf && 0 <= w < 16 && Reach(s[m]) <= k && Reach(s[m]) != k
    requires OfWhich(s[m], k) == w && Fits(s[m], |s|) && s[m].pointers[w] != -1
    requires |Reach(s[s[m].pointers[w]])| > |Reach(s[m])|
    ensures Seek(kind, store, s, m, k) == Seek(kind, store, s, s[m].pointers[w], k)
  {
  }

  /** A staged node whose prefix k does not extend reads k as absent; a
      staged leaf reads its own key as its value. */
  lemma {:induction false} SeekOff(kind: Kind, store: map<string, string>, s: seq<Node>, r: int, k: string)
    requires Shaped(s) && 0 <= r < |s|
    ensures !(Reach(s[r]) <= k) ==> Seek(kind, store, s, r, k) == RatLookup.Absent
    ensures s[r].isLeaf && Reach(s[r]) == k ==> Seek(kind, store, s, r, k) == RatLookup.Holds(s[r].value)
  {
  }

  /** The walk through a branch a split stages, from the slot k takes. */
  lemma {:induction false} SplitSeek(kind: Kind, store: map<string, string>, s': seq<Node>, j: int, cp: string, w1: int, w2: int,
                                     t1: int, t2: int, k: string)
    requires Shaped(s') && 0 <= j < |s'| && SplitNode(s'[j], cp, w1, w2, t1, t2) && cp <= k && |cp| < |k|
    requires 0 <= t1 < |s'| && |Reach(s'[t1])| > |cp|
    requires t2 != -1 ==> 0 <= t2 < |s'| && |Reach(s'[t2])| > |cp|
    ensures Hti(k[|cp|]) == w1 ==> Seek(kind, store, s', j, k) == Seek(kind, store, s', t1, k)
    ensures Hti(k[|cp|]) == w2 && t2 != -1 ==> Seek(kind, store, s', j, k) == Seek(kind, store, s', t2, k)
    ensures Hti(k[|cp|]) == w2 && t2 == -1 ==> Seek(kind, store, s', j, k) == Beneath(kind, store, cp, s'[j].keys[w2], k)
    ensures Hti(k[|cp|]) != w1 && Hti(k[|cp|]) != w2 ==> Seek(kind, store, s', j, k) == RatLookup.Absent
  {
    assert Fits(s'[j], |s'|) && OfWhich(s'[j], k) == Hti(k[|cp|]);
  }

  /** The branch a staged split stages reads hex as the new leaf and every
      other key of its length as the child p did. */
  lemma {:induction false} StagedSplitSees(kind: Kind, store: map<string, string>, s: seq<Node>, s': seq<Node>, m: int, w: int,
                                           p: int, hex: string, value: string, C: string, cp: string, k: string)
    requires StagedRoutes(s, s', m, w, p, hex, value, C, cp) && |k| == |hex|
    ensures Seek(kind, store, s', |s| + 1, k) == if k == hex then RatLookup.Holds(value) else Seek(kind, store, s, p, k)
  {
    var q := |s|;
    RatLookup.OffBranch(cp, C, k);
    SeekOff(kind, store, s, p, k);
    SeekOff(kind, store, s', q, k);
    if cp <= k {
      assert s'[p] == s[p] || p == m;
      SplitSeek(kind, store, s', q + 1, cp, Hti(hex[|cp|]), Hti(C[|cp|]), q, p, k);
      if Hti(k[|cp|]) == Hti(C[|cp|]) {
        assert k != hex;
        RelinksAbove(s, s', m, w, q + 1, |cp| + 1);
        SeekAbove(kind, store, s, s', p, k, |cp| + 1);
      } else {
        assert k[|cp|] != C[|cp|];
      }
    } else {
      SeekOff(kind, store, s', q + 1, k);
    }
  }

  /** Below the branch a staged split stages, hex reads as the new leaf
      and every other key routed through m's slot as it read below m. */
  lemma {:induction false} StagedReroutes(kind: Kind, store: map<string, string>, s: seq<Node>, s': seq<Node>, m: int, w: int,
                                          p: int, hex: string, value: string, C: string, cp: string, height: int)
    requires StagedRoutes(s, s', m, w, p, hex, value, C, cp) && |hex| == height
    requires !s[m].isLeaf && s[m].pointers[w] == p
    ensures Reroutes(kind, store, s, s', m, w, |s| + 1, hex, value, height)
  {
    forall k | |k| == height && Reach(s[m]) <= k && OfWhich(s[m], k) == w
      ensures Seek(kind, store, s', |s| + 1, k) == if k == hex then RatLookup.Holds(value) else Seek(kind, store, s, m, k)
    {
      StagedRerouted(kind, store, s, s', m, w, p, hex, value, C, cp, k);
    }
  }

  /** One key of StagedReroutes. */
  lemma {:induction false} StagedRerouted(kind: Kind, store: map<string, string>, s: seq<Node>, s': seq<Node>, m: int, w: int,
                                          p: int, hex: string, value: string, C: string, cp: string, k: string)
    requires StagedRoutes(s, s', m, w, p, hex, value, C, cp) && |k| == |hex|
    requires !s[m].isLeaf && s[m].pointers[w] == p && Reach(s[m]) <= k && OfWhich(s[m], k) == w
    ensures Seek(kind, store, s', |s| + 1, k) == if k == hex then RatLookup.Holds(value) else Seek(kind, store, s, m, k)
  {
    StagedSplitSees(kind, store, s, s', m, w, p, hex, value, C, cp, k);
    assert Fits(s[m], |s|);
    SeekLinked(kind, store, s, m, w, k);
  }

  /** StagedSplitTrie, for what a staged split stages. */
  lemma {:induction false} StagedSplitStaysTrie(kind: Kind, store: map<string, string>, s: seq<Node>, s': seq<Node>, m: int,
                                                w: int, p: int, hex: string, value: string, C: string, cp: string, height: int)
    requires ArenaTrie(kind, store, s, height) == true && StagedSplit(kind, s, s', m, w, p, hex, value, C, cp, height)
    requires !s[m].isLeaf && s[m].pointers[w] == p
    ensures ArenaTrie(kind, store, s', height)
  {
    StagedSplitTrie(kind, store, s, s', m, w, p, cp, Hti(hex[|cp|]), Hti(C[|cp|]), height);
  }

  /** A staged split below the branch m on hex's way places hex. */
  lemma {:induction false} StagedSplitLifts(kind: Kind, store: map<string, string>, s: seq<Node>, s': seq<Node>, m: int, w: int,
                                            p: int, hex: string, value: string, C: string, cp: string, height: int)
    requires ArenaTrie(kind, store, s, height) && Rooted(s) && StagedSplit(kind, s, s', m, w, p, hex, value, C, cp, height)
    requires Leads(s, 0, m, hex) && Toward(s[m], hex) && w == OfWhich(s[m], hex) && s[m].pointers[w] == p
    ensures Placed(kind, store, s, s', hex, value, height)
  {
    StagedSplitStaysTrie(kind, store, s, s', m, w, p, hex, value, C, cp, height);
    StagedReroutes(kind, store, s, s', m, w, p, hex, value, C, cp, height);
    LinkPlaced(kind, store, s, s', m, w, |s| + 1, hex, value, height);
  }

  /** A staged child whose prefix hex does not extend is split off: a new
      branch at the common prefix takes it and a new leaf for hex. */
  lemma {:induction false} StagedSplitPlaced(kind: Kind, store: map<string, string>, s: seq<Node>, hex: string, value: string,
                                             v: string, m: int, height: int)
    requires ArenaTrie(kind, store, s, height) && Rooted(s) && 0 <= m < |s| && Toward(s[m], hex) && Leads(s, 0, m, hex)
    requires IsUpperHex(hex) && |hex| == height && Fits(s[m], |s|) && IsUpperHex(v)
    requires s[m].pointers[OfWhich(s[m], hex)] != -1
    requires var next := s[s[m].pointers[OfWhich(s[m], hex)]]; !(hex <= next.key) && !(KeyPrefix(next.key) <= hex)
    ensures PlaceStaged(kind, s, hex, value, v, m, OfWhich(s[m], hex)).Stop?
    ensures Placed(kind, store, s, PlaceStaged(kind, s, hex, value, v, m, OfWhich(s[m], hex)).arena, hex, value, height)
  {
    var w := OfWhich(s[m], hex);
    var p := s[m].pointers[w];
    ChildOf(kind, store, s, m, w, height);
    StagedSplitStep(kind, s, hex, value, v, m, w);
    StagedSplitShape(kind, s, hex, value, v, m, w, p, height);
    StagedSplitLifts(kind, store, s, SplitStaged(kind, s, hex, value, v, m, w, p), m, w, p, hex, value, Reach(s[p]),
                     CommonPrefix(hex, s[p].key), height);
  }

  // ---------------------------------------------------------------------
  // Placing below an unlinked slot

  /** A linked slot holds its child's key, which is never empty. */
  lemma {:induction false} LinkedKeyed(kind: Kind, store: map<string, string>, s: seq<Node>, m: int, w: int, height: int)
    requires ArenaTrie(kind, store, s, height) == true && 0 <= m < |s| && 0 <= w < 16 && !s[m].isLeaf
    ensures s[m].pointers[w] != -1 ==> s[m].keys[w] != ""
  {
    assert StagedFits(kind, store, s, m, height) && Fits(s[m], |s|);
    if s[m].pointers[w] != -1 {
      ChildOf(kind, store, s, m, w, height);
    }
  }

  /** An unlinked non-empty slot of a staged branch names a stored record:
      a node of the trie extending the branch in that slot, whose prefix is
      its key's. */
  lemma {:induction false} ReadOf(kind: Kind, store: map<string, string>, s: seq<Node>, m: int, w: int, height: int)
    returns (next: Node)
    requires ArenaTrie(kind, store, s, height) == true && StoreTrie(kind, store, height) == true
    requires 0 <= m < |s| && 0 <= w < 16 && !s[m].isLeaf && Fits(s[m], |s|)
    requires s[m].pointers[w] == -1 && s[m].keys[w] != ""
    ensures var sk := s[m].keys[w];
      sk in store && Parse(kind, sk, store[sk]) == Ok(next) && Parse(kind, sk, ReadOr(store, sk, "")) == Ok(next)
    ensures RatLookup.Extends(Reach(next), Reach(s[m]), w) && NodeTrie(kind, store, next, height) && Sized(kind, s[m], height)
    ensures next.key == s[m].keys[w] && next.pointers == RatTree.Unlinked() && !next.isRoot
    ensures KeyPrefix(next.key) == Reach(next) && next.keyLen == |Reach(next)|
  {
    var sk := s[m].keys[w];
    assert StagedFits(kind, store, s, m, height) && SlotFits(kind, store, s, m, w);
    assert RecordTrie(kind, store, sk, height);
    next := Parse(kind, sk, store[sk]).value;
  }

  /** A key routed through the unlinked slot w of the staged branch m reads
      as from the stored child `next` there. */
  lemma {:induction false} ReadSees(kind: Kind, store: map<string, string>, s: seq<Node>, m: int, w: int, next: Node,
                                    k: string)
    requires Shaped(s) && 0 <= m < |s| && !s[m].isLeaf && Fits(s[m], |s|) && 0 <= w < 16
    requires var sk := s[m].keys[w]; s[m].pointers[w] == -1 && sk != "" && Parse(kind, sk, ReadOr(store, sk, "")) == Ok(next)
    requires |Reach(next)| > |Reach(s[m])|
    requires Reach(s[m]) <= k && Reach(s[m]) != k && OfWhich(s[m], k) == w
    ensures Seek(kind, store, s, m, k) == LookAt(kind, store, next, k)
  {
  }

  /** A key other than hex, of hex's length, routed through m's unlinked
      slot w reads as absent when the slot is empty or names hex's leaf. */
  lemma {:induction false} LeafGone(kind: Kind, store: map<string, string>, s: seq<Node>, m: int, w: int, hex: string,
                                    k: string, height: int)
    requires ArenaTrie(kind, store, s, height) == true && StoreTrie(kind, store, height) == true
    requires 0 <= m < |s| && Toward(s[m], hex) && Fits(s[m], |s|) && 0 <= w < 16 && IsUpperHex(hex) && |hex| == height
    requires s[m].pointers[w] == -1 && (s[m].keys[w] == "" || hex <= s[m].keys[w])
    requires |k| == height && k != hex && Reach(s[m]) <= k && OfWhich(s[m], k) == w
    ensures Seek(kind, store, s, m, k) == RatLookup.Absent
  {
    if s[m].keys[w] != "" {
      var next := ReadOf(kind, store, s, m, w, height);
      KeyStarts(next.key, hex, height);
      ReadSees(kind, store, s, m, w, next, k);
    }
  }

  /** One key of LeafPlaced. */
  lemma {:induction false} LeafRerouted(kind: Kind, store: map<string, string>, s: seq<Node>, s': seq<Node>, m: int, w: int,
                                        hex: string, value: string, k: string, height: int)
    requires ArenaTrie(kind, store, s, height) == true && StoreTrie(kind, store, height) == true
    requires 0 <= m < |s| && Toward(s[m], hex) && Fits(s[m], |s|) && 0 <= w < 16 && IsUpperHex(hex) && |hex| == height
    requires s[m].pointers[w] == -1 && (s[m].keys[w] == "" || hex <= s[m].keys[w])
    requires Shaped(s') && |s| < |s'| && s'[|s|].isLeaf && Reach(s'[|s|]) == hex && s'[|s|].value == value
    requires |k| == height && Reach(s[m]) <= k && OfWhich(s[m], k) == w
    ensures Seek(kind, store, s', |s|, k) == if k == hex then RatLookup.Holds(value) else Seek(kind, store, s, m, k)
  {
    SeekOff(kind, store, s', |s|, k);
    if k != hex {
      LeafGone(kind, store, s, m, w, hex, k, height);
    }
  }

  /** The stack a new leaf for hex in m's slot w leaves is a trie over the
      store, and the leaf reaches hex and holds the value. */
  lemma {:induction false} LeafTrie(kind: Kind, store: map<string, string>, s: seq<Node>, s': seq<Node>, hex: string,
                                    value: string, v: string, m: int, w: int, height: int)
    requires ArenaTrie(kind, store, s, height) && 0 <= m < |s| && Toward(s[m], hex) && w == OfWhich(s[m], hex)
    requires IsUpperHex(hex) && |hex| == height && Fits(s[m], |s|) && IsUpperHex(v)
    requires s' == Link(s + [NewLeaf(KeyFor(kind, hex, v), value)], m, w, KeyFor(kind, hex, v), |s|)
    ensures ArenaTrie(kind, store, s', height) && Relinks(s, s', m, w, |s|) && Shaped(s')
    ensures s'[|s|].isLeaf && Reach(s'[|s|]) == hex && s'[|s|].value == value && |Reach(s'[|s|])| > |Reach(s[m])|
  {
    var q := |s|;
    var L := NewLeaf(KeyFor(kind, hex, v), value);
    LinkRelinks(s, [L], m, w, L.key, q);
    MadeKey(kind, hex, v);
    assert StagedFits(kind, store, s, m, height);
    SlotPast(kind, s[m], hex, height);
    assert s'[q] == L && StagedFits(kind, store, s', q, height);
    TrieLinked(kind, store, s, s', m, w, q, height);
  }

  /** An empty unlinked slot, or one naming hex's stored leaf, takes a new
      leaf for hex. */
  lemma {:induction false} LeafPlaced(kind: Kind, store: map<string, string>, s: seq<Node>, hex: string, value: string,
                                      v: string, m: int, height: int)
    requires ArenaTrie(kind, store, s, height) && StoreTrie(kind, store, height) && Rooted(s) && 0 <= m < |s|
    requires Toward(s[m], hex) && Leads(s, 0, m, hex) && IsUpperHex(hex) && |hex| == height && Fits(s[m], |s|) && IsUpperHex(v)
    requires var w := OfWhich(s[m], hex); s[m].pointers[w] == -1 && (s[m].keys[w] == "" || hex <= s[m].keys[w])
    ensures Placed(kind, store, s, AddLeaf(kind, s, hex, value, v, m, OfWhich(s[m], hex)).arena, hex, value, height)
  {
    var w, q := OfWhich(s[m], hex), |s|;
    var L := NewLeaf(KeyFor(kind, hex, v), value);
    var s' := Link(s + [L], m, w, L.key, q);
    assert AddLeaf(kind, s, hex, value, v, m, w).arena == s';
    LeafTrie(kind, store, s, s', hex, value, v, m, w, height);
    forall k | |k| == height && Reach(s[m]) <= k && OfWhich(s[m], k) == w
      ensures Seek(kind, store, s', q, k) == if k == hex then RatLookup.Holds(value) else Seek(kind, store, s, m, k)
    {
      LeafRerouted(kind, store, s, s', m, w, hex, value, k, height);
    }
    LinkPlaced(kind, store, s, s', m, w, q, hex, value, height);
  }

  /** The part of a split of a stored child that the walk sees: as in
      StagedRoutes, but the new branch's slot for the child C is unlinked
      and holds the key m's slot w held. */
  predicate ReadRoutes(s: seq<Node>, s': seq<Node>, m: int, w: int, C: string, hex: string, value: string, cp: string) {
    |s'| == |s| + 2 && Relinks(s, s', m, w, |s| + 1)
    && |Reach(s[m])| < |cp| < |hex| && |cp| < |C| && cp <= C && cp <= hex && Hti(hex[|cp|]) != Hti(C[|cp|])
    && (var leaf := s'[|s|]; leaf.isLeaf && Reach(leaf) == hex && leaf.value == value)
    && SplitNode(s'[|s| + 1], cp, Hti(hex[|cp|]), Hti(C[|cp|]), |s|, -1)
    && s'[|s| + 1].keys[Hti(C[|cp|])] == s[m].keys[w]
  }

  /** The branch a split of a stored child with prefix C stages reads hex
      as the new leaf, a key in the child's slot as the walk into the
      record the slot names, and every other key as absent. */
  lemma {:induction false} ReadSplitSees(kind: Kind, store: map<string, string>, s: seq<Node>, s': seq<Node>, m: int, w: int,
                                         C: string, hex: string, value: string, cp: string, k: string)
    requires ReadRoutes(s, s', m, w, C, hex, value, cp) && |k| == |hex|
    ensures k == hex ==> Seek(kind, store, s', |s| + 1, k) == RatLookup.Holds(value)
    ensures cp <= k && Hti(k[|cp|]) == Hti(C[|cp|]) ==> Seek(kind, store, s', |s| + 1, k) == Beneath(kind, store, cp, s[m].keys[w], k)
    ensures k != hex && !(cp <= k && Hti(k[|cp|]) == Hti(C[|cp|])) ==> Seek(kind, store, s', |s| + 1, k) == RatLookup.Absent && !(C <= k)
  {
    var q := |s|;
    RatLookup.OffBranch(cp, C, k);
    SeekOff(kind, store, s', q, k);
    if cp <= k {
      SplitSeek(kind, store, s', q + 1, cp, Hti(hex[|cp|]), Hti(C[|cp|]), q, -1, k);
    }
  }

  /** The walk into the record sk names, read as next, from a branch with
      a shorter prefix. */
  lemma {:induction false} BeneathRead(kind: Kind, store: map<string, string>, above: string, sk: string, next: Node, k: string)
    requires sk != "" && Parse(kind, sk, ReadOr(store, sk, "")) == Ok(next) && |Reach(next)| > |above| && above <= k && above != k
    ensures Beneath(kind, store, above, sk, k) == LookAt(kind, store, next, k)
  {
  }

  /** One key of ReadReroutes. */
  lemma {:induction false} ReadRerouted(kind: Kind, store: map<string, string>, s: seq<Node>, s': seq<Node>, m: int, w: int,
                                        next: Node, hex: string, value: string, cp: string, k: string)
    requires ReadRoutes(s, s', m, w, Reach(next), hex, value, cp) && |k| == |hex|
    requires !s[m].isLeaf && s[m].pointers[w] == -1 && s[m].keys[w] != ""
    requires Parse(kind, s[m].keys[w], ReadOr(store, s[m].keys[w], "")) == Ok(next)
    requires Reach(s[m]) <= k && OfWhich(s[m], k) == w
    ensures Seek(kind, store, s', |s| + 1, k) == if k == hex then RatLookup.Holds(value) else Seek(kind, store, s, m, k)
  {
    var C := Reach(next);
    ReadSplitSees(kind, store, s, s', m, w, C, hex, value, cp, k);
    assert Fits(s[m], |s|);
    ReadSees(kind, store, s, m, w, next, k);
    if cp <= k && Hti(k[|cp|]) == Hti(C[|cp|]) {
      BeneathRead(kind, store, cp, s[m].keys[w], next, k);
    }
  }

  lemma {:induction false} ReadReroutes(kind: Kind, store: map<string, string>, s: seq<Node>, s': seq<Node>, m: int, w: int,
                                        next: Node, hex: string, value: string, cp: string, height: int)
    requires ReadRoutes(s, s', m, w, Reach(next), hex, value, cp) && |hex| == height
    requires !s[m].isLeaf && s[m].pointers[w] == -1 && s[m].keys[w] != ""
    requires Parse(kind, s[m].keys[w], ReadOr(store, s[m].keys[w], "")) == Ok(next)
    ensures Reroutes(kind, store, s, s', m, w, |s| + 1, hex, value, height)
  {
    forall k | |k| == height && Reach(s[m]) <= k && OfWhich(s[m], k) == w
      ensures Seek(kind, store, s', |s| + 1, k) == if k == hex then RatLookup.Holds(value) else Seek(kind, store, s, m, k)
    {
      ReadRerouted(kind, store, s, s', m, w, next, hex, value, cp, k);
    }
  }

  /** The branch a split of a stored child stages, in terms of where hex
      and the child's prefix C part: in RatPrefix it keeps the hash the
      staged branch cur had in slot w. */
  lemma {:induction false} ReadSplitNode(kind: Kind, cur: Node, w: int, n: Node, hex: string, ck: string, C: string, v: string,
                                         q: int, height: int)
    requires q >= 0 && IsUpperHex(v) && IsUpperHex(hex) && C <= ck && SlotKey(kind, ck)
    requires 0 <= w < |cur.hashes| && (kind == Prefix ==> RatTree.NoChar(cur.hashes[w], ','))
    requires n == ReadBranch(kind, cur, w, hex, ck, v, q)
    requires var cp := CommonPrefix(hex, ck);
      IsUpperHex(cp) && 0 < |cp| < height && |cp| < |hex| && |cp| < |C| && Hti(hex[|cp|]) != Hti(C[|cp|])
    ensures var cp := CommonPrefix(hex, ck); var w1, w2 := Hti(hex[|cp|]), Hti(C[|cp|]);
      Sized(kind, n, height) && SplitNode(n, cp, w1, w2, q, -1) && SlotKey(kind, n.key)
      && n.keys[w1] == KeyFor(kind, hex, v) && n.keys[w2] == ck
      && RatLookup.Extends(hex, cp, w1) && RatLookup.Extends(C, cp, w2)
  {
    var b := SplitBranch(kind, hex, ck, v, q);
    SplitBranchFits(kind, b, hex, ck, C, v, q, height);
  }

  /** What a split of a stored child with prefix C stages: the new leaf,
      then the new branch at cp, the common prefix of hex and C, which
      links to the leaf and holds the child's key; m's slot w links to the
      branch. */
  ghost predicate ReadSplit(kind: Kind, s: seq<Node>, s': seq<Node>, m: int, w: int, C: string, hex: string, value: string,
                            cp: string, height: int)
    requires Shaped(s)
  {
    ReadRoutes(s, s', m, w, C, hex, value, cp) && |hex| == height && RatLookup.Extends(cp, Reach(s[m]), w)
    && (var leaf := s'[|s|]; Sized(kind, leaf, height) && leaf.pointers == RatTree.Unlinked())
    && (var n, w1, w2 := s'[|s| + 1], Hti(hex[|cp|]), Hti(C[|cp|]);
        Sized(kind, n, height) && SlotKey(kind, n.key) && n.keys[w1] == s'[|s|].key
        && RatLookup.Extends(hex, cp, w1) && RatLookup.Extends(C, cp, w2))
  }

  /** The nodes a split of a stored child stages keep the stack a trie. */
  lemma {:induction false} ReadSplitTrie(kind: Kind, store: map<string, string>, s: seq<Node>, s': seq<Node>, m: int, w: int,
                                         next: Node, hex: string, value: string, cp: string, height: int)
    requires ArenaTrie(kind, store, s, height) == true && ReadSplit(kind, s, s', m, w, Reach(next), hex, value, cp, height)
    requires var sk := s[m].keys[w]; sk in store && Parse(kind, sk, store[sk]) == Ok(next)
    requires !s[m].isLeaf
    ensures ArenaTrie(kind, store, s', height)
  {
    var q := |s|;
    var w1, w2 := Hti(hex[|cp|]), Hti(Reach(next)[|cp|]);
    assert StagedFits(kind, store, s', q, height);
    assert Slot(kind, store, cp, w2, s[m].keys[w]);
    assert SlotFits(kind, store, s', q + 1, w2);
    SplitNodeFits(kind, store, s', q + 1, -1, w1, w2, height);
    TrieLinked(kind, store, s, s', m, w, q + 1, height);
  }

  /** The branch a split of the stored child ck in slot w of the staged
      branch cur stages (in RatPrefix keeping the slot's hash). */
  function ReadBranch(kind: Kind, cur: Node, w: int, hex: string, ck: string, v: string, q: int): Node
    requires q >= 0 && 0 <= w < |cur.hashes|
  {
    var b := SplitBranch(kind, hex, ck, v, q);
    if kind == Prefix then b.(hashes := b.hashes[OfWhich(b, ck) := cur.hashes[w]]) else b
  }

  /** The stack a split of a stored child leaves: the new leaf and branch
      staged, m's slot w relinked to the branch. */
  lemma {:induction false} ReadSplitStep(kind: Kind, s: seq<Node>, hex: string, value: string, v: string, m: int, w: int)
    requires Shaped(s) && 0 <= m < |s| && 0 <= w < 16 && !s[m].isLeaf
    ensures var q := |s|; var s' := PlaceSplit(kind, s, hex, value, v, m, w).arena;
      Fits(s[m], q) && Relinks(s, s', m, w, q + 1) && |s'| == q + 2 && s'[q] == NewLeaf(KeyFor(kind, hex, v), value)
      && s'[q + 1] == ReadBranch(kind, s[m], w, hex, s[m].keys[w], v, q)
  {
    var q := |s|;
    assert Fits(s[m], q);
    var b := SplitBranch(kind, hex, s[m].keys[w], v, q);
    var b' := ReadBranch(kind, s[m], w, hex, s[m].keys[w], v, q);
    var leaf := NewLeaf(KeyFor(kind, hex, v), value);
    LinkRelinks(s, [leaf, b'], m, w, b'.key, q + 1);
  }

  lemma {:induction false} ReadSplitShape(kind: Kind, s: seq<Node>, hex: string, value: string, v: string, m: int, w: int,
                                          C: string, height: int)
    requires Shaped(s) && 0 <= m < |s| && Toward(s[m], hex) && Sized(kind, s[m], height) && Fits(s[m], |s|)
    requires IsUpperHex(hex) && |hex| == height && IsUpperHex(v) && w == OfWhich(s[m], hex) && s[m].pointers[w] == -1
    requires KeyPrefix(s[m].keys[w]) == C && !(hex <= s[m].keys[w]) && !(C <= hex)
    requires RatLookup.Extends(C, Reach(s[m]), w) && IsUpperHex(C) && |C| <= height
    ensures ReadSplit(kind, s, PlaceSplit(kind, s, hex, value, v, m, w).arena, m, w, C, hex, value,
                      CommonPrefix(hex, s[m].keys[w]), height)
  {
    var q := |s|;
    var ck := s[m].keys[w];
    assert SlotKey(kind, ck) && (kind == Prefix ==> RatTree.NoChar(s[m].hashes[w], ','));
    SplitFacts(kind, s[m], hex, ck, C, height);
    ReadSplitStep(kind, s, hex, value, v, m, w);
    ReadSplitNode(kind, s[m], w, ReadBranch(kind, s[m], w, hex, ck, v, q), hex, ck, C, v, q, height);
    MadeKey(kind, hex, v);
  }

  /** A split of a stored child below the branch m on hex's way places
      hex. */
  lemma {:induction false} ReadSplitLifts(kind: Kind, store: map<string, string>, s: seq<Node>, s': seq<Node>, m: int, w: int,
                                          next: Node, hex: string, value: string, cp: string, height: int)
    requires ArenaTrie(kind, store, s, height) && Rooted(s) && ReadSplit(kind, s, s', m, w, Reach(next), hex, value, cp, height)
    requires 0 <= m < |s| && !s[m].isLeaf && 0 <= w < 16 && |hex| == height
    requires Leads(s, 0, m, hex) && Toward(s[m], hex) && w == OfWhich(s[m], hex) && s[m].pointers[w] == -1
    requires var sk := s[m].keys[w]; sk != "" && sk in store && Parse(kind, sk, store[sk]) == Ok(next)
    ensures Placed(kind, store, s, s', hex, value, height)
  {
    ReadSplitRoutes(kind, store, s, s', m, w, next, hex, value, cp, height);
    LinkPlaced(kind, store, s, s', m, w, |s| + 1, hex, value, height);
  }

  /** The stack a split of a stored child leaves is a trie over the store,
      and the new branch routes hex to its value and every other key as m
      did. */
  lemma {:induction false} ReadSplitRoutes(kind: Kind, store: map<string, string>, s: seq<Node>, s': seq<Node>, m: int, w: int,
                                           next: Node, hex: string, value: string, cp: string, height: int)
    requires ArenaTrie(kind, store, s, height) && ReadSplit(kind, s, s', m, w, Reach(next), hex, value, cp, height)
    requires 0 <= m < |s| && !s[m].isLeaf && 0 <= w < 16 && s[m].pointers[w] == -1
    requires var sk := s[m].keys[w]; sk != "" && sk in store && Parse(kind, sk, store[sk]) == Ok(next)
    ensures ArenaTrie(kind, store, s', height) && Relinks(s, s', m, w, |s| + 1) && |Reach(s'[|s| + 1])| > |Reach(s[m])|
    ensures Reroutes(kind, store, s, s', m, w, |s| + 1, hex, value, height)
  {
    assert ReadOr(store, s[m].keys[w], "") == store[s[m].keys[w]];
    ReadSplitTrie(kind, store, s, s', m, w, next, hex, value, cp, height);
    ReadReroutes(kind, store, s, s', m, w, next, hex, value, cp, height);
  }

  /** A stored child whose prefix hex does not extend is split off: a new
      branch at the common prefix names it beside a new leaf. */
  lemma {:induction false} ReadSplitPlaced(kind: Kind, store: map<string, string>, s: seq<Node>, hex: string, value: string,
                                           v: string, m: int, height: int)
    requires ArenaTrie(kind, store, s, height) && StoreTrie(kind, store, height) && Rooted(s) && 0 <= m < |s|
    requires Toward(s[m], hex) && Leads(s, 0, m, hex) && IsUpperHex(hex) && |hex| == height && Fits(s[m], |s|) && IsUpperHex(v)
    requires var w := OfWhich(s[m], hex); var sk := s[m].keys[w];
      s[m].pointers[w] == -1 && sk != "" && !(hex <= sk) && !(KeyPrefix(sk) <= hex)
    ensures Placed(kind, store, s, PlaceSplit(kind, s, hex, value, v, m, OfWhich(s[m], hex)).arena, hex, value, height)
  {
    var w := OfWhich(s[m], hex);
    var next := ReadOf(kind, store, s, m, w, height);
    ReadSplitShape(kind, s, hex, value, v, m, w, Reach(next), height);
    ReadSplitLifts(kind, store, s, PlaceSplit(kind, s, hex, value, v, m, w).arena, m, w, next, hex, value,
                   CommonPrefix(hex, s[m].keys[w]), height);
  }

  /** A stored node of the trie, staged with no links, is a staged node of
      the trie. */
  lemma {:induction false} StagedRecord(kind: Kind, store: map<string, string>, s': seq<Node>, q: int, height: int)
    requires Shaped(s') && 0 <= q < |s'| && NodeTrie(kind, store, s'[q], height) && s'[q].pointers == RatTree.Unlinked()
    ensures StagedFits(kind, store, s', q, height)
  {
    if !s'[q].isLeaf {
      forall i | 0 <= i < 16 ensures SlotFits(kind, store, s', q, i) {
      }
    }
  }

  /** A stored node of the trie, named at a new version, keeps its prefix,
      its slots and what every key reads as below it. */
  lemma {:induction false} Renamed(kind: Kind, store: map<string, string>, n: Node, v: string, height: int)
    requires NodeTrie(kind, store, n, height) && !n.isRoot && n.keyLen == RatTree.Find(n.key, '-', 0)
    requires KeyPrefix(n.key) == Reach(n) && |Reach(n)| > 0 && IsUpperHex(v)
    ensures var c := ChangeVersion(kind, n, v);
      Reach(c) == Reach(n) && NodeTrie(kind, store, c, height) && SlotKey(kind, c.key) && c.key != ""
      && c.pointers == n.pointers && c.isLeaf == n.isLeaf
    ensures forall k :: LookAt(kind, store, ChangeVersion(kind, n, v), k) == LookAt(kind, store, n, k)
  {
    var c := ChangeVersion(kind, n, v);
    assert Base(n) == KeyPrefix(n.key);
    MadeKey(kind, Reach(n), v);
    forall k ensures LookAt(kind, store, c, k) == LookAt(kind, store, n, k) {
      assert OfWhich(c, k) == OfWhich(n, k);
    }
  }

  /** The stack a read of the stored child `next` in slot w leaves: the
      child, named at v, staged and linked there. */
  lemma {:induction false} ReadDownStep(kind: Kind, store: map<string, string>, s: seq<Node>, hex: string, value: string,
                                        v: string, m: int, w: int, next: Node)
    requires Shaped(s) && 0 <= m < |s| && 0 <= w < 16 && !s[m].isLeaf && Fits(s[m], |s|)
    requires var sk := s[m].keys[w]; Parse(kind, sk, ReadOr(store, sk, "")) == Ok(next) && !(hex <= sk) && KeyPrefix(sk) <= hex
    ensures var c := ChangeVersion(kind, next, v); var s' := Link(s + [c], m, w, c.key, |s|);
      PlaceUnstaged(kind, store, s, hex, value, v, m, w) == Down(s', |s|) && Relinks(s, s', m, w, |s|) && s'[|s|] == c
  {
    var c := ChangeVersion(kind, next, v);
    LinkRelinks(s, [c], m, w, c.key, |s|);
  }

  /** One key of ReadDown. */
  lemma {:induction false} ReadDownSees(kind: Kind, store: map<string, string>, s: seq<Node>, s': seq<Node>, m: int, w: int,
                                        next: Node, k: string)
    requires Relinks(s, s', m, w, |s|) && !s[m].isLeaf && s[m].pointers[w] == -1 && s[m].keys[w] != ""
    requires Parse(kind, s[m].keys[w], ReadOr(store, s[m].keys[w], "")) == Ok(next)
    requires s'[|s|].pointers == RatTree.Unlinked() && |Reach(next)| > |Reach(s[m])|
    requires Reach(s'[|s|]) == Reach(next) && LookAt(kind, store, s'[|s|], k) == LookAt(kind, store, next, k)
    ensures Seek(kind, store, s', 0, k) == Seek(kind, store, s, 0, k)
  {
    var q := |s|;
    Relinked(kind, store, s, s', m, w, q, k);
    if Reach(s[m]) <= k && Reach(s[m]) != k && OfWhich(s[m], k) == w {
      SeekUnlinked(kind, store, s', q, k);
      ReadSees(kind, store, s, m, w, next, k);
    }
    SeekAround(kind, store, s, s', m, 0, k);
  }

  /** A stored child whose prefix hex extends is staged at the new
      version, and the walk goes on from it. */
  lemma {:induction false} ReadDown(kind: Kind, store: map<string, string>, s: seq<Node>, hex: string, value: string, v: string,
                                    m: int, height: int)
    requires ArenaTrie(kind, store, s, height) && StoreTrie(kind, store, height) && Rooted(s) && 0 <= m < |s|
    requires Toward(s[m], hex) && Leads(s, 0, m, hex) && IsUpperHex(hex) && |hex| == height && Fits(s[m], |s|) && IsUpperHex(v)
    requires var w := OfWhich(s[m], hex); var sk := s[m].keys[w];
      s[m].pointers[w] == -1 && sk != "" && !(hex <= sk) && KeyPrefix(sk) <= hex
    ensures var st := PlaceUnstaged(kind, store, s, hex, value, v, m, OfWhich(s[m], hex));
      st.Down? && Descended(kind, store, s, st.arena, st.at, hex, height) && |Reach(st.arena[st.at])| > |Reach(s[m])|
  {
    var w, q := OfWhich(s[m], hex), |s|;
    var next := ReadOf(kind, store, s, m, w, height);
    var c := ChangeVersion(kind, next, v);
    Renamed(kind, store, next, v, height);
    ReadDownStep(kind, store, s, hex, value, v, m, w, next);
    var s' := Link(s + [c], m, w, c.key, q);
    StagedRecord(kind, store, s', q, height);
    SlotPast(kind, s[m], hex, height);
    TrieLinked(kind, store, s, s', m, w, q, height);
    KeyPrefixOf(next.key);
    assert Toward(c, hex);
    LeadsKept(s, s', 0, m, hex);
    LeadsStep(s', 0, m, hex);
    forall k ensures Seek(kind, store, s', 0, k) == Seek(kind, store, s, 0, k) {
      ReadDownSees(kind, store, s, s', m, w, next, k);
    }
  }

  // ---------------------------------------------------------------------
  // commit's inner loop

  /** One pass of commit's inner loop at a branch on hex's way either
      places hex or goes one node further down, keeping every key. */
  lemma {:induction false} StepPlaces(kind: Kind, store: map<string, string>, s: seq<Node>, hex: string, value: string,
                                      v: string, m: int, height: int)
    requires ArenaTrie(kind, store, s, height) && StoreTrie(kind, store, height) && Rooted(s) && 0 <= m < |s|
    requires Toward(s[m], hex) && Leads(s, 0, m, hex) && IsUpperHex(hex) && |hex| == height && IsUpperHex(v)
    ensures var st := PlaceStep(kind, store, s, hex, value, v, m);
      (st.Stop? && Placed(kind, store, s, st.arena, hex, value, height))
      || (st.Down? && Descended(kind, store, s, st.arena, st.at, hex, height) && |Reach(st.arena[st.at])| > |Reach(s[m])|)
  {
    assert Fits(s[m], |s|);
    var w := OfWhich(s[m], hex);
    LinkedKeyed(kind, store, s, m, w, height);
    var sk := s[m].keys[w];
    if s[m].pointers[w] != -1 {
      assert PlaceStep(kind, store, s, hex, value, v, m) == PlaceStaged(kind, s, hex, value, v, m, w);
      var next := s[s[m].pointers[w]];
      if hex <= next.key {
        StagedValuePlaced(kind, store, s, hex, value, v, m, height);
      } else if !(KeyPrefix(next.key) <= hex) {
        StagedSplitPlaced(kind, store, s, hex, value, v, m, height);
      } else {
        StagedDown(kind, store, s, hex, value, v, m, height);
      }
    } else if sk == "" || hex <= sk {
      assert PlaceStep(kind, store, s, hex, value, v, m) == AddLeaf(kind, s, hex, value, v, m, w);
      LeafPlaced(kind, store, s, hex, value, v, m, height);
    } else if !(KeyPrefix(sk) <= hex) {
      assert PlaceStep(kind, store, s, hex, value, v, m) == PlaceSplit(kind, s, hex, value, v, m, w);
      ReadSplitPlaced(kind, store, s, hex, value, v, m, height);
    } else {
      assert PlaceStep(kind, store, s, hex, value, v, m) == PlaceUnstaged(kind, store, s, hex, value, v, m, w);
      ReadDown(kind, store, s, hex, value, v, m, height);
    }
  }

  /** Placing hex after going down keeps what going down kept. */
  lemma {:induction false} PlacedAfter(kind: Kind, store: map<string, string>, s0: seq<Node>, s: seq<Node>, s': seq<Node>,
                                       p: int, hex: string, value: string, height: int)
    requires Shaped(s0) && |s0| > 0 && Shaped(s) && |s| > 0
    requires Descended(kind, store, s0, s, p, hex, height) && Placed(kind, store, s, s', hex, value, height)
    ensures Placed(kind, store, s0, s', hex, value, height)
  {
  }

  /** Going down twice is going down. */
  lemma {:induction false} DescendedAfter(kind: Kind, store: map<string, string>, s0: seq<Node>, s: seq<Node>, s': seq<Node>,
                                          p: int, p': int, hex: string, height: int)
    requires Shaped(s0) && |s0| > 0 && Shaped(s) && |s| > 0
    requires Descended(kind, store, s0, s, p, hex, height) && Descended(kind, store, s, s', p', hex, height)
    ensures Descended(kind, store, s0, s', p', hex, height)
  {
  }

  /** A pass of commit's inner loop before the cut-off: a pass that stops
      ends the loop, one that goes down goes on from there. */
  lemma {:induction false} DescendOnce(kind: Kind, store: map<string, string>, s: seq<Node>, hex: string, value: string,
                                       v: string, p: int, cnt: nat)
    requires Shaped(s) && 0 <= p < |s| && cnt <= 40
    ensures var st := PlaceStep(kind, store, s, hex, value, v, p);
      st.Stop? ==> Descend(kind, store, s, hex, value, v, p, cnt) == Ok(st.arena)
    ensures var st := PlaceStep(kind, store, s, hex, value, v, p);
      st.Down? ==> Descend(kind, store, s, hex, value, v, p, cnt) == Descend(kind, store, st.arena, hex, value, v, st.at, cnt + 1)
  {
  }

  /** commit's inner loop from a branch on hex's way, after cnt passes that
      went no deeper than the branch's prefix: it places hex without being
      cut off, for keys of at most 41 digits. */
  lemma {:induction false} DescendPlaces(kind: Kind, store: map<string, string>, s0: seq<Node>, s: seq<Node>, hex: string,
                                         value: string, v: string, p: int, cnt: nat, height: int)
    requires StoreTrie(kind, store, height) && IsUpperHex(hex) && |hex| == height && height <= 41 && IsUpperHex(v)
    requires Shaped(s0) && |s0| > 0 && Descended(kind, store, s0, s, p, hex, height) && cnt <= |Reach(s[p])|
    ensures Descend(kind, store, s, hex, value, v, p, cnt).Ok?
    ensures Placed(kind, store, s0, Descend(kind, store, s, hex, value, v, p, cnt).value, hex, value, height)
    decreases height - |Reach(s[p])|
  {
    StepPlaces(kind, store, s, hex, value, v, p, height);
    DescendOnce(kind, store, s, hex, value, v, p, cnt);
    var st := PlaceStep(kind, store, s, hex, value, v, p);
    if st.Stop? {
      PlacedAfter(kind, store, s0, s, st.arena, p, hex, value, height);
    } else {
      DescendedAfter(kind, store, s0, s, st.arena, p, st.at, hex, height);
      DescendPlaces(kind, store, s0, st.arena, hex, value, v, st.at, cnt + 1, height);
    }
  }
}
