// What a RatTree's records say about each key (rattree.hpp gen_proof's walk,
// followed without a bound), the shape of trie commit keeps, and how
// commit's placements and _compute's writes change what each key reads as.
module RatLookup {
  import opened Results
  import opened Tools
  import opened IO
  import opened Proof16
  import opened RatTree

  /** What a key reads as: not in the trie, held by a leaf (its value), the
      prefix of a branch, or broken (a record that does not parse, a leaf on
      the way, or a child no deeper than its parent). */
  datatype Seen = Absent | Holds(value: string) | Inner | Broken

  /** How far k runs past p. */
  function Gap(p: string, k: string): nat {
    if |p| <= |k| then |k| - |p| else 0
  }

  /** gen_proof's walk from the node cur towards k, with no bound: a child
      whose prefix is no longer than its parent's reads as broken, so the
      walk always ends. */
  function LookAt(store: map<string, string>, cur: Node, k: string): Seen
    decreases Gap(cur.prefix, k), 1
  {
    if cur.prefix == k then (if cur.isLeaf then Holds(cur.value) else Inner)
    else if !IsPrefix(k, cur.prefix) then Absent
    else if cur.isLeaf || |cur.hashes| != 16 then Broken
    else Beneath(store, cur.prefix, cur.hashes[OfWhich(cur, k)], k)
  }

  /** The walk's step from a branch with prefix `above` into the child
      stored under h. */
  function Beneath(store: map<string, string>, above: string, h: string, k: string): Seen
    requires IsPrefix(k, above) && above != k
    decreases Gap(above, k), 0
  {
    if h == "" then Absent
    else match Parse(h, ReadOr(store, h, ""))
      case Err(_) => Broken
      case Ok(c) => if |c.prefix| <= |above| then Broken else LookAt(store, c, k)
  }

  /** What k reads as in the trie whose root record is stored under key. */
  function Look(store: map<string, string>, key: string, k: string): Seen {
    match Parse(key, ReadOr(store, key, ""))
    case Err(_) => Broken
    case Ok(n) => LookAt(store, n, k)
  }

  /** The same walk over commit's stack from the node pos: a linked slot is
      followed by its link, an unlinked one into the store. */
  function Seek(store: map<string, string>, s: seq<Node>, pos: int, k: string): Seen
    requires Shaped(s) && 0 <= pos < |s|
    decreases Gap(s[pos].prefix, k)
  {
    var n := s[pos];
    assert Fits(n, |s|);
    if n.prefix == k then (if n.isLeaf then Holds(n.value) else Inner)
    else if !IsPrefix(k, n.prefix) then Absent
    else if n.isLeaf then Broken
    else
      var p := n.pointers[OfWhich(n, k)];
      if p == -1 then Beneath(store, n.prefix, n.hashes[OfWhich(n, k)], k)
      else if |s[p].prefix| <= |n.prefix| then Broken
      else Seek(store, s, p, k)
  }

  // ---------------------------------------------------------------------
  // The trie commit keeps

  /** c is the prefix of a child of p in slot i: longer, extending p, with
      slot i's digit just past p. */
  predicate Extends(c: string, p: string, i: int) {
    |p| < |c| && p <= c && Hti(c[|p|]) == i
  }

  /** A node of a trie over hex keys `height` long: a leaf's prefix is a
      whole key, a branch's is shorter. */
  predicate Sized(n: Node, height: int) {
    IsUpperHex(n.prefix) && if n.isLeaf then |n.prefix| == height else |n.prefix| < height
  }

  /** h names a stored record for a child of the prefix p in slot i. */
  predicate Slot(store: map<string, string>, p: string, i: int, h: string) {
    h in store && Parse(h, store[h]).Ok? && Extends(Parse(h, store[h]).value.prefix, p, i)
  }

  predicate NodeTrie(store: map<string, string>, n: Node, height: int) {
    Sized(n, height)
    && (!n.isLeaf ==> |n.hashes| == 16 && forall i :: 0 <= i < 16 && n.hashes[i] != "" ==> Slot(store, n.prefix, i, n.hashes[i]))
  }

  predicate RecordTrie(store: map<string, string>, key: string, height: int)
    requires key in store
  {
    Parse(key, store[key]).Ok? && NodeTrie(store, Parse(key, store[key]).value, height)
  }

  /** Every stored record is a node of the trie. */
  predicate StoreTrie(store: map<string, string>, height: int) {
    forall key {:trigger RecordTrie(store, key, height)} :: key in store ==> RecordTrie(store, key, height)
  }

  /** Slot i of the staged branch r: a link leads to a child of r's prefix
      in slot i, an unlinked non-empty hash to a stored one. */
  predicate SlotFits(store: map<string, string>, s: seq<Node>, r: int, i: int)
    requires Shaped(s) && 0 <= r < |s| && 0 <= i < 16 && !s[r].isLeaf
  {
    assert Fits(s[r], |s|);
    var n := s[r];
    (n.pointers[i] != -1 ==> Extends(s[n.pointers[i]].prefix, n.prefix, i))
    && (n.pointers[i] == -1 && n.hashes[i] != "" ==> Slot(store, n.prefix, i, n.hashes[i]))
  }

  predicate StagedFits(store: map<string, string>, s: seq<Node>, r: int, height: int)
    requires Shaped(s) && 0 <= r < |s|
  {
    Sized(s[r], height) && (!s[r].isLeaf ==> forall i :: 0 <= i < 16 ==> SlotFits(store, s, r, i))
  }

  /** Every staged node is a node of the trie. */
  predicate ArenaTrie(store: map<string, string>, s: seq<Node>, height: int) {
    Shaped(s) && forall r :: 0 <= r < |s| ==> StagedFits(store, s, r, height)
  }

  /** The stack starts at a root: a branch with no prefix. */
  predicate Rooted(s: seq<Node>) {
    |s| > 0 && s[0].prefix == "" && !s[0].isLeaf
  }

  /** Every record of a is still in b, unchanged. */
  predicate Kept(a: map<string, string>, b: map<string, string>) {
    forall key :: key in a ==> key in b && b[key] == a[key]
  }

  // ---------------------------------------------------------------------
  // What a key reads as, kept

  /** Records added to a sealed store change no walk from a node whose
      children it holds. */
  lemma {:induction false} LookKept(H: Hasher, store: map<string, string>, store': map<string, string>, cur: Node, k: string)
    requires Sealed(H, store) && Kept(store, store') && Linked(store, cur)
    ensures LookAt(store', cur, k) == LookAt(store, cur, k)
    decreases Gap(cur.prefix, k), 1
  {
    if cur.prefix != k && IsPrefix(k, cur.prefix) && !cur.isLeaf {
      BeneathKept(H, store, store', cur.prefix, cur.hashes[OfWhich(cur, k)], k);
    }
  }

  lemma {:induction false} BeneathKept(H: Hasher, store: map<string, string>, store': map<string, string>, above: string, h: string, k: string)
    requires Sealed(H, store) && Kept(store, store') && (h == "" || h in store)
    requires IsPrefix(k, above) && above != k
    ensures Beneath(store', above, h, k) == Beneath(store, above, h, k)
    decreases Gap(above, k), 0
  {
    if h != "" {
      assert RecordOk(H, store, h);
      assert ReadOr(store', h, "") == store[h];
      var c := Parse(h, store[h]).value;
      if |c.prefix| > |above| {
        LookKept(H, store, store', c, k);
      }
    }
  }

  /** A staged node linked nowhere is walked through the store. */
  lemma {:induction false} SeekUnlinked(store: map<string, string>, s: seq<Node>, pos: int, k: string)
    requires Shaped(s) && 0 <= pos < |s| && s[pos].pointers == Unlinked()
    ensures Seek(store, s, pos, k) == LookAt(store, s[pos], k)
  {
    assert Fits(s[pos], |s|);
  }

  /** A walk from the staged node c sees the same once the store has grown
      and nothing staged whose prefix extends c's has changed. */
  lemma {:induction false} SeekFrame(H: Hasher, store: map<string, string>, store': map<string, string>,
                                     s: seq<Node>, s': seq<Node>, c: int, k: string, height: int)
    requires Sealed(H, store) && Kept(store, store') && ArenaTrie(store, s, height) && Shaped(s')
    requires |s'| == |s| && 0 <= c < |s|
    requires forall r :: 0 <= r < |s| && s[c].prefix <= s[r].prefix ==> s'[r] == s[r]
    ensures Seek(store', s', c, k) == Seek(store, s, c, k)
    decreases Gap(s[c].prefix, k)
  {
    var n := s[c];
    assert s'[c] == n && Fits(n, |s|);
    if n.prefix != k && IsPrefix(k, n.prefix) && !n.isLeaf {
      var w := OfWhich(n, k);
      assert StagedFits(store, s, c, height);
      assert SlotFits(store, s, c, w);
      var p := n.pointers[w];
      if p == -1 {
        BeneathKept(H, store, store', n.prefix, n.hashes[w], k);
      } else {
        forall r | 0 <= r < |s| && s[p].prefix <= s[r].prefix ensures s'[r] == s[r] {
          PrefixTrans(n.prefix, s[p].prefix, s[r].prefix);
        }
        SeekFrame(H, store, store', s, s', p, k, height);
      }
    }
  }

  lemma {:induction false} PrefixTrans(a: string, b: string, c: string)
    requires a <= b && b <= c
    ensures a <= c
  {
    assert c[..|a|] == b[..|a|];
  }

  /** A walk from the staged node q sees the same when only the node m has
      changed, keeping its prefix, and a walk from m sees the same. */
  lemma {:induction false} SeekAround(store: map<string, string>, s: seq<Node>, s': seq<Node>, m: int, q: int, k: string)
    requires Shaped(s) && Shaped(s') && |s| <= |s'| && 0 <= m < |s| && 0 <= q < |s|
    requires forall r :: 0 <= r < |s| && r != m ==> s'[r] == s[r]
    requires s'[m].prefix == s[m].prefix && Seek(store, s', m, k) == Seek(store, s, m, k)
    ensures Seek(store, s', q, k) == Seek(store, s, q, k)
    decreases Gap(s[q].prefix, k)
  {
    if q != m {
      var n := s[q];
      assert s'[q] == n && Fits(n, |s|);
      if n.prefix != k && IsPrefix(k, n.prefix) && !n.isLeaf {
        var p := n.pointers[OfWhich(n, k)];
        if p != -1 && |s[p].prefix| > |n.prefix| {
          SeekAround(store, s, s', m, p, k);
        }
      }
    }
  }

  /** A walk from the staged node c sees the same when no staged node with
      a prefix at least L long has changed, nor any staged prefix. */
  lemma {:induction false} SeekAbove(store: map<string, string>, s: seq<Node>, s': seq<Node>, c: int, k: string, L: int)
    requires Shaped(s) && Shaped(s') && |s| <= |s'| && 0 <= c < |s| && |s[c].prefix| >= L
    requires forall r :: 0 <= r < |s| ==> s'[r].prefix == s[r].prefix && (|s[r].prefix| >= L ==> s'[r] == s[r])
    ensures Seek(store, s', c, k) == Seek(store, s, c, k)
    decreases Gap(s[c].prefix, k)
  {
    var n := s[c];
    assert s'[c] == n && Fits(n, |s|);
    if n.prefix != k && IsPrefix(k, n.prefix) && !n.isLeaf {
      var p := n.pointers[OfWhich(n, k)];
      if p != -1 && |s[p].prefix| > |n.prefix| {
        SeekAbove(store, s, s', p, k, L);
      }
    }
  }

  // ---------------------------------------------------------------------
  // The walk commit's inner loop makes

  /** n is a branch on the way to hex. */
  predicate Toward(n: Node, hex: string) {
    IsPrefix(hex, n.prefix) && n.prefix != hex && !n.isLeaf
  }

  /** From the staged node q, hex's slots link down to the staged node m. */
  predicate Leads(s: seq<Node>, q: int, m: int, hex: string)
    requires Shaped(s) && 0 <= q < |s|
    decreases Gap(s[q].prefix, hex)
  {
    assert Fits(s[q], |s|);
    q == m
    || (Toward(s[q], hex)
        && var p := s[q].pointers[OfWhich(s[q], hex)];
           p != -1 && |s[p].prefix| > |s[q].prefix| && Leads(s, p, m, hex))
  }

  lemma {:induction false} LeadsSeek(store: map<string, string>, s: seq<Node>, q: int, m: int, hex: string)
    requires Shaped(s) && 0 <= q < |s| && 0 <= m < |s| && Leads(s, q, m, hex)
    ensures Seek(store, s, q, hex) == Seek(store, s, m, hex)
    decreases Gap(s[q].prefix, hex)
  {
    if q != m {
      assert Fits(s[q], |s|);
      LeadsSeek(store, s, s[q].pointers[OfWhich(s[q], hex)], m, hex);
    }
  }

  /** The way down survives a change to the node it ends at. */
  lemma {:induction false} LeadsKept(s: seq<Node>, s': seq<Node>, q: int, m: int, hex: string)
    requires Shaped(s) && Shaped(s') && |s| <= |s'| && 0 <= q < |s| && 0 <= m < |s|
    requires forall r :: 0 <= r < |s| && r != m ==> s'[r] == s[r]
    requires s'[m].prefix == s[m].prefix && Leads(s, q, m, hex)
    ensures Leads(s', q, m, hex)
    decreases Gap(s[q].prefix, hex)
  {
    if q != m {
      assert s'[q] == s[q] && Fits(s[q], |s|);
      LeadsKept(s, s', s[q].pointers[OfWhich(s[q], hex)], m, hex);
    }
  }

  /** The way down goes one link further. */
  lemma {:induction false} LeadsStep(s: seq<Node>, q: int, m: int, hex: string)
    requires Shaped(s) && 0 <= q < |s| && 0 <= m < |s| && Leads(s, q, m, hex) && Toward(s[m], hex)
    requires Fits(s[m], |s|) && s[m].pointers[OfWhich(s[m], hex)] != -1
    requires |s[s[m].pointers[OfWhich(s[m], hex)]].prefix| > |s[m].prefix|
    ensures Leads(s, q, s[m].pointers[OfWhich(s[m], hex)], hex)
    decreases Gap(s[q].prefix, hex)
  {
    var p := s[m].pointers[OfWhich(s[m], hex)];
    if q == m {
      assert Leads(s, p, p, hex);
    } else {
      assert Fits(s[q], |s|);
      LeadsStep(s, s[q].pointers[OfWhich(s[q], hex)], m, hex);
    }
  }

  // ---------------------------------------------------------------------
  // Placing one update

  /** After placing hex: the stack is still a rooted trie, hex reads as a
      leaf holding value, and every other key of the trie's height reads as
      before. */
  ghost predicate Placed(store: map<string, string>, s: seq<Node>, s': seq<Node>, hex: string, value: string, height: int)
    requires Shaped(s) && |s| > 0
  {
    ArenaTrie(store, s', height) && Rooted(s') && |s| <= |s'|
    && Seek(store, s', 0, hex) == Holds(value)
    && forall k :: |k| == height && k != hex ==> Seek(store, s', 0, k) == Seek(store, s, 0, k)
  }

  /** After a pass that goes down to p: the stack is still a rooted trie
      leading to p, a branch on hex's way, and every key reads as before. */
  ghost predicate Descended(store: map<string, string>, s: seq<Node>, s': seq<Node>, p: int, hex: string, height: int)
    requires Shaped(s) && |s| > 0
  {
    ArenaTrie(store, s', height) && Rooted(s') && |s| <= |s'| && 0 <= p < |s'|
    && Leads(s', 0, p, hex) && Toward(s'[p], hex)
    && forall k :: Seek(store, s', 0, k) == Seek(store, s, 0, k)
  }

  /** A staged branch's linked child in slot w extends it there; both are
      nodes of the trie. */
  lemma {:induction false} ChildOf(store: map<string, string>, s: seq<Node>, m: int, w: int, height: int)
    requires ArenaTrie(store, s, height) == true && 0 <= m < |s| && 0 <= w < 16 && !s[m].isLeaf
    requires |s[m].pointers| == 16 && s[m].pointers[w] != -1
    ensures 0 <= s[m].pointers[w] < |s|
    ensures Extends(s[s[m].pointers[w]].prefix, s[m].prefix, w) && Sized(s[s[m].pointers[w]], height) && Sized(s[m], height)
  {
    assert StagedFits(store, s, m, height) && SlotFits(store, s, m, w);
    assert StagedFits(store, s, s[m].pointers[w], height);
  }

  /** The prefix a split puts between a branch and a child of hex's slot
      whose prefix C hex does not extend: longer than the branch's, in the
      same slot, and where hex and C part. */
  lemma {:induction false} SplitPoint(n: Node, hex: string, C: string, height: int)
    requires Toward(n, hex) && IsUpperHex(hex) && IsUpperHex(C) && |hex| == height && |C| <= height
    requires Extends(C, n.prefix, OfWhich(n, hex)) && C != hex && !IsPrefix(hex, C)
    ensures var cp := CommonPrefix(hex, C);
      |n.prefix| < |cp| < |hex| && |cp| < |C| && IsUpperHex(cp) && cp <= hex && cp <= C
      && Extends(cp, n.prefix, OfWhich(n, hex)) && Hti(hex[|cp|]) != Hti(C[|cp|])
  {
    var P, cp := n.prefix, CommonPrefix(hex, C);
    HtiInjectiveOnUpperHex(hex[|P|], C[|P|]);
    if |cp| < |hex| && |cp| < |C| && Hti(hex[|cp|]) == Hti(C[|cp|]) {
      HtiInjectiveOnUpperHex(hex[|cp|], C[|cp|]);
    }
  }

  /** s' is s with nodes staged after it and the branch m's slot w linked
      to t, nothing else changed. */
  predicate Relinks(s: seq<Node>, s': seq<Node>, m: int, w: int, t: int) {
    Shaped(s) && Shaped(s') && |s| <= |s'| && 0 <= m < |s| && 0 <= t < |s'| && 0 <= w < 16
    && (forall r :: 0 <= r < |s| && r != m ==> s'[r] == s[r])
    && |s[m].pointers| == 16 && s'[m] == s[m].(pointers := s[m].pointers[w := t])
  }

  lemma {:induction false} LinkRelinks(s: seq<Node>, added: seq<Node>, m: int, w: int, t: int)
    requires Shaped(s) && 0 <= m < |s| && 0 <= w < 16 && 0 <= t < |s| + |added| && Shaped(Link(s + added, m, w, t))
    ensures Relinks(s, Link(s + added, m, w, t), m, w, t)
  {
    assert Fits(s[m], |s|);
  }

  /** Relinking the branch m's slot w to the node t: keys not routed
      through that slot read as before, the others as from t. */
  lemma {:induction false} Relinked(store: map<string, string>, s: seq<Node>, s': seq<Node>, m: int, w: int, t: int, k: string)
    requires Relinks(s, s', m, w, t) && !s[m].isLeaf && |s'[t].prefix| > |s[m].prefix|
    ensures !(IsPrefix(k, s[m].prefix) && s[m].prefix != k && OfWhich(s[m], k) == w) ==>
      Seek(store, s', m, k) == Seek(store, s, m, k)
    ensures IsPrefix(k, s[m].prefix) && s[m].prefix != k && OfWhich(s[m], k) == w ==>
      Seek(store, s', m, k) == Seek(store, s', t, k)
  {
    var P := s[m].prefix;
    assert Fits(s[m], |s|);
    if IsPrefix(k, P) && P != k && OfWhich(s[m], k) != w {
      var p := s[m].pointers[OfWhich(s[m], k)];
      if p != -1 && |s[p].prefix| > |P| {
        SeekAbove(store, s, s', p, k, |P| + 1);
      }
    }
  }

  /** The stack changed only at m, keeping its prefix and kind, with hex
      reading there as a leaf holding value and other keys as before: the
      same holds from the root. */
  lemma {:induction false} Lift(store: map<string, string>, s: seq<Node>, s': seq<Node>, m: int, hex: string, value: string,
                                height: int)
    requires ArenaTrie(store, s', height) && Shaped(s) && Rooted(s) && |s| <= |s'| && 0 <= m < |s|
    requires forall r :: 0 <= r < |s| && r != m ==> s'[r] == s[r]
    requires s'[m].prefix == s[m].prefix && s'[m].isLeaf == s[m].isLeaf
    requires Leads(s, 0, m, hex) && Seek(store, s', m, hex) == Holds(value)
    requires forall k :: |k| == height && k != hex ==> Seek(store, s', m, k) == Seek(store, s, m, k)
    ensures Placed(store, s, s', hex, value, height)
  {
    LeadsKept(s, s', 0, m, hex);
    LeadsSeek(store, s', 0, m, hex);
    forall k | |k| == height && k != hex ensures Seek(store, s', 0, k) == Seek(store, s, 0, k) {
      SeekAround(store, s, s', m, 0, k);
    }
  }

  /** Staging nodes and relinking m's slot w to a child of its prefix in
      that slot keeps the stack a trie. */
  lemma {:induction false} TrieLinked(store: map<string, string>, s: seq<Node>, s': seq<Node>, m: int, w: int, t: int,
                                      height: int)
    requires ArenaTrie(store, s, height) == true && Relinks(s, s', m, w, t) && !s[m].isLeaf
    requires |s| < |s'| <= |s| + 2 && StagedFits(store, s', |s|, height) == true
    requires |s'| == |s| + 2 ==> StagedFits(store, s', |s| + 1, height) == true
    requires Extends(s'[t].prefix, s[m].prefix, w)
    ensures ArenaTrie(store, s', height)
  {
    forall r | 0 <= r < |s| ensures StagedFits(store, s', r, height) {
      assert StagedFits(store, s, r, height);
      assert Fits(s[r], |s|);
      if !s[r].isLeaf {
        forall i | 0 <= i < 16 ensures SlotFits(store, s', r, i) {
          assert SlotFits(store, s, r, i);
          var c := s[r].pointers[i];
          if c != -1 && !(r == m && i == w) {
            assert s'[c].prefix == s[c].prefix;
          }
        }
      }
    }
  }

  /** The branch a staged split stages at cp, the common prefix of hex and
      the staged child p's prefix C, is a node of the trie: one slot leads
      to hex's leaf, one to p, the others are empty. */
  lemma {:induction false} StagedSplitFits(store: map<string, string>, s': seq<Node>, q: int, p: int, hex: string, C: string,
                                           height: int)
    requires Shaped(s') && 0 <= q && q + 1 < |s'| && 0 <= p < |s'|
    requires var b := SplitBranch(hex, C, q);
      s'[q + 1] == b.(pointers := b.pointers[OfWhich(b, C) := p]) && s'[q].prefix == hex && s'[p].prefix == C
    requires var cp := CommonPrefix(hex, C);
      IsUpperHex(cp) && |cp| < height && |cp| < |hex| && |cp| < |C| && Hti(hex[|cp|]) != Hti(C[|cp|])
    ensures StagedFits(store, s', q + 1, height)
  {
    var b := SplitBranch(hex, C, q);
    CommonPrefixUnique(hex, C, b.prefix);
    assert OfWhich(b, hex) == Hti(hex[|b.prefix|]) && OfWhich(b, C) == Hti(C[|b.prefix|]);
    var j := q + 1;
    forall i | 0 <= i < 16 ensures SlotFits(store, s', j, i) {
    }
  }

  /** An empty slot takes a new leaf. */
  lemma {:induction false} LeafPlaced(store: map<string, string>, s: seq<Node>, hex: string, value: string, m: int, height: int)
    requires ArenaTrie(store, s, height) && Rooted(s) && 0 <= m < |s| && Toward(s[m], hex) && Leads(s, 0, m, hex)
    requires IsUpperHex(hex) && |hex| == height && Fits(s[m], |s|)
    requires s[m].pointers[OfWhich(s[m], hex)] == -1 && s[m].hashes[OfWhich(s[m], hex)] == ""
    ensures PlaceUnstaged(store, s, hex, value, m, OfWhich(s[m], hex)).Stop?
    ensures Placed(store, s, PlaceUnstaged(store, s, hex, value, m, OfWhich(s[m], hex)).arena, hex, value, height)
  {
    var w, q, L := OfWhich(s[m], hex), |s|, NewLeaf(hex, value);
    var s' := Link(s + [L], m, w, q);
    assert PlaceUnstaged(store, s, hex, value, m, w).arena == s';
    LinkRelinks(s, [L], m, w, q);
    assert StagedFits(store, s', q, height);
    TrieLinked(store, s, s', m, w, q, height);
    forall k | |k| == height ensures Seek(store, s', m, k) == if k == hex then Holds(value) else Seek(store, s, m, k) {
      Relinked(store, s, s', m, w, q, k);
    }
    Lift(store, s, s', m, hex, value, height);
  }

  /** A key of hex's length that C does not prefix reads as absent below
      any node with prefix C. */
  lemma {:induction false} OffBranch(cp: string, C: string, k: string)
    requires cp <= C && |cp| < |C|
    ensures !IsPrefix(k, cp) ==> !(C <= k)
    ensures IsPrefix(k, cp) && |cp| < |k| && k[|cp|] != C[|cp|] ==> !(C <= k)
  {
    if C <= k {
      PrefixTrans(cp, C, k);
    }
  }

  /** The branch a staged split puts at the common prefix of hex and the
      staged child p's prefix reads hex as the new leaf and every other key
      of its length as p did. */
  lemma {:induction false} StagedSplitSees(store: map<string, string>, s: seq<Node>, s': seq<Node>, m: int, p: int,
                                           hex: string, value: string, k: string)
    requires Shaped(s) && 0 <= m < |s| && Fits(s[m], |s|) && !s[m].isLeaf
    requires p == s[m].pointers[OfWhich(s[m], hex)] && p != -1
    requires var C := s[p].prefix; C != hex && !IsPrefix(hex, C)
    requires var b := SplitBranch(hex, s[p].prefix, |s|);
      |s'| == |s| + 2 && Relinks(s, s', m, OfWhich(s[m], hex), |s| + 1)
      && s'[|s|] == NewLeaf(hex, value) && s'[|s| + 1] == b.(pointers := b.pointers[OfWhich(b, s[p].prefix) := p])
    requires var C := s[p].prefix; var cp := CommonPrefix(hex, C);
      |s[m].prefix| < |cp| < |hex| && |cp| < |C| && Hti(hex[|cp|]) != Hti(C[|cp|])
    requires |k| == |hex|
    ensures Seek(store, s', |s| + 1, k) == if k == hex then Holds(value) else Seek(store, s, p, k)
  {
    var w, C := OfWhich(s[m], hex), s[p].prefix;
    var cp := CommonPrefix(hex, C);
    var b := SplitBranch(hex, C, |s|);
    CommonPrefixUnique(hex, C, b.prefix);
    OffBranch(cp, C, k);
    if !IsPrefix(k, cp) {
      assert Seek(store, s, p, k) == Absent;
    } else {
      assert OfWhich(b, hex) == Hti(hex[|cp|]) && OfWhich(b, C) == Hti(C[|cp|]);
      if Hti(k[|cp|]) == Hti(C[|cp|]) {
        assert k != hex;
        SeekAbove(store, s, s', p, k, |cp| + 1);
      } else {
        assert k[|cp|] != C[|cp|] && Seek(store, s, p, k) == Absent;
      }
    }
  }

  /** The same for a split of the unstaged child `next`, kept by its hash:
      other keys read as below next. */
  lemma {:induction false} ReadSplitSees(store: map<string, string>, s': seq<Node>, q: int, next: Node,
                                         hex: string, value: string, k: string)
    requires Shaped(s') && 0 <= q && q + 1 < |s'|
    requires next.hash != "" && Parse(next.hash, ReadOr(store, next.hash, "")) == Ok(next)
    requires var b := SplitBranch(hex, next.prefix, q);
      s'[q] == NewLeaf(hex, value) && s'[q + 1] == b.(hashes := b.hashes[OfWhich(b, next.prefix) := next.hash])
    requires var C := next.prefix; var cp := CommonPrefix(hex, C);
      |cp| < |hex| && |cp| < |C| && Hti(hex[|cp|]) != Hti(C[|cp|])
    requires |k| == |hex|
    ensures Seek(store, s', q + 1, k) == if k == hex then Holds(value) else LookAt(store, next, k)
  {
    var C := next.prefix;
    var cp := CommonPrefix(hex, C);
    OffBranch(cp, C, k);
    if IsPrefix(k, cp) {
      var b := SplitBranch(hex, C, q);
      assert OfWhich(b, hex) == Hti(hex[|cp|]) && OfWhich(b, C) == Hti(C[|cp|]);
      if Hti(k[|cp|]) == Hti(C[|cp|]) {
        assert k != hex;
      } else {
        assert k[|cp|] != C[|cp|];
      }
    }
  }

  /** What a staged split stages: the new leaf, then the new branch, which
      links to it and to the child p; m's slot w links to the branch. */
  lemma {:induction false} StagedSplitShape(s: seq<Node>, hex: string, value: string, m: int, w: int)
    requires Shaped(s) && 0 <= m < |s| && 0 <= w < 16 && s[m].pointers[w] != -1
    requires var C := s[s[m].pointers[w]].prefix; C != hex && !IsPrefix(hex, C)
    ensures var s', p := PlaceStaged(s, hex, value, m, w).arena, s[m].pointers[w];
      var b := SplitBranch(hex, s[p].prefix, |s|);
      PlaceStaged(s, hex, value, m, w).Stop? && |s'| == |s| + 2 && Relinks(s, s', m, w, |s| + 1)
      && s'[|s|] == NewLeaf(hex, value) && s'[|s| + 1] == b.(pointers := b.pointers[OfWhich(b, s[p].prefix) := p])
  {
    var p := s[m].pointers[w];
    var b := SplitBranch(hex, s[p].prefix, |s|);
    var b' := b.(pointers := b.pointers[OfWhich(b, s[p].prefix) := p]);
    LinkRelinks(s, [NewLeaf(hex, value), b'], m, w, |s| + 1);
  }

  /** A staged child whose prefix hex does not extend is split off: a new
      branch at the common prefix takes it and a new leaf for hex. */
  lemma {:induction false} StagedSplitPlaced(store: map<string, string>, s: seq<Node>, hex: string, value: string, m: int,
                                             height: int)
    requires ArenaTrie(store, s, height) && Rooted(s) && 0 <= m < |s| && Toward(s[m], hex) && Leads(s, 0, m, hex)
    requires IsUpperHex(hex) && |hex| == height && Fits(s[m], |s|)
    requires s[m].pointers[OfWhich(s[m], hex)] != -1
    requires var C := s[s[m].pointers[OfWhich(s[m], hex)]].prefix; C != hex && !IsPrefix(hex, C)
    ensures PlaceStaged(s, hex, value, m, OfWhich(s[m], hex)).Stop?
    ensures Placed(store, s, PlaceStaged(s, hex, value, m, OfWhich(s[m], hex)).arena, hex, value, height)
  {
    var w := OfWhich(s[m], hex);
    var p := s[m].pointers[w];
    var s' := PlaceStaged(s, hex, value, m, w).arena;
    StagedSplitShape(s, hex, value, m, w);
    SplitPlacedAt(store, s, s', hex, value, m, p, height);
  }

  /** The stack a staged split stages places hex. */
  lemma {:induction false} SplitPlacedAt(store: map<string, string>, s: seq<Node>, s': seq<Node>, hex: string, value: string,
                                         m: int, p: int, height: int)
    requires ArenaTrie(store, s, height) == true && 0 <= m < |s| && Toward(s[m], hex) && Rooted(s) && Leads(s, 0, m, hex)
    requires IsUpperHex(hex) && |hex| == height && Fits(s[m], |s|)
    requires p == s[m].pointers[OfWhich(s[m], hex)] && p != -1
    requires s[p].prefix != hex && !IsPrefix(hex, s[p].prefix)
    requires var b := SplitBranch(hex, s[p].prefix, |s|);
      |s'| == |s| + 2 && Relinks(s, s', m, OfWhich(s[m], hex), |s| + 1)
      && s'[|s|] == NewLeaf(hex, value) && s'[|s| + 1] == b.(pointers := b.pointers[OfWhich(b, s[p].prefix) := p])
    ensures Placed(store, s, s', hex, value, height)
  {
    StagedReroutes(store, s, s', hex, value, m, p, height);
    LinkPlaced(store, s, s', m, OfWhich(s[m], hex), |s| + 1, hex, value, height);
  }

  /** After a staged split the stack is still a trie, and the keys routed
      through m's slot read below the new branch as they read below m, hex
      now holding value. */
  lemma {:induction false} StagedReroutes(store: map<string, string>, s: seq<Node>, s': seq<Node>, hex: string, value: string,
                                          m: int, p: int, height: int)
    requires ArenaTrie(store, s, height) == true && 0 <= m < |s| && Toward(s[m], hex)
    requires IsUpperHex(hex) && |hex| == height && Fits(s[m], |s|)
    requires p == s[m].pointers[OfWhich(s[m], hex)] && p != -1
    requires s[p].prefix != hex && !IsPrefix(hex, s[p].prefix)
    requires var b := SplitBranch(hex, s[p].prefix, |s|);
      |s'| == |s| + 2 && Relinks(s, s', m, OfWhich(s[m], hex), |s| + 1)
      && s'[|s|] == NewLeaf(hex, value) && s'[|s| + 1] == b.(pointers := b.pointers[OfWhich(b, s[p].prefix) := p])
    ensures ArenaTrie(store, s', height) && |s'[|s| + 1].prefix| > |s[m].prefix|
    ensures Reroutes(store, s, s', m, OfWhich(s[m], hex), |s| + 1, hex, value, height)
  {
    var w := OfWhich(s[m], hex);
    StagedSplitTrie(store, s, s', hex, value, m, p, height);
    forall k | |k| == height && IsPrefix(k, s[m].prefix) && OfWhich(s[m], k) == w
      ensures Seek(store, s', |s| + 1, k) == if k == hex then Holds(value) else Seek(store, s, m, k)
    {
      StagedSplitSees(store, s, s', m, p, hex, value, k);
    }
  }

  /** The nodes a staged split stages keep the stack a trie, and the split
      point lies between the branch m and its child p. */
  lemma {:induction false} StagedSplitTrie(store: map<string, string>, s: seq<Node>, s': seq<Node>, hex: string, value: string,
                                           m: int, p: int, height: int)
    requires ArenaTrie(store, s, height) == true && 0 <= m < |s| && Toward(s[m], hex)
    requires IsUpperHex(hex) && |hex| == height && Fits(s[m], |s|)
    requires p == s[m].pointers[OfWhich(s[m], hex)] && p != -1
    requires s[p].prefix != hex && !IsPrefix(hex, s[p].prefix)
    requires var b := SplitBranch(hex, s[p].prefix, |s|);
      |s'| == |s| + 2 && Relinks(s, s', m, OfWhich(s[m], hex), |s| + 1)
      && s'[|s|] == NewLeaf(hex, value) && s'[|s| + 1] == b.(pointers := b.pointers[OfWhich(b, s[p].prefix) := p])
    ensures ArenaTrie(store, s', height)
    ensures var cp := CommonPrefix(hex, s[p].prefix);
      s'[|s| + 1].prefix == cp && |s[m].prefix| < |cp| < |hex| && |cp| < |s[p].prefix| && Hti(hex[|cp|]) != Hti(s[p].prefix[|cp|])
  {
    var w, q := OfWhich(s[m], hex), |s|;
    var C := s[p].prefix;
    StagedSplitPoint(store, s, hex, m, p, height);
    assert s'[p].prefix == C;
    assert StagedFits(store, s', q, height);
    StagedSplitFits(store, s', q, p, hex, C, height);
    assert s'[q + 1].prefix == CommonPrefix(hex, C);
    assert Extends(s'[q + 1].prefix, s[m].prefix, w);
    TrieLinked(store, s, s', m, w, q + 1, height);
  }

  /** The branch a staged split stages sits at the common prefix of hex
      and the child's prefix, strictly between m and the child. */
  lemma {:induction false} StagedSplitPoint(store: map<string, string>, s: seq<Node>, hex: string, m: int, p: int, height: int)
    requires ArenaTrie(store, s, height) == true && 0 <= m < |s| && Toward(s[m], hex)
    requires IsUpperHex(hex) && |hex| == height && Fits(s[m], |s|)
    requires p == s[m].pointers[OfWhich(s[m], hex)] && p != -1
    requires s[p].prefix != hex && !IsPrefix(hex, s[p].prefix)
    ensures var C, cp := s[p].prefix, CommonPrefix(hex, s[p].prefix);
      SplitBranch(hex, C, |s|).prefix == cp && IsUpperHex(cp) && cp <= hex
      && |s[m].prefix| < |cp| < |hex| && |cp| < |C| && Hti(hex[|cp|]) != Hti(C[|cp|])
      && Extends(cp, s[m].prefix, OfWhich(s[m], hex))
  {
    var C := s[p].prefix;
    ChildOf(store, s, m, OfWhich(s[m], hex), height);
    SplitPoint(s[m], hex, C, height);
    CommonPrefixUnique(hex, C, SplitBranch(hex, C, |s|).prefix);
  }

  /** Below the node t of s', hex reads as a leaf holding value and every
      other key routed through m's slot w as it read below m in s. */
  ghost predicate Reroutes(store: map<string, string>, s: seq<Node>, s': seq<Node>, m: int, w: int, t: int,
                           hex: string, value: string, height: int)
    requires Shaped(s) && Shaped(s') && 0 <= m < |s| && 0 <= t < |s'|
  {
    forall k :: |k| == height && IsPrefix(k, s[m].prefix) && OfWhich(s[m], k) == w ==>
      Seek(store, s', t, k) == if k == hex then Holds(value) else Seek(store, s, m, k)
  }

  /** Relinking hex's slot of the branch m on hex's way to a node t where
      hex reads as a leaf holding value, and every other key routed through
      that slot reads as before, places hex. */
  lemma {:induction false} LinkPlaced(store: map<string, string>, s: seq<Node>, s': seq<Node>, m: int, w: int, t: int,
                                      hex: string, value: string, height: int)
    requires Relinks(s, s', m, w, t) && ArenaTrie(store, s', height) == true && Rooted(s) && Leads(s, 0, m, hex) && Toward(s[m], hex)
    requires w == OfWhich(s[m], hex) && |s'[t].prefix| > |s[m].prefix| && |hex| == height
    requires Reroutes(store, s, s', m, w, t, hex, value, height) == true
    ensures Placed(store, s, s', hex, value, height)
  {
    forall k | |k| == height ensures Seek(store, s', m, k) == if k == hex then Holds(value) else Seek(store, s, m, k) {
      Relinked(store, s, s', m, w, t, k);
    }
    Lift(store, s, s', m, hex, value, height);
  }

  /** Changing staged nodes in what the trie does not look at (values and
      hashes of leaves, the hash field) keeps the stack a trie. */
  lemma {:induction false} TrieSameShape(store: map<string, string>, s: seq<Node>, s': seq<Node>, height: int)
    requires ArenaTrie(store, s, height) == true && Shaped(s') && |s'| == |s|
    requires forall r :: 0 <= r < |s| ==> s'[r].prefix == s[r].prefix && s'[r].isLeaf == s[r].isLeaf
    requires forall r :: 0 <= r < |s| && !s[r].isLeaf ==> s'[r].pointers == s[r].pointers && s'[r].hashes == s[r].hashes
    ensures ArenaTrie(store, s', height)
  {
    forall r | 0 <= r < |s| ensures StagedFits(store, s', r, height) {
      assert StagedFits(store, s, r, height);
      if !s[r].isLeaf {
        forall i | 0 <= i < 16 ensures SlotFits(store, s', r, i) {
          assert SlotFits(store, s, r, i);
        }
      }
    }
  }

  /** A staged child whose prefix is hex takes the value. */
  lemma {:induction false} StagedValuePlaced(store: map<string, string>, s: seq<Node>, hex: string, value: string, m: int,
                                             height: int)
    requires ArenaTrie(store, s, height) && Rooted(s) && 0 <= m < |s| && Toward(s[m], hex) && Leads(s, 0, m, hex)
    requires IsUpperHex(hex) && |hex| == height && Fits(s[m], |s|)
    requires s[m].pointers[OfWhich(s[m], hex)] != -1 && s[s[m].pointers[OfWhich(s[m], hex)]].prefix == hex
    ensures PlaceStaged(s, hex, value, m, OfWhich(s[m], hex)).Stop?
    ensures Placed(store, s, PlaceStaged(s, hex, value, m, OfWhich(s[m], hex)).arena, hex, value, height)
  {
    var w := OfWhich(s[m], hex);
    var p := s[m].pointers[w];
    ChildOf(store, s, m, w, height);
    var s' := s[p := s[p].(value := value)];
    assert PlaceStaged(s, hex, value, m, w).arena == s';
    assert Fits(s[p], |s|);
    TrieSameShape(store, s, s', height);
    LeadsStep(s, 0, m, hex);
    forall k | |k| == height && k != hex ensures Seek(store, s', p, k) == Seek(store, s, p, k) {
      assert !IsPrefix(k, hex);
    }
    Lift(store, s, s', p, hex, value, height);
  }

  /** A staged child whose prefix hex extends is where the walk goes on. */
  lemma {:induction false} StagedDown(store: map<string, string>, s: seq<Node>, hex: string, value: string, m: int,
                                      height: int)
    requires ArenaTrie(store, s, height) && Rooted(s) && 0 <= m < |s| && Toward(s[m], hex) && Leads(s, 0, m, hex)
    requires IsUpperHex(hex) && |hex| == height && Fits(s[m], |s|)
    requires s[m].pointers[OfWhich(s[m], hex)] != -1
    requires var C := s[s[m].pointers[OfWhich(s[m], hex)]].prefix; C != hex && IsPrefix(hex, C)
    ensures var st := PlaceStaged(s, hex, value, m, OfWhich(s[m], hex));
      st.Down? && Descended(store, s, st.arena, st.at, hex, height) && |st.arena[st.at].prefix| > |s[m].prefix|
  {
    var w := OfWhich(s[m], hex);
    var p := s[m].pointers[w];
    ChildOf(store, s, m, w, height);
    assert PlaceStaged(s, hex, value, m, w) == Down(s, p);
    LeadsStep(s, 0, m, hex);
  }

  /** An unlinked non-empty slot of a staged branch names a stored record:
      a node of the trie extending the branch in that slot. */
  lemma {:induction false} ReadOf(store: map<string, string>, s: seq<Node>, m: int, w: int, height: int) returns (next: Node)
    requires ArenaTrie(store, s, height) == true && StoreTrie(store, height) == true
    requires 0 <= m < |s| && 0 <= w < 16 && !s[m].isLeaf && Fits(s[m], |s|)
    requires s[m].pointers[w] == -1 && s[m].hashes[w] != ""
    ensures var h := s[m].hashes[w];
      h in store && Parse(h, store[h]) == Ok(next) && Parse(h, ReadOr(store, h, "")) == Ok(next)
    ensures Extends(next.prefix, s[m].prefix, w) && NodeTrie(store, next, height) && Sized(s[m], height)
    ensures next.hash == s[m].hashes[w] && next.pointers == Unlinked()
  {
    var h := s[m].hashes[w];
    assert StagedFits(store, s, m, height) && SlotFits(store, s, m, w);
    assert RecordTrie(store, h, height);
    next := Parse(h, store[h]).value;
  }

  /** A stored child whose prefix is hex is staged with the value. */
  lemma {:induction false} ReadValuePlaced(store: map<string, string>, s: seq<Node>, hex: string, value: string, m: int,
                                           next: Node, height: int)
    requires ArenaTrie(store, s, height) && StoreTrie(store, height) && Rooted(s) && 0 <= m < |s|
    requires Toward(s[m], hex) && Leads(s, 0, m, hex) && IsUpperHex(hex) && |hex| == height && Fits(s[m], |s|)
    requires var w := OfWhich(s[m], hex); var h := s[m].hashes[w];
      s[m].pointers[w] == -1 && h != "" && Parse(h, ReadOr(store, h, "")) == Ok(next)
    requires next.prefix == hex
    ensures PlaceUnstaged(store, s, hex, value, m, OfWhich(s[m], hex)).Stop?
    ensures Placed(store, s, PlaceUnstaged(store, s, hex, value, m, OfWhich(s[m], hex)).arena, hex, value, height)
  {
    var w, q := OfWhich(s[m], hex), |s|;
    var next' := ReadOf(store, s, m, w, height);
    var n := next.(value := value);
    var s' := Link(s + [n], m, w, q);
    assert PlaceUnstaged(store, s, hex, value, m, w).arena == s';
    LinkRelinks(s, [n], m, w, q);
    assert s'[q] == n && Sized(n, height);
    assert StagedFits(store, s', q, height);
    TrieLinked(store, s, s', m, w, q, height);
    forall k | |k| == height && IsPrefix(k, s[m].prefix) && OfWhich(s[m], k) == w
      ensures Seek(store, s', q, k) == if k == hex then Holds(value) else Seek(store, s, m, k)
    {
      ReadSees(store, s, m, w, next, k);
    }
    assert Reroutes(store, s, s', m, w, q, hex, value, height) == true;
    LinkPlaced(store, s, s', m, w, q, hex, value, height);
  }

  /** A key routed through the unlinked slot w of the staged branch m reads
      as from the stored child `next` there. */
  lemma {:induction false} ReadSees(store: map<string, string>, s: seq<Node>, m: int, w: int, next: Node, k: string)
    requires Shaped(s) && 0 <= m < |s| && !s[m].isLeaf && Fits(s[m], |s|) && 0 <= w < 16
    requires var h := s[m].hashes[w]; s[m].pointers[w] == -1 && h != "" && Parse(h, ReadOr(store, h, "")) == Ok(next)
    requires |next.prefix| > |s[m].prefix|
    requires IsPrefix(k, s[m].prefix) && s[m].prefix != k && OfWhich(s[m], k) == w
    ensures Seek(store, s, m, k) == LookAt(store, next, k)
  {
  }

  /** What a split of a stored child stages: the new leaf, then the new
      branch, which links to it and keeps the child by its hash; m's slot w
      links to the branch. */
  lemma {:induction false} ReadSplitShape(store: map<string, string>, s: seq<Node>, hex: string, value: string, m: int, w: int,
                                          next: Node)
    requires Shaped(s) && 0 <= m < |s| && 0 <= w < 16 && !s[m].isLeaf && Fits(s[m], |s|)
    requires var h := s[m].hashes[w]; s[m].pointers[w] == -1 && h != "" && Parse(h, ReadOr(store, h, "")) == Ok(next)
    requires next.prefix != hex && !IsPrefix(hex, next.prefix)
    ensures var s' := PlaceUnstaged(store, s, hex, value, m, w).arena;
      var b := SplitBranch(hex, next.prefix, |s|);
      PlaceUnstaged(store, s, hex, value, m, w).Stop? && |s'| == |s| + 2 && Relinks(s, s', m, w, |s| + 1)
      && s'[|s|] == NewLeaf(hex, value) && s'[|s| + 1] == b.(hashes := b.hashes[OfWhich(b, next.prefix) := next.hash])
  {
    var b := SplitBranch(hex, next.prefix, |s|);
    var b' := b.(hashes := b.hashes[OfWhich(b, next.prefix) := next.hash]);
    LinkRelinks(s, [NewLeaf(hex, value), b'], m, w, |s| + 1);
  }

  /** The branch a split of a stored child stages at cp, the common prefix
      of hex and the child's prefix, is a node of the trie: one slot leads
      to hex's leaf, one holds the child's hash, the others are empty. */
  lemma {:induction false} ReadSplitFits(store: map<string, string>, s': seq<Node>, q: int, next: Node, hex: string,
                                         height: int)
    requires Shaped(s') && 0 <= q && q + 1 < |s'|
    requires next.hash in store && Parse(next.hash, store[next.hash]) == Ok(next)
    requires var b := SplitBranch(hex, next.prefix, q);
      s'[q + 1] == b.(hashes := b.hashes[OfWhich(b, next.prefix) := next.hash]) && s'[q].prefix == hex
    requires var C := next.prefix; var cp := CommonPrefix(hex, C);
      IsUpperHex(cp) && |cp| < height && |cp| < |hex| && |cp| < |C| && Hti(hex[|cp|]) != Hti(C[|cp|])
    ensures StagedFits(store, s', q + 1, height)
  {
    var C := next.prefix;
    var b := SplitBranch(hex, C, q);
    CommonPrefixUnique(hex, C, b.prefix);
    assert OfWhich(b, hex) == Hti(hex[|b.prefix|]) && OfWhich(b, C) == Hti(C[|b.prefix|]);
    var j := q + 1;
    forall i | 0 <= i < 16 ensures SlotFits(store, s', j, i) {
    }
  }

  /** The nodes a split of a stored child stages keep the stack a trie, and
      the split point lies between the branch m and the child. */
  lemma {:induction false} ReadSplitTrie(store: map<string, string>, s: seq<Node>, s': seq<Node>, hex: string, value: string,
                                         m: int, next: Node, height: int)
    requires ArenaTrie(store, s, height) == true && StoreTrie(store, height) == true && 0 <= m < |s| && Toward(s[m], hex)
    requires IsUpperHex(hex) && |hex| == height && Fits(s[m], |s|)
    requires var w := OfWhich(s[m], hex); var h := s[m].hashes[w];
      s[m].pointers[w] == -1 && h != "" && Parse(h, ReadOr(store, h, "")) == Ok(next)
    requires next.prefix != hex && !IsPrefix(hex, next.prefix)
    requires var b := SplitBranch(hex, next.prefix, |s|);
      |s'| == |s| + 2 && Relinks(s, s', m, OfWhich(s[m], hex), |s| + 1)
      && s'[|s|] == NewLeaf(hex, value) && s'[|s| + 1] == b.(hashes := b.hashes[OfWhich(b, next.prefix) := next.hash])
    ensures ArenaTrie(store, s', height)
    ensures var cp := CommonPrefix(hex, next.prefix);
      s'[|s| + 1].prefix == cp && |s[m].prefix| < |cp| < |hex| && |cp| < |next.prefix| && Hti(hex[|cp|]) != Hti(next.prefix[|cp|])
  {
    var w, q := OfWhich(s[m], hex), |s|;
    var C := next.prefix;
    var next' := ReadOf(store, s, m, w, height);
    SplitPoint(s[m], hex, C, height);
    var b := SplitBranch(hex, C, q);
    CommonPrefixUnique(hex, C, b.prefix);
    assert StagedFits(store, s', q, height);
    ReadSplitFits(store, s', q, next, hex, height);
    TrieLinked(store, s, s', m, w, q + 1, height);
  }

  /** A stored child whose prefix hex does not extend is split off: a new
      branch at the common prefix keeps it by its hash beside a new leaf. */
  lemma {:induction false} ReadSplitPlaced(store: map<string, string>, s: seq<Node>, hex: string, value: string, m: int,
                                           next: Node, height: int)
    requires ArenaTrie(store, s, height) && StoreTrie(store, height) && Rooted(s) && 0 <= m < |s|
    requires Toward(s[m], hex) && Leads(s, 0, m, hex) && IsUpperHex(hex) && |hex| == height && Fits(s[m], |s|)
    requires var w := OfWhich(s[m], hex); var h := s[m].hashes[w];
      s[m].pointers[w] == -1 && h != "" && Parse(h, ReadOr(store, h, "")) == Ok(next)
    requires next.prefix != hex && !IsPrefix(hex, next.prefix)
    ensures PlaceUnstaged(store, s, hex, value, m, OfWhich(s[m], hex)).Stop?
    ensures Placed(store, s, PlaceUnstaged(store, s, hex, value, m, OfWhich(s[m], hex)).arena, hex, value, height)
  {
    var w, q := OfWhich(s[m], hex), |s|;
    var s' := PlaceUnstaged(store, s, hex, value, m, w).arena;
    ReadSplitShape(store, s, hex, value, m, w, next);
    ReadSplitTrie(store, s, s', hex, value, m, next, height);
    forall k | |k| == height && IsPrefix(k, s[m].prefix) && OfWhich(s[m], k) == w
      ensures Seek(store, s', q + 1, k) == if k == hex then Holds(value) else Seek(store, s, m, k)
    {
      ReadSplitSees(store, s', q, next, hex, value, k);
      ReadSees(store, s, m, w, next, k);
    }
    assert Reroutes(store, s, s', m, w, q + 1, hex, value, height) == true;
    LinkPlaced(store, s, s', m, w, q + 1, hex, value, height);
  }

  /** A stored node of the trie, staged with no links, is a staged node of
      the trie. */
  lemma {:induction false} StagedRecord(store: map<string, string>, s': seq<Node>, q: int, height: int)
    requires Shaped(s') && 0 <= q < |s'| && NodeTrie(store, s'[q], height) && s'[q].pointers == Unlinked()
    ensures StagedFits(store, s', q, height)
  {
    if !s'[q].isLeaf {
      forall i | 0 <= i < 16 ensures SlotFits(store, s', q, i) {
      }
    }
  }

  /** A stored child whose prefix hex extends is staged, and the walk goes
      on from it. */
  lemma {:induction false} ReadDown(store: map<string, string>, s: seq<Node>, hex: string, value: string, m: int,
                                    next: Node, height: int)
    requires ArenaTrie(store, s, height) && StoreTrie(store, height) && Rooted(s) && 0 <= m < |s|
    requires Toward(s[m], hex) && Leads(s, 0, m, hex) && IsUpperHex(hex) && |hex| == height && Fits(s[m], |s|)
    requires var w := OfWhich(s[m], hex); var h := s[m].hashes[w];
      s[m].pointers[w] == -1 && h != "" && Parse(h, ReadOr(store, h, "")) == Ok(next)
    requires next.prefix != hex && IsPrefix(hex, next.prefix)
    ensures var st := PlaceUnstaged(store, s, hex, value, m, OfWhich(s[m], hex));
      st.Down? && Descended(store, s, st.arena, st.at, hex, height) && |st.arena[st.at].prefix| > |s[m].prefix|
  {
    var w, q := OfWhich(s[m], hex), |s|;
    var next' := ReadOf(store, s, m, w, height);
    var s' := Link(s + [next], m, w, q);
    assert PlaceUnstaged(store, s, hex, value, m, w) == Down(s', q);
    LinkRelinks(s, [next], m, w, q);
    assert s'[q] == next;
    StagedRecord(store, s', q, height);
    TrieLinked(store, s, s', m, w, q, height);
    LeadsKept(s, s', 0, m, hex);
    LeadsStep(s', 0, m, hex);
    forall k ensures Seek(store, s', 0, k) == Seek(store, s, 0, k) {
      Relinked(store, s, s', m, w, q, k);
      if IsPrefix(k, s[m].prefix) && s[m].prefix != k && OfWhich(s[m], k) == w {
        SeekUnlinked(store, s', q, k);
        ReadSees(store, s, m, w, next, k);
      }
      SeekAround(store, s, s', m, 0, k);
    }
  }

  /** One pass of commit's inner loop at a branch on hex's way either
      places hex or goes one node further down, keeping every key. */
  lemma {:induction false} StepPlaces(store: map<string, string>, s: seq<Node>, hex: string, value: string, m: int,
                                      height: int)
    requires ArenaTrie(store, s, height) && StoreTrie(store, height) && Rooted(s) && 0 <= m < |s|
    requires Toward(s[m], hex) && Leads(s, 0, m, hex) && IsUpperHex(hex) && |hex| == height
    ensures var st := PlaceStep(store, s, hex, value, m);
      (st.Stop? && Placed(store, s, st.arena, hex, value, height))
      || (st.Down? && Descended(store, s, st.arena, st.at, hex, height) && |st.arena[st.at].prefix| > |s[m].prefix|)
  {
    assert Fits(s[m], |s|);
    var w := OfWhich(s[m], hex);
    if s[m].pointers[w] != -1 {
      assert PlaceStep(store, s, hex, value, m) == PlaceStaged(s, hex, value, m, w);
      var C := s[s[m].pointers[w]].prefix;
      if C == hex {
        StagedValuePlaced(store, s, hex, value, m, height);
      } else if !IsPrefix(hex, C) {
        StagedSplitPlaced(store, s, hex, value, m, height);
      } else {
        StagedDown(store, s, hex, value, m, height);
      }
    } else {
      assert PlaceStep(store, s, hex, value, m) == PlaceUnstaged(store, s, hex, value, m, w);
      if s[m].hashes[w] == "" {
        LeafPlaced(store, s, hex, value, m, height);
      } else {
        var next := ReadOf(store, s, m, w, height);
        if next.prefix == hex {
          ReadValuePlaced(store, s, hex, value, m, next, height);
        } else if !IsPrefix(hex, next.prefix) {
          ReadSplitPlaced(store, s, hex, value, m, next, height);
        } else {
          ReadDown(store, s, hex, value, m, next, height);
        }
      }
    }
  }

  /** Placing hex after going down keeps what going down kept. */
  lemma {:induction false} PlacedAfter(store: map<string, string>, s0: seq<Node>, s: seq<Node>, s': seq<Node>, p: int,
                                       hex: string, value: string, height: int)
    requires Shaped(s0) && |s0| > 0 && Shaped(s) && |s| > 0
    requires Descended(store, s0, s, p, hex, height) && Placed(store, s, s', hex, value, height)
    ensures Placed(store, s0, s', hex, value, height)
  {
  }

  /** Going down twice is going down. */
  lemma {:induction false} DescendedAfter(store: map<string, string>, s0: seq<Node>, s: seq<Node>, s': seq<Node>, p: int,
                                          p': int, hex: string, height: int)
    requires Shaped(s0) && |s0| > 0 && Shaped(s) && |s| > 0
    requires Descended(store, s0, s, p, hex, height) && Descended(store, s, s', p', hex, height)
    ensures Descended(store, s0, s', p', hex, height)
  {
  }

  /** commit's inner loop from a branch on hex's way, after cnt passes that
      went no deeper than the branch's prefix: it places hex without being
      cut off, for keys of at most 41 digits. */
  lemma {:induction false} DescendPlaces(store: map<string, string>, s0: seq<Node>, s: seq<Node>, hex: string, value: string,
                                         p: int, cnt: nat, height: int)
    requires StoreTrie(store, height) && IsUpperHex(hex) && |hex| == height && height <= 41
    requires Shaped(s0) && |s0| > 0 && Descended(store, s0, s, p, hex, height) && cnt <= |s[p].prefix|
    ensures Descend(store, s, hex, value, p, cnt).Ok?
    ensures Placed(store, s0, Descend(store, s, hex, value, p, cnt).value, hex, value, height)
    decreases height - |s[p].prefix|
  {
    StepPlaces(store, s, hex, value, p, height);
    var st := PlaceStep(store, s, hex, value, p);
    if st.Stop? {
      PlacedAfter(store, s0, s, st.arena, p, hex, value, height);
    } else {
      DescendedAfter(store, s0, s, st.arena, p, st.at, hex, height);
      var next: nat := cnt + 1;
      DescendPlaces(store, s0, st.arena, hex, value, st.at, next, height);
      assert Descend(store, s, hex, value, p, cnt) == Descend(store, st.arena, hex, value, st.at, next);
    }
  }

  // ---------------------------------------------------------------------
  // gen_proof's walk, bounded, sees what the unbounded walk sees

  /** With more records to read than k runs past the node cur, gen_proof's
      walk from cur's record ends where the unbounded walk ends, unless the
      latter reads k as broken. */
  lemma {:induction false} WalkSees(store: map<string, string>, key: string, cur: Node, k: string, fuel: nat)
    requires Parse(key, ReadOr(store, key, "")) == Ok(cur) && fuel > Gap(cur.prefix, k)
    requires LookAt(store, cur, k) != Broken
    ensures LookAt(store, cur, k) == Absent ==> Walk(store, key, k, fuel) == Ok(Missing)
    ensures var seen := LookAt(store, cur, k);
      seen.Holds? ==>
        (Walk(store, key, k, fuel).Ok? && Walk(store, key, k, fuel).value.Found?
         && Walk(store, key, k, fuel).value.last.prefix == k
         && Walk(store, key, k, fuel).value.last.isLeaf && Walk(store, key, k, fuel).value.last.value == seen.value)
    ensures var seen := LookAt(store, cur, k);
      seen == Inner ==>
        (Walk(store, key, k, fuel).Ok? && Walk(store, key, k, fuel).value.Found?
         && Walk(store, key, k, fuel).value.last.prefix == k && !Walk(store, key, k, fuel).value.last.isLeaf)
    decreases fuel
  {
    WalkStops(store, key, k, fuel, cur);
    if cur.prefix != k && IsPrefix(k, cur.prefix) && !cur.isLeaf {
      var h := cur.hashes[OfWhich(cur, k)];
      if h != "" {
        WalkUnfolds(store, key, k, fuel, cur);
        var c := Parse(h, ReadOr(store, h, "")).value;
        WalkSees(store, h, c, k, fuel - 1);
      }
    }
  }

  /** gen_proof's walk from a root with no prefix, cut off after |k| + 1
      records, ends where the unbounded walk ends: the cut-off is never
      reached unless the trie reads k as broken. */
  lemma {:induction false} GenProofSees(store: map<string, string>, digest: string, k: string)
    requires Parse(digest, ReadOr(store, digest, "")).Ok? && Parse(digest, ReadOr(store, digest, "")).value.prefix == ""
    requires Look(store, digest, k) != Broken
    ensures Look(store, digest, k) == Absent ==> Walk(store, digest, k, |k| + 1) == Ok(Missing)
    ensures var seen := Look(store, digest, k);
      seen.Holds? ==>
        (Walk(store, digest, k, |k| + 1).Ok? && Walk(store, digest, k, |k| + 1).value.Found?
         && Walk(store, digest, k, |k| + 1).value.last.prefix == k
         && Walk(store, digest, k, |k| + 1).value.last.isLeaf && Walk(store, digest, k, |k| + 1).value.last.value == seen.value)
    ensures var seen := Look(store, digest, k);
      seen == Inner ==>
        (Walk(store, digest, k, |k| + 1).Ok? && Walk(store, digest, k, |k| + 1).value.Found?
         && Walk(store, digest, k, |k| + 1).value.last.prefix == k && !Walk(store, digest, k, |k| + 1).value.last.isLeaf)
  {
    WalkSees(store, digest, Parse(digest, ReadOr(store, digest, "")).value, k, |k| + 1);
  }

  /** Where the trie holds value as a leaf at k, gen_proof's answer for k is
      accepted by verify_proof for value against the digest, as written and
      as intended. */
  lemma {:induction false} HeldVerifies(H: Hasher, store: map<string, string>, digest: string, k: string, value: string)
    requires Sealed(H, store)
    requires Parse(digest, ReadOr(store, digest, "")).Ok? && Parse(digest, ReadOr(store, digest, "")).value.prefix == ""
    requires Look(store, digest, k) == Holds(value)
    ensures var w := Walk(store, digest, k, |k| + 1);
      w.Ok? && w.value.Found? && ProofText(w) == Ok(PathProof(w.value.levels))
      && Verify(H, digest, value, PathProof(w.value.levels)) && VerifyChecked(H, digest, value, PathProof(w.value.levels))
  {
    GenProofSees(store, digest, k);
    GenProofVerifies(H, store, digest, k, |k| + 1);
  }

  // ---------------------------------------------------------------------
  // What _compute keeps

  /** Every node of s' is walked, over store', as the node at the same
      place of s is walked over store. */
  ghost predicate SameView(store: map<string, string>, s: seq<Node>, store': map<string, string>, s': seq<Node>) {
    Shaped(s) && Shaped(s') && |s'| == |s|
    && forall r, k :: 0 <= r < |s| ==> Seek(store', s', r, k) == Seek(store, s, r, k)
  }

  lemma {:induction false} SameViewTrans(store: map<string, string>, s: seq<Node>, store': map<string, string>, s': seq<Node>,
                                         store'': map<string, string>, s'': seq<Node>)
    requires SameView(store, s, store', s') && SameView(store', s', store'', s'')
    ensures SameView(store, s, store'', s'')
  {
  }

  /** A walk reads no hash field of a staged node. */
  lemma {:induction false} SeekRehashed(store: map<string, string>, s: seq<Node>, s': seq<Node>, r: int, k: string)
    requires Shaped(s) && Shaped(s') && |s'| == |s| && 0 <= r < |s|
    requires forall j :: 0 <= j < |s| ==> s'[j] == s[j].(hash := s'[j].hash)
    ensures Seek(store, s', r, k) == Seek(store, s, r, k)
    decreases Gap(s[r].prefix, k)
  {
    var n := s[r];
    assert s'[r] == n.(hash := s'[r].hash) && Fits(n, |s|);
    if n.prefix != k && IsPrefix(k, n.prefix) && !n.isLeaf {
      var p := n.pointers[OfWhich(n, k)];
      if p != -1 && |s[p].prefix| > |n.prefix| {
        SeekRehashed(store, s, s', p, k);
      }
    }
  }

  /** Giving the node pos its hash changes no walk. */
  lemma {:induction false} RehashKeeps(store: map<string, string>, s: seq<Node>, pos: int, h: string)
    requires Shaped(s) && 0 <= pos < |s|
    ensures Shaped(s[pos := s[pos].(hash := h)]) && SameView(store, s, store, s[pos := s[pos].(hash := h)])
  {
    var s' := s[pos := s[pos].(hash := h)];
    assert Fits(s[pos], |s|);
    forall r, k | 0 <= r < |s| ensures Seek(store, s', r, k) == Seek(store, s, r, k) {
      SeekRehashed(store, s, s', r, k);
    }
  }

  /** Records added to a sealed store change no walk over a stack whose
      children it holds. */
  lemma {:induction false} SeekGrown(H: Hasher, store: map<string, string>, store': map<string, string>, s: seq<Node>, r: int,
                                     k: string)
    requires Sealed(H, store) && Kept(store, store') && Shaped(s) && Staged(store, s) && 0 <= r < |s|
    ensures Seek(store', s, r, k) == Seek(store, s, r, k)
    decreases Gap(s[r].prefix, k)
  {
    var n := s[r];
    assert Fits(n, |s|) && Anchored(store, n);
    if n.prefix != k && IsPrefix(k, n.prefix) && !n.isLeaf {
      var w := OfWhich(n, k);
      var p := n.pointers[w];
      if p == -1 {
        BeneathKept(H, store, store', n.prefix, n.hashes[w], k);
      } else if |s[p].prefix| > |n.prefix| {
        SeekGrown(H, store, store', s, p, k);
      }
    }
  }

  lemma {:induction false} GrownKeeps(H: Hasher, store: map<string, string>, store': map<string, string>, s: seq<Node>)
    requires Sealed(H, store) && Kept(store, store') && Shaped(s) && Staged(store, s)
    ensures SameView(store, s, store', s)
  {
    forall r, k | 0 <= r < |s| ensures Seek(store', s, r, k) == Seek(store, s, r, k) {
      SeekGrown(H, store, store', s, r, k);
    }
  }

  /** A printable node's record, read back, is walked as the node. */
  lemma {:induction false} RecordSees(store: map<string, string>, h: string, n: Node, k: string)
    requires h in store && store[h] == ToString(n) && Printable(n)
    ensures Parse(h, store[h]).Ok? && Parse(h, store[h]).value.prefix == n.prefix
    ensures LookAt(store, Parse(h, store[h]).value, k) == LookAt(store, n, k)
  {
    ParsePrinted(h, n);
  }

  /** A node linked nowhere whose record is stored under its hash: the trie
      under that hash reads every key as the stack does from the node. */
  lemma {:induction false} SettledLook(store: map<string, string>, s: seq<Node>, pos: int, k: string)
    requires Shaped(s) && 0 <= pos < |s| && s[pos].pointers == Unlinked() && Printable(s[pos])
    requires s[pos].hash in store && store[s[pos].hash] == ToString(s[pos])
    ensures Look(store, s[pos].hash, k) == Seek(store, s, pos, k)
  {
    SeekUnlinked(store, s, pos, k);
    RecordSees(store, s[pos].hash, s[pos], k);
  }

  /** _compute's step for slot i of the branch pos: the link to a child
      whose record is stored under its hash gives way to that hash, and no
      walk changes. */
  lemma {:induction false} UnlinkKeeps(store: map<string, string>, s: seq<Node>, pos: int, i: int)
    requires Shaped(s) && 0 <= pos < |s| && !s[pos].isLeaf && 0 <= i < 16 && Fits(s[pos], |s|)
    requires var p := s[pos].pointers[i];
      p != -1 && s[p].pointers == Unlinked() && Printable(s[p]) && s[p].hash != ""
      && s[p].hash in store && store[s[p].hash] == ToString(s[p])
    ensures var cur := s[pos]; var h := s[cur.pointers[i]].hash;
      SameView(store, s, store, s[pos := cur.(hashes := cur.hashes[i := h], pointers := cur.pointers[i := -1])])
  {
    var cur := s[pos];
    var p := cur.pointers[i];
    var h := s[p].hash;
    var s' := s[pos := cur.(hashes := cur.hashes[i := h], pointers := cur.pointers[i := -1])];
    assert Fits(s'[pos], |s'|);
    assert Shaped(s');
    forall k ensures Seek(store, s', pos, k) == Seek(store, s, pos, k) {
      if IsPrefix(k, cur.prefix) && cur.prefix != k {
        if OfWhich(cur, k) == i {
          SeekUnlinked(store, s, p, k);
          RecordSees(store, h, s[p], k);
        } else {
          var q := cur.pointers[OfWhich(cur, k)];
          if q != -1 && |s[q].prefix| > |cur.prefix| {
            SeekAbove(store, s, s', q, k, |cur.prefix| + 1);
          }
        }
      }
    }
    forall r, k | 0 <= r < |s| ensures Seek(store, s', r, k) == Seek(store, s, r, k) {
      SeekAround(store, s, s', pos, r, k);
    }
  }

  /** Records added change no node of the trie. */
  lemma {:induction false} NodeGrown(store: map<string, string>, store': map<string, string>, n: Node, height: int)
    requires NodeTrie(store, n, height) && Kept(store, store')
    ensures NodeTrie(store', n, height)
  {
    if !n.isLeaf {
      forall i | 0 <= i < 16 && n.hashes[i] != "" ensures Slot(store', n.prefix, i, n.hashes[i]) {
        assert Slot(store, n.prefix, i, n.hashes[i]);
      }
    }
  }

  lemma {:induction false} TrieGrown(store: map<string, string>, store': map<string, string>, s: seq<Node>, height: int)
    requires ArenaTrie(store, s, height) == true && Kept(store, store')
    ensures ArenaTrie(store', s, height)
  {
    forall r | 0 <= r < |s| ensures StagedFits(store', s, r, height) {
      assert StagedFits(store, s, r, height);
      if !s[r].isLeaf {
        forall i | 0 <= i < 16 ensures SlotFits(store', s, r, i) {
          assert SlotFits(store, s, r, i);
        }
      }
    }
  }

  /** NodeRat::write of a staged node linked nowhere, over no other record,
      keeps the store and the stack a trie. */
  lemma {:induction false} WriteTrie(store: map<string, string>, s: seq<Node>, pos: int, h: string, height: int)
    requires StoreTrie(store, height) == true && ArenaTrie(store, s, height) == true && 0 <= pos < |s|
    requires s[pos].pointers == Unlinked() && Printable(s[pos]) && (h in store ==> store[h] == ToString(s[pos]))
    ensures StoreTrie(store[h := ToString(s[pos])], height) && ArenaTrie(store[h := ToString(s[pos])], s, height)
  {
    var store' := store[h := ToString(s[pos])];
    assert Kept(store, store');
    TrieGrown(store, store', s, height);
    ParsePrinted(h, s[pos]);
    var n := Parse(h, ToString(s[pos])).value;
    assert StagedFits(store, s, pos, height);
    if !n.isLeaf {
      forall i | 0 <= i < 16 && n.hashes[i] != "" ensures Slot(store', n.prefix, i, n.hashes[i]) {
        assert SlotFits(store, s, pos, i);
      }
    }
    assert RecordTrie(store', h, height);
    forall key | key in store' ensures RecordTrie(store', key, height) {
      if key != h {
        assert RecordTrie(store, key, height);
        NodeGrown(store, store', Parse(key, store[key]).value, height);
      }
    }
  }

  /** _compute's step for slot i keeps the stack a trie: the child's hash
      names a record with the child's prefix. */
  lemma {:induction false} UnlinkTrie(store: map<string, string>, s: seq<Node>, pos: int, i: int, height: int)
    requires ArenaTrie(store, s, height) == true && 0 <= pos < |s| && !s[pos].isLeaf && 0 <= i < 16 && Fits(s[pos], |s|)
    requires var p := s[pos].pointers[i];
      p != -1 && s[p].hash in store && Parse(s[p].hash, store[s[p].hash]).Ok?
      && Parse(s[p].hash, store[s[p].hash]).value.prefix == s[p].prefix
    ensures var cur := s[pos]; var h := s[cur.pointers[i]].hash;
      ArenaTrie(store, s[pos := cur.(hashes := cur.hashes[i := h], pointers := cur.pointers[i := -1])], height)
  {
    var cur := s[pos];
    var h := s[cur.pointers[i]].hash;
    var s' := s[pos := cur.(hashes := cur.hashes[i := h], pointers := cur.pointers[i := -1])];
    assert Fits(s'[pos], |s'|);
    assert Shaped(s');
    forall r | 0 <= r < |s| ensures StagedFits(store, s', r, height) {
      assert StagedFits(store, s, r, height);
      if !s[r].isLeaf {
        forall j | 0 <= j < 16 ensures SlotFits(store, s', r, j) {
          assert SlotFits(store, s, r, j);
        }
      }
    }
  }

  // ---------------------------------------------------------------------
  // commit, over the whole list of pending pairs

  /** Keys as the driver passes them to the tree: 40 hex digits. */
  const KeyDigits: int := 40

  /** The value the last pending pair for k gives it, if any. */
  function Latest(pairs: seq<(string, string)>, k: string): (r: Option<string>)
    ensures r.None? <==> forall j :: 0 <= j < |pairs| ==> pairs[j].0 != k
    ensures r.Some? ==>
      exists j :: 0 <= j < |pairs| && pairs[j] == (k, r.value) && forall j' :: j < j' < |pairs| ==> pairs[j'].0 != k
  {
    if pairs == [] then None
    else if pairs[|pairs| - 1].0 == k then Some(pairs[|pairs| - 1].1)
    else Latest(pairs[..|pairs| - 1], k)
  }

  /** What k should read as once the pending pairs are committed over the
      trie under digest: the last value given to it, or what it read as. */
  function Expected(pairs: seq<(string, string)>, store: map<string, string>, digest: string, k: string): Seen {
    match Latest(pairs, k)
    case Some(v) => Holds(v)
    case None => Look(store, digest, k)
  }

  /** The record under digest is a branch with no prefix. */
  predicate RootedAt(store: map<string, string>, digest: string) {
    var r := Parse(digest, ReadOr(store, digest, ""));
    r.Ok? && r.value.prefix == "" && !r.value.isLeaf
  }

  /** The store init writes, the empty root under the hash of "", is a
      trie of keys of any positive length rooted at that hash. */
  lemma {:induction false} EmptyRootTidy(H: Hasher, height: int)
    requires height > 0
    ensures var store := map[Hash(H, "") := EmptyRoot];
      StoreTrie(store, height) && RootedAt(store, Hash(H, ""))
  {
    var d := Hash(H, "");
    var store := map[d := EmptyRoot];
    var n := NewBranch("", NoHashes());
    EmptyRootPrinted(H);
    ParsePrinted(d, n);
    assert RecordTrie(store, d, height);
  }

  /** From its root, stack s reads every key of the given length as the
      pairs committed over the trie under digest0 would make it read. */
  ghost predicate Promises(store: map<string, string>, s: seq<Node>, pairs: seq<(string, string)>,
                           store0: map<string, string>, digest0: string, height: int) {
    Shaped(s) && |s| > 0 && forall k :: |k| == height ==> Seek(store, s, 0, k) == Expected(pairs, store0, digest0, k)
  }

  /** The stack commit starts from, the root record alone, is a rooted
      trie that reads every key as the trie under digest does. */
  lemma {:induction false} RootStack(store: map<string, string>, digest: string, height: int)
    requires StoreTrie(store, height) && RootedAt(store, digest)
    ensures var root := Parse(digest, ReadOr(store, digest, "")).value;
      Shaped([root]) && ArenaTrie(store, [root], height) && Rooted([root])
      && (forall k :: Seek(store, [root], 0, k) == Look(store, digest, k))
      && Promises(store, [root], [], store, digest, height)
  {
    if digest !in store {
      ParseMissing(digest);
    }
    var root := Parse(digest, store[digest]).value;
    assert Fits(root, 1);
    assert RecordTrie(store, digest, height);
    StagedRecord(store, [root], 0, height);
    forall k ensures Seek(store, [root], 0, k) == Look(store, digest, k) {
      SeekUnlinked(store, [root], 0, k);
    }
  }

  lemma {:induction false} PairsStep(pairs: seq<(string, string)>, i: int)
    requires 0 <= i < |pairs|
    ensures pairs[..i + 1] == pairs[..i] + [(pairs[i].0, pairs[i].1)]
  {
  }

  /** commit's inner loop for one more pair (hex, value): it is not cut off
      and afterwards hex reads as value, every other key as before. */
  lemma {:induction false} PlaceKeeps(store: map<string, string>, s: seq<Node>, pairs: seq<(string, string)>, digest: string,
                                      hex: string, value: string, height: int)
    requires ArenaTrie(store, s, height) && StoreTrie(store, height) && Rooted(s)
    requires IsUpperHex(hex) && |hex| == height && height <= 41
    requires Promises(store, s, pairs, store, digest, height)
    ensures Descend(store, s, hex, value, 0, 0).Ok?
    ensures var s' := Descend(store, s, hex, value, 0, 0).value;
      ArenaTrie(store, s', height) && Rooted(s') && Promises(store, s', pairs + [(hex, value)], store, digest, height)
  {
    assert StagedFits(store, s, 0, height);
    DescendPlaces(store, s, s, hex, value, 0, 0, height);
    var s' := Descend(store, s, hex, value, 0, 0).value;
    forall k | |k| == height ensures Seek(store, s', 0, k) == Expected(pairs + [(hex, value)], store, digest, k) {
      assert (pairs + [(hex, value)])[..|pairs|] == pairs;
    }
  }

  /** commit, then gen_proof, then verify_proof: once the trie under digest
      reads every 40-digit key as the pending pairs say, the proof for a key
      whose last pair gave it value is accepted for value. */
  lemma {:induction false} CommittedVerifies(H: Hasher, store: map<string, string>, digest: string, pairs: seq<(string, string)>,
                                             store0: map<string, string>, digest0: string, k: string, value: string)
    requires Sealed(H, store) && RootedAt(store, digest)
    requires forall k' :: |k'| == KeyDigits ==> Look(store, digest, k') == Expected(pairs, store0, digest0, k')
    requires |k| == KeyDigits && Latest(pairs, k) == Some(value)
    ensures var w := Walk(store, digest, k, |k| + 1);
      w.Ok? && w.value.Found? && ProofText(w).Ok? && Verify(H, digest, value, ProofText(w).value)
  {
    HeldVerifies(H, store, digest, k, value);
  }

  /** What a step of _compute keeps: every record stored before, what every
      staged node reads each key as, and a trie of store and stack. */
  ghost predicate Preserves(store: map<string, string>, s: seq<Node>, store': map<string, string>, s': seq<Node>, height: int) {
    Kept(store, store') && SameView(store, s, store', s')
    && (StoreTrie(store, height) && ArenaTrie(store, s, height) ==> StoreTrie(store', height) && ArenaTrie(store', s', height))
  }

  lemma {:induction false} PreservesTrans(store: map<string, string>, s: seq<Node>, store': map<string, string>, s': seq<Node>,
                                          store'': map<string, string>, s'': seq<Node>, height: int)
    requires Preserves(store, s, store', s', height) && Preserves(store', s', store'', s'', height)
    ensures Preserves(store, s, store'', s'', height)
  {
    SameViewTrans(store, s, store', s', store'', s'');
  }

  /** Hashing node pos and writing its record keeps everything, unless the
      write replaced a different record. */
  lemma {:induction false} WritePreserves(H: Hasher, store: map<string, string>, s: seq<Node>, pos: int, h: string, height: int)
    requires Sealed(H, store) && Shaped(s) && Staged(store, s) && 0 <= pos < |s| && s[pos].pointers == Unlinked()
    requires h in store ==> store[h] == ToString(s[pos])
    ensures Preserves(store, s, store[h := ToString(s[pos])], s[pos := s[pos].(hash := h)], height)
  {
    var store' := store[h := ToString(s[pos])];
    AnchoredPrintable(H, store, s[pos]);
    GrownKeeps(H, store, store', s);
    RehashKeeps(store', s, pos, h);
    SameViewTrans(store, s, store', s, store', s[pos := s[pos].(hash := h)]);
    if StoreTrie(store, height) && ArenaTrie(store, s, height) {
      WriteTrie(store, s, pos, h, height);
      TrieSameShape(store', s, s[pos := s[pos].(hash := h)], height);
    }
  }

  /** Copying a settled child's hash into slot i of branch pos and dropping
      the link keeps everything. */
  lemma {:induction false} UnlinkPreserves(H: Hasher, store: map<string, string>, s: seq<Node>, pos: int, i: int, height: int)
    requires Sealed(H, store) && Shaped(s) && Staged(store, s) && 0 <= pos < |s| && !s[pos].isLeaf && 0 <= i < 16
    requires var p := s[pos].pointers[i];
      p != -1 && s[p].pointers == Unlinked() && IsDigest(s[p].hash)
      && s[p].hash in store && store[s[p].hash] == ToString(s[p])
    ensures var cur := s[pos]; var h := s[cur.pointers[i]].hash;
      Preserves(store, s, store, s[pos := cur.(hashes := cur.hashes[i := h], pointers := cur.pointers[i := -1])], height)
  {
    var p := s[pos].pointers[i];
    AnchoredPrintable(H, store, s[p]);
    UnlinkKeeps(store, s, pos, i);
    if StoreTrie(store, height) && ArenaTrie(store, s, height) {
      ParsePrinted(s[p].hash, s[p]);
      UnlinkTrie(store, s, pos, i, height);
    }
  }

  /** commit's last step: once _compute has settled the root of a stack
      that read every key as expected, the trie under the root's hash reads
      every key so. */
  lemma {:induction false} SettledRoot(H: Hasher, store0: map<string, string>, stack: seq<Node>, store: map<string, string>, out: seq<Node>,
                                       pairs: seq<(string, string)>, digest0: string)
    requires Preserves(store0, stack, store, out, KeyDigits) == true
    requires StoreTrie(store0, KeyDigits) == true && ArenaTrie(store0, stack, KeyDigits) == true
    requires Sealed(H, store) == true && Staged(store, out) == true && Rooted(stack) && |out| == |stack|
    requires out[0].prefix == "" && !out[0].isLeaf && out[0].pointers == Unlinked()
    requires out[0].hash in store && store[out[0].hash] == ToString(out[0])
    requires Promises(store0, stack, pairs, store0, digest0, KeyDigits) == true
    ensures StoreTrie(store, KeyDigits) && RootedAt(store, out[0].hash)
    ensures forall k :: |k| == KeyDigits ==> Look(store, out[0].hash, k) == Expected(pairs, store0, digest0, k)
  {
    AnchoredPrintable(H, store, out[0]);
    ParsePrinted(out[0].hash, out[0]);
    forall k | |k| == KeyDigits ensures Look(store, out[0].hash, k) == Expected(pairs, store0, digest0, k) {
      SettledLook(store, out, 0, k);
    }
  }
}
