// The two node shapes of the binary Merkle trees (node.hpp).
module Nodes {
  import opened Tools

  /** Node: a leaf keeps its value as its hash; a parent hashes the
      concatenation of its children's hashes. Its record is its hash. */
  datatype Node = Node(hashVal: string)
  {
    function GetHashVal(): string { hashVal }
    function ToString(): string { hashVal }
  }

  function Leaf(val: string): Node {
    Node(val)
  }

  function Parent(H: Hasher, left: Node, right: Node): Node {
    Node(Hash(H, left.hashVal + right.hashVal))
  }

  /** A leaf's record and hash are its value; a parent's hash is a digest of
      both children in order. */
  lemma {:induction false} NodeShapes(H: Hasher, val: string, l: Node, r: Node)
    ensures Leaf(val).ToString() == val && Leaf(val).GetHashVal() == val
    ensures Parent(H, l, r).GetHashVal() == Hash(H, l.GetHashVal() + r.GetHashVal())
    ensures IsDigest(Parent(H, l, r).ToString())
  {
  }

  /** NodeChild: a parent additionally keeps its children's hashes and
      stores them after its own. */
  datatype NodeChild = NodeChild(hashVal: string, children: seq<string>, leafNode: bool)
  {
    ghost predicate Valid() {
      if leafNode then |children| == 1 else |children| == 2
    }

    function GetHashVal(): string { hashVal }

    function ToString(): string
      requires Valid()
    {
      if leafNode then children[0] else hashVal + children[0] + children[1]
    }
  }

  function ChildLeaf(val: string): (n: NodeChild)
    ensures n.Valid()
  {
    NodeChild(val, [val], true)
  }

  function ChildParent(H: Hasher, left: NodeChild, right: NodeChild): (n: NodeChild)
    ensures n.Valid()
  {
    NodeChild(Hash(H, left.hashVal + right.hashVal), [left.hashVal, right.hashVal], false)
  }

  /** A leaf's record is its value; a parent's record is hash ++ left ++ right,
      192 characters with the two children at offsets 64 and 128 when the
      children's hashes are 64 characters each. */
  lemma {:induction false} ChildRecordLayout(H: Hasher, val: string, l: NodeChild, r: NodeChild)
    requires |l.hashVal| == 64 && |r.hashVal| == 64
    ensures ChildLeaf(val).ToString() == val && ChildLeaf(val).GetHashVal() == val
    ensures var s := ChildParent(H, l, r).ToString();
      |s| == 192 && s[..64] == Hash(H, s[64..]) && s[64..128] == l.hashVal && s[128..] == r.hashVal
  {
    var s := ChildParent(H, l, r).ToString();
    assert s[64..] == l.hashVal + r.hashVal;
  }
}
