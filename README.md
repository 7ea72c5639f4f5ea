# DupTree authenticated stores, modelled in Dafny

DupTree is a C++ benchmark of authenticated key-value stores. Each store keeps
its nodes as string records in a LevelDB database, maintains a 64-character
root digest, hands out a proof for a key (`gen_proof`) and checks a proof
against the digest (`verify_proof`). This project models the stores' logic on
an abstract record store (a Dafny `map`) and proves what their proofs promise.

The modules follow the source files:

- `Tools` (tools.dfy): the string and number helpers of src/tools.cpp and src/tools.hpp: `is_prefix`, `common_prefix`, `int_to_hex` (both overloads), `int_to_binary`, `hex_to_binary`, `hti`/`htb`, `up_to`/`up_to_max`, `itos`, and the hash as a parameter.
- `Results`: the error outcomes (out-of-range `substr`, bad records, the loop guards).
- `IO` (io.dfy): the `IOLevelDB` write buffer over the database and `IOMultiple`'s key namespaces.
- `Nodes` (node.dfy): `Node` and `NodeChild`.
- `MemChecker` (memchecker.dfy): `MerkleBase`'s leaf count, sibling ids and the binary `verify_proof`.
- `Heap` and `Merkle` (heap.dfy, merkle.dfy): `MerkleSimple` and `MerkleChild`, the heap-indexed binary trees.
- `DupTrees` (duptree.dfy): DupTree as a class over the `DupTreeSimple` and `DupTreeBlock` copy layouts: `gen_node`, `init`, `update`, `read_self`, `modify_id_level`, `get_high` and `gen_proof`, with the record invariant they keep.
- `DupPlus` (dupplus.dfy): DupTreePlus's block arithmetic and its `update`/`gen_proof` walks.
- `FatTrees` and `FatMints` (fattree.dfy, fatmint.dfy): the unversioned 16-ary tries.
- `Proof16` (proof16.dfy): the 961-character proof records shared by the 16-ary tries and their verifier.
- `RatTree`, `RatLookup` and `RatTrees` (rattree.dfy, ratlookup.dfy, rattree_class.dfy): the content-addressed RatTree, its deferred commit and its proof round trip.
- `RatVersioned` and `VersionedTree` (ratversioned.dfy, versionedtree.dfy): the records of RatPrefix, RatCompact and RatPadding (one node type parameterised by the record format), commit's node arena and gen_proof's walk.
- `VersionedLookup` (versionedlookup.dfy): what a key reads as, from a stored record or from commit's arena, and how each step of commit's inner loop places a pair.
- `VersionedStage` (versionedstage.dfy): the store invariant `_compute` keeps, the hashes an arena's unlinked slots carry, and commit's contents round trip.
- `VersionedSeal` (versionedseal.dfy): what a stored record stands for, and why gen_proof's levels fold to it.
- `VersionedRats` (versionedrat.dfy): the RatPrefix, RatCompact and RatPadding objects as one class: `init`, `update`, `commit`, `_compute`, `write`, `gen_proof` and `verify_proof`.
- `SparseProofs` (sparseproof.dfy): the verifier of the binary sparse tries.

Objects whose fields the source updates are classes whose methods state their
new state: the tree classes, the IO classes. Record formats, proofs and walks
are functions, and the lemmas beside them state the round trips and the proof
properties.

## Model

| member | source | states |
|---|---|---|
| Tools.Hash | src/tools.cpp:12-25 | the hash used everywhere is always a 64-character lower-case hex digest, and it equals calculateSHA256Hash's answer whenever that answer is one |
| Tools.DigestIsNotNull | src/tools.cpp:99 | no digest equals the null64 marker or begins with '@' |
| Tools.Substr | src/merkle.hpp:89 | std::string::substr succeeds exactly when pos is within the string; the piece is a prefix of the tail of length min(len, rest) |
| Tools.Replace | src/merkle.hpp:94 | std::string::replace succeeds exactly when pos is within the string; the length is adjusted by the removed and inserted parts and the head is kept |
| Tools.ReplaceBlock | src/merkle.hpp:94 | replacing an in-range block with a string of the same length splices it in and keeps the length |
| Tools.Hti | src/tools.cpp:75-97 | the hti table gives a value below 16: a decimal digit's value, and at least 10 for a letter of either case |
| Tools.HexDigit | src/tools.cpp:140 | the digit int_to_hex writes for a value below 16 is upper-case hex and hti reads it back to the same value |
| Tools.HtiInjectiveOnUpperHex | src/tools.cpp:75-91 | two upper-case hex digits with the same hti value are the same digit |
| Tools.Htb | src/tools.cpp:57-73 | htb maps an upper-case hex digit to the four-bit code of its hti value, and anything else to "" (std::map's default) |
| Tools.HexToBinary | src/tools.cpp:101-111 | the loop that upper-cases and appends htb codes computes HexToBinarySpec |
| Tools.HexToBinaryBlocks | src/tools.cpp:101-111 | on a hex string the output has four characters per digit and block i is the four-bit code of digit i (either case) |
| Tools.BitsLsb | src/tools.cpp:113-132 | int_to_binary's result has numBits characters, position i holding bit i of the number |
| Tools.IntToBinary | src/tools.cpp:113-132 | the two loops of int_to_binary write exactly BitsLsb(decimal, numBits) when the number fits in numBits bits |
| Tools.HexDigitsLsb | src/tools.cpp:149-160 | int_to_hex(d) writes upper-case hex digits and is empty exactly for 0 |
| Tools.HexDigitsRoundTrip | src/tools.cpp:149-160 | reading int_to_hex(d) back least-significant digit first gives d |
| Tools.HexDigitsInjective | src/tools.cpp:149-160 | distinct numbers get distinct int_to_hex strings |
| Tools.HexDigitsLength | src/tools.cpp:149-160 | int_to_hex(d) has at most n digits exactly when d < 16^n |
| Tools.IntToHex | src/tools.cpp:149-160 | the shifting loop of int_to_hex(d) computes HexDigitsLsb(d) |
| Tools.PaddedHexFacts | src/tools.cpp:134-147 | int_to_hex(d, n) has n upper-case hex characters and reads back to d when d < 16^n |
| Tools.TrailingZerosKeepValue | src/tools.cpp:142-143 | the '0' padding int_to_hex(d, n) adds does not change the value read back |
| Tools.IntToHexPadded | src/tools.cpp:134-147 | the two loops of int_to_hex(d, n) write PaddedHex(d, n): n characters reading back to d |
| Tools.IsPrefix | src/tools.cpp:162-164 | is_prefix holds exactly when pre is a prefix of str, never when pre is longer |
| Tools.CommonPrefix | src/tools.cpp:166-178 | common_prefix is a prefix of both strings that cannot be extended |
| Tools.CommonPrefixLoop | src/tools.cpp:166-178 | the early-exit loop of common_prefix returns CommonPrefix |
| Tools.CommonPrefixUnique | src/tools.cpp:166-178 | any common prefix that cannot be extended is the one common_prefix returns |
| Tools.UpTo | src/tools.cpp:35-40 | up_to(x, v) is at least x, its double reaches v, and it is below v unless no doubling happened |
| Tools.UpToIsLeastDoubling | src/tools.cpp:35-40 | up_to(x, v) is x times the least power of two whose double reaches v |
| Tools.UpToLoop | src/tools.cpp:35-40 | the doubling loop computes UpTo |
| Tools.UpToMax | src/tools.cpp:42-47 | up_to_max(x, v) is at least x, 2r+1 reaches v, and it is below v unless no step happened |
| Tools.UpToMaxLoop | src/tools.cpp:42-47 | the x = 2x+1 loop computes UpToMax |
| Tools.UpToOnLevel | src/tools.cpp:35-40 | for a heap id x on level m of a tree with hb levels, up_to(x, 2^hb) is the leftmost leaf below x |
| Tools.UpToMaxOnLevel | src/tools.cpp:42-47 | for the same x, up_to_max(x, 2^hb) is the rightmost leaf below x |
| Tools.NatDecimal | src/tools.hpp:18 | std::to_string of a non-negative number is a non-empty string of decimal digits |
| Tools.NatDecimalRoundTrip | src/tools.hpp:18 | reading std::to_string(d) back as decimal gives d |
| Tools.ItosLength | src/tools.hpp:13-19 | itos(d) is ten '0' characters followed by std::to_string(d) |
| Tools.ItosInjective | src/tools.hpp:13-19 | distinct ids have distinct itos keys |
| Tools.DecimalStringInjective | src/tools.hpp:18 | std::to_string is injective on long long |
| Tools.DecimalSign | src/tools.hpp:18 | std::to_string(d) starts with '-' exactly when d is negative |
| Nodes.NodeShapes | src/node.hpp:16-30 | a leaf stores and hashes as its value; a parent's hash is the hash of its children's hashes and is stored as that digest |
| Nodes.ChildLeaf | src/node.hpp:40-56 | NodeChild's leaf constructor builds a well-formed node |
| Nodes.ChildParent | src/node.hpp:40-56 | NodeChild's parent constructor builds a well-formed node |
| Nodes.ChildRecordLayout | src/node.hpp:40-56 | a NodeChild parent's record is 192 characters: its hash (of the last 128), then the left and the right child's hash |
| MemChecker.NumLeaf | src/mem_checker.hpp:24-28 | a tree of the given height has at least one leaf (num_leaf = 2^height) |
| MemChecker.SiblingFlipsLowestBit | src/merkle.hpp:71 | the sibling id id/2*4+1-id flips the lowest bit, has the same parent, and is an involution |
| MemChecker.VerifyProof | src/mem_checker.hpp:32-40 | verify_proof's loop succeeds exactly when the fold over 64-character chunks does, and accepts exactly when the fold ends at the digest |
| MemChecker.LeafDepth | src/mem_checker.hpp:32-40 | a leaf id of a tree of height h takes h halvings to reach the root |
| MemChecker.VerifyFoldReadsSteps | src/mem_checker.hpp:32-40 | verify_proof reads one chunk per level and ignores anything after them |
| MemChecker.VerifyConsumesHeightChunks | src/mem_checker.hpp:32-40 | a proof of exactly 64*height characters is consumed without running out of range |
| IO.IOLevelDB.constructor | src/io.hpp:34-38 | a new store has an empty database and buffer and the given batch size |
| IO.IOLevelDB.Open | src/io.hpp:40-52 | open destroys the previous database; it reports the status it is given |
| IO.IOLevelDB.Write | src/io.hpp:54-63 | after write, the logical contents (database overlaid by buffer) map the key to the value; the buffer is flushed when it reaches the batch size |
| IO.IOLevelDB.Flush | src/io.hpp:65-73 | flush moves the logical contents into the database and empties the buffer |
| IO.IOLevelDB.Read | src/io.hpp:75-82 | read finds a key exactly when the logical contents hold it and returns its value; otherwise the out-string keeps its previous value |
| IO.IOLevelDB.Destroy | src/io.hpp:88-92 | destroy empties the database |
| IO.UnionUpdate | src/io.hpp:54-63 | writing into the buffer updates the overlay the way a map update does |
| IO.ItosHasNoColon | src/io.hpp:112-114 | an itos id never contains ':' |
| IO.NamespacesAreDisjoint | src/io.hpp:112-120 | two IOMultiple key spaces never share a key: the id and the key are recovered from the namespaced key |
| IO.IOMultiple.constructor | src/io.hpp:103 | an IOMultiple wraps the shared store under its id |
| IO.IOMultiple.ChangeId | src/io.hpp:105-107 | change_id switches the namespace |
| IO.IOMultiple.Open | src/io.hpp:109-111 | open always succeeds |
| IO.IOMultiple.Write | src/io.hpp:112-114 | write stores the value under the key prefixed by the id |
| IO.IOMultiple.Read | src/io.hpp:118-120 | read looks up the key prefixed by the id, with read's not-found behaviour |
| Heap.ItosDistinct | src/tools.hpp:13-19 | distinct heap ids are stored under distinct itos keys (why stores keyed by heap id are faithful) |
| Heap.Records | src/merkle.hpp:14-25 | the records gen_node writes: one per heap id below 2N, each the one its node computes |
| Heap.GenWritesAll | src/merkle.hpp:14-25 | gen_node(1) writes every heap id below 2N with its record |
| Heap.GenKeepsOutside | src/merkle.hpp:14-25 | gen_node(id) changes no record outside id's subtree |
| Merkle.SimpleUpdateSound | src/merkle.hpp:48-56 | MerkleSimple update keeps every parent the hash of its two children (in sibling order), stores the value at the leaf, and its digest is the new root |
| Merkle.SimpleUpdateKeepsLeaves | src/merkle.hpp:48-56 | update changes no other leaf |
| Merkle.SimpleUpdateSized | src/merkle.hpp:48-56 | update keeps every leaf a 64-character value |
| Merkle.SimpleProofLength | src/merkle.hpp:58-66 | gen_proof on a consistent tree emits 64 characters per level |
| Merkle.SimpleProofVerifies | src/merkle.hpp:58-66 | the siblings gen_proof emits fold back to the root record |
| Merkle.SimpleRoundTrip | src/merkle.hpp:48-66 | after update(pos, value), verify_proof of gen_proof(pos) with value ends at the new digest |
| Merkle.SimpleGenConsistent | src/merkle.hpp:14-46 | init's gen_node produces a consistent tree whose root is the hash tree of the values |
| Merkle.MerkleSimple.constructor | src/mem_checker.hpp:24-28 | a tree of height h has 2^h leaves, an empty store and an empty digest |
| Merkle.MerkleSimple.GenNode | src/merkle.hpp:14-25 | gen_node returns the node whose hash is the record of id and writes exactly the records of id's subtree |
| Merkle.MerkleSimple.Init | src/merkle.hpp:33-46 | init fails when the store does not open; with create_db it writes the whole tree and the digest is the root's hash; otherwise it keeps the digest (the record under "1" is never written) |
| Merkle.MerkleSimple.ModifyParent | src/merkle.hpp:73-78 | modify_parent writes the hash of the pair in sibling order at id/2 and hands it on |
| Merkle.MerkleSimple.Update | src/merkle.hpp:48-56 | update is SimpleUpdated and keeps the tree consistent |
| Merkle.MerkleSimple.GenProof | src/merkle.hpp:58-72 | gen_proof emits the siblings from the leaf to the root |
| Merkle.MerkleSimple.VerifyProof | src/mem_checker.hpp:32-40 | verify_proof as MemChecker.VerifyProof, against this tree's digest |
| Merkle.MerkleSimple.UpdateThenVerify | src/merkle.hpp:48-66 | on a consistent tree, updating then verifying the fresh proof is accepted |
| Merkle.ChildUpdateSound | src/merkle.hpp:48-56 | MerkleChild update succeeds on a consistent tree, keeps it consistent, stores the value, and its digest is the new root hash |
| Merkle.ChildProofVerifies | src/merkle.hpp:58-66 | the sibling hashes gen_proof cuts from the parent records fold back to the root hash |
| Merkle.ChildProofLength | src/merkle.hpp:58-66 | gen_proof emits 64 characters per level |
| Merkle.ChildRoundTrip | src/merkle.hpp:48-66 | after update(pos, value), verify_proof of gen_proof(pos) with value ends at the new digest |
| Merkle.ChildGenConsistent | src/merkle.hpp:14-46 | init's gen_node produces a consistent NodeChild tree whose root hash is the hash tree of the values |
| Merkle.MerkleChild.constructor | src/mem_checker.hpp:24-28 | a tree of height h has 2^h leaves, an empty store and an empty digest |
| Merkle.MerkleChild.GenNode | src/merkle.hpp:14-25 | gen_node returns a well-formed node whose hash is the hash tree below id and writes exactly id's subtree |
| Merkle.MerkleChild.Init | src/merkle.hpp:33-46 | as MerkleSimple.Init, with NodeChild records; the tree is consistent when the values are 64 characters long |
| Merkle.MerkleChild.ModifyParent | src/merkle.hpp:91-97 | modify_parent fails when substr/replace would throw; otherwise it writes hash+pair with the key in id's slot and returns the hash |
| Merkle.MerkleChild.Update | src/merkle.hpp:48-56 | update is ChildUpdated; on a consistent tree it succeeds and keeps the tree consistent |
| Merkle.MerkleChild.GenProof | src/merkle.hpp:87-90 | gen_proof is ChildProof: the sibling slot of each parent record from the leaf up |
| Merkle.MerkleChild.VerifyProof | src/mem_checker.hpp:32-40 | verify_proof against this tree's digest |
| Merkle.MerkleChild.UpdateThenVerify | src/merkle.hpp:48-66 | on a consistent tree, updating then verifying the fresh proof is accepted |
| FatTrees.Parse | src/fattree.hpp:22-44 | the NodeFat read constructor gives a node with the key it was read under, a root exactly for "*", and sixteen keys and hashes for a branch; a record it would read past the end of is an error |
| FatTrees.ParsePrinted | src/fattree.hpp:22-55 | reading back what to_string wrote gives the same node |
| FatTrees.OfWhich | src/fattree.hpp:68-70 | ofWhich picks one of the sixteen slots |
| FatTrees.IsPrefixChild | src/fattree.hpp:71-73 | isPrefixChild holds exactly when the child's key is a prefix of k |
| FatTrees.KeysApart | src/fattree.hpp:105-159 | two nodes met on the way down to one key at different depths have different record keys |
| FatTrees.SplitBranch | src/fattree.hpp:135-156 | the branch update builds for a diverging child sits at the common prefix, holds the new leaf and the old child in two different slots with their hashes, and nothing else |
| FatTrees.CommonPrefixAtLeast | src/fattree.hpp:140 | strings that agree on their first n characters have a common prefix of at least n |
| FatTrees.Descend | src/fattree.hpp:105-159 | the descent loop of update reaches the slot where the leaf goes without the 42-step guard firing when keys have at most 42 digits, and every node it passes is on record |
| FatTrees.Place | src/fattree.hpp:122-134 | an empty or matching slot gets the new leaf; the store stays sound and only keys that are prefixes of hex change |
| FatTrees.PlaceSplit | src/fattree.hpp:135-157 | a diverging slot gets a new branch holding the leaf and the old child; the store stays sound and only prefixes of hex change |
| FatTrees.PlaceTop | src/fattree.hpp:122-157 | the three cases of the bottom of update leave a ladder of nodes ready to be rehashed |
| FatTrees.Rehash | src/fattree.hpp:160-166 | the bottom-up loop writes each node passed with the hash coming up, leaving a sound store and a path from the root to the leaf whose hash is returned |
| FatTrees.Attach | src/fattree.hpp:122-166 | the leaf and the rehashed path are written: the root is a branch whose hash is the new digest, the leaf's record is "!" + value, and only the root and prefixes of hex change |
| FatTrees.ChainFolds | src/fattree.hpp:202-223 | the levels of a path fold, as verify_proof folds them, from the leaf's hash to the root's hash |
| FatTrees.Walk | src/fattree.hpp:169-200 | gen_proof's walk records, root first, the selector and the sixteen hashes of each level |
| FatTrees.WalkProof | src/fattree.hpp:175-199 | gen_proof's loop (at most 41 levels) emits the text of the walk from "*" |
| FatTrees.Visit | src/fattree.hpp:179-198 | one pass of that loop either ends the walk with its text or hands on the next record to read |
| FatTrees.PathWalks | src/fattree.hpp:169-200 | on a sound store, gen_proof of a stored key emits exactly the levels of the path to it |
| FatTrees.PathFolds | src/fattree.hpp:202-223 | the proof of a path is accepted by verify_proof, and also by the checked verifier |
| FatTrees.PathProves | src/fattree.hpp:169-223 | gen_proof of a stored key returns the path's proof and verify_proof accepts it against the root's hash |
| FatTrees.EmptyRootStored | src/fattree.hpp:90-103 | the root init writes is a sound store, a branch, and hashes to the hash of "" |
| FatTrees.FatTree.constructor | src/fattree.hpp:85-88 | a new tree has the given height, an empty digest and an empty store |
| FatTrees.FatTree.Init | src/fattree.hpp:90-103 | init fails when the store does not open; with create_db it writes the empty root and the digest is the hash of ""; otherwise nothing changes |
| FatTrees.FatTree.Update | src/fattree.hpp:105-167 | update keeps the tree sound, cannot fail for keys of at most 42 digits, stores "!" + value under hex, touches only "*" and prefixes of hex, and leaves a path from the root to the leaf |
| FatTrees.FatTree.GenProof | src/fattree.hpp:169-200 | gen_proof returns "?" for a key with no record and otherwise the walk's text |
| FatTrees.FatTree.VerifyProof | src/fattree.hpp:202-223 | verify_proof is the shared 16-ary verifier against this tree's digest |
| FatTrees.FatTree.UpdatedKeyVerifies | src/fattree.hpp:105-223 | right after update(hex, value), gen_proof(hex) succeeds and verify_proof accepts it with value |
| FatMints.Blanks | src/fattree.hpp:492-494 | the read constructor pads a branch with empty hashes up to sixteen |
| FatMints.Chunks | src/fattree.hpp:489-491 | a branch record is cut into 64-character pieces (the last may be shorter) that concatenate back to the record |
| FatMints.Parse | src/fattree.hpp:479-496 | NodeFatMint's read constructor keeps the key, is the root exactly for "*", gives a leaf exactly for a record starting with '!', and a branch with at least sixteen hashes |
| FatMints.ParsePrinted | src/fattree.hpp:479-505 | reading back what to_string wrote gives the same node, for a branch whose non-empty hashes are digests packed at the front |
| FatMints.Lead | src/fattree.hpp:497-505 | the number of leading non-empty slots, the only ones to_string's concatenation lets the reader recover |
| FatMints.HexInjective | src/fattree.hpp:555 | two index strings of the same length with the same value are equal |
| FatMints.HexSplit | src/fattree.hpp:572 | the value of an index splits into the digits read so far (val) and the rest |
| FatMints.StopFrom | src/fattree.hpp:620-638 | the level where gen_proof stops exists, is at or below p, and is where the index is alone |
| FatMints.Filled | src/fattree.hpp:573-596 | how many slots of a branch are filled for a given number of leaves |
| FatMints.WalkStep | src/fattree.hpp:569-598 | one step of update's descent either places the leaf, splits, or moves down one level with the invariant kept |
| FatMints.DescendStep | src/fattree.hpp:571-580 | the two tests of one descent step, with val updated as in the source |
| FatMints.Descend | src/fattree.hpp:561-598 | the descent loop stops where the index is alone or splits, and the stack holds the records read along the way |
| FatMints.Plant | src/fattree.hpp:573-596 | the leaf, and in the split case the two-slot branch holding the old sibling and the new leaf, are written and their hash handed up |
| FatMints.RehashOne | src/fattree.hpp:599-604 | one pass of the bottom-up loop writes one branch with the hash coming up |
| FatMints.Rehash | src/fattree.hpp:599-605 | the bottom-up loop writes the route's branches and returns the hash of the root |
| FatMints.Placed | src/fattree.hpp:550-606 | what update writes keeps every branch well formed and shaped for the leaf count, and forms a path from the root to the leaf |
| FatMints.Place | src/fattree.hpp:561-605 | update after the index is known: the store stays well formed, the leaf record is "!" + value, a path leads from the root to it and only that path changes |
| FatMints.LevelsTo | src/fattree.hpp:620-638 | the levels gen_proof reads on the way down, one per digit |
| FatMints.VisitProof | src/fattree.hpp:621-637 | one pass of gen_proof's loop appends one level and stops exactly where the index is alone |
| FatMints.WalkProof | src/fattree.hpp:614-639 | gen_proof's loop emits the levels from the root down to where the index is alone |
| FatMints.PathFolds | src/fattree.hpp:620-638 | the levels gen_proof reads are the route's levels, and each folds to its parent's hash |
| FatMints.FoldsToRoot | src/fattree.hpp:642-663 | verify_proof's fold over the route's levels goes from the leaf's hash to the root's hash |
| FatMints.UpdatedVerifies | src/fattree.hpp:550-663 | after update(spos, value), gen_proof(spos) is accepted by verify_proof with value against the new digest |
| FatMints.UpdateDone | src/fattree.hpp:550-606 | the state update leaves is the one UpdatedVerifies starts from |
| FatMints.EmptyStore | src/fattree.hpp:535-548 | the root init writes is a well-formed empty tree hashing to the hash of "" |
| FatMints.FatMint.constructor | src/fattree.hpp:529-533 | a new tree has the given height, no leaves, an empty digest and an empty store |
| FatMints.FatMint.Init | src/fattree.hpp:535-548 | init fails when the store does not open; with create_db it writes the empty root and the digest is the hash of ""; otherwise nothing changes |
| FatMints.FatMint.TakeIndex | src/fattree.hpp:551-559 | a known key keeps its index; a new key gets int_to_hex(num_leaf, height), stored under "?" + key, and num_leaf grows by one |
| FatMints.FatMint.Update | src/fattree.hpp:550-606 | update keeps the tree valid, the index record is kept or added as above, the digest is the root's hash, and only the index's path changes |
| FatMints.FatMint.GenProof | src/fattree.hpp:608-640 | gen_proof returns "?" for a key without an index, otherwise the levels down to where the index is alone |
| FatMints.FatMint.VerifyProof | src/fattree.hpp:642-663 | verify_proof is the shared 16-ary verifier against this tree's digest |
| Proof16.Selector | src/rattree.hpp:238 | the selector character '0' + which reads back, by proof[i] - '0', as which |
| Proof16.VerifyProof | src/rattree.hpp:250-271 | the loop of verify_proof (shared word for word by FatTree, FatMint and the RatTree family) computes Verify: accept a proof starting with '?', otherwise fold the records from the last to the first and compare with the digest |
| Proof16.Reassemble | src/rattree.hpp:257-267 | the inner loop rebuilds the sixteen-slot concatenation: the key in the selected slot, each sibling's 64 characters unless it starts with '@' |
| Proof16.Entries | src/rattree.hpp:241 | each slot is emitted as its hash, or null64 when empty |
| Proof16.FoldLevelsPrepend | src/rattree.hpp:250-271 | folding a path is folding the rest and then hashing the first level around the result |
| Proof16.SiblingsLength | src/rattree.hpp:239-243 | a level's fifteen siblings take 64 characters each |
| Proof16.ProofRecordLength | src/rattree.hpp:238-243 | each record gen_proof emits is 1 + 15*64 characters, the stride verify_proof steps by |
| Proof16.PathProofLength | src/rattree.hpp:220-247 | a proof is one record per level |
| Proof16.EmitRecord | src/rattree.hpp:238-243 | the emitting loop writes the selector and the fifteen sibling entries of one level |
| Proof16.RebuildRecord | src/rattree.hpp:257-267 | reading a record back gives the level's slots with the key in the selected one |
| Proof16.FoldRecord | src/rattree.hpp:254-269 | one pass of verify_proof's outer loop over a record hashes the level around the key |
| Proof16.FoldPath | src/rattree.hpp:254-269 | verify_proof's loop over the text of a path computes the fold of its levels |
| Proof16.FoldWhole | src/rattree.hpp:254-269 | the same for exactly the text gen_proof emits |
| Proof16.VerifyPathComplete | src/rattree.hpp:214-271 | verify_proof accepts the text of any path whose levels fold from the value's hash to the digest |
| Proof16.SelectorFifteen | src/rattree.hpp:251 | the selector of slot 15 is the character '?' |
| Proof16.SlotFifteenUnchecked | src/rattree.hpp:251-252 | as written, a proof whose first record selects slot 15 is accepted against a digest it does not fold to |
| Proof16.CheckedIsSound | src/rattree.hpp:250-271 | the corrected verifier accepts a proof other than "?" only when it folds to the digest |
| Proof16.CheckedPathComplete | src/rattree.hpp:214-271 | the corrected verifier still accepts every path that folds to the digest |
| Proof16.CheckedImpliesWritten | src/rattree.hpp:250-271 | the corrected verifier accepts nothing the written one rejects |
| RatTree.Find | src/rattree.hpp:43-44 | the scan for a separator stops at the first one from `from`, or at the end |
| RatTree.FieldsFrom | src/rattree.hpp:41-47 | the field loop yields exactly n fields when it stays inside the record |
| RatTree.SplitFields | src/rattree.hpp:41-47 | the loop that cuts sixteen comma-separated hashes computes FieldsFrom(v, 0, 16) |
| RatTree.Parse | src/rattree.hpp:26-50 | NodeRat's read constructor keeps the key as the node's hash, leaves every slot unlinked, gives a prefix without '\|' and sixteen hashes for a branch; reading past the record is an error |
| RatTree.ParseMissing | src/rattree.hpp:26-47 | reading a key with no record is an error: the record is "", the reader takes the empty string for a branch, and the second field's v.substr(1, 0) is past its end and throws out_of_range |
| RatTree.ParsePrinted | src/rattree.hpp:26-62 | reading back what to_string wrote gives the same prefix, kind, value and hashes |
| RatTree.HashPrinted | src/rattree.hpp:26-71 | a record read back hashes like the node that wrote it |
| RatTree.OfWhich | src/rattree.hpp:77-79 | ofWhich picks one of the sixteen slots |
| RatTree.WriteSealed | src/rattree.hpp:95-96 | writing a node under its own hash keeps every record stored under the hash of what it holds |
| RatTree.SplitBranch | src/rattree.hpp:153-167 | the branch commit builds for a diverging child has the common prefix of the two keys, no hashes, and the new leaf linked in hex's slot |
| RatTree.PlaceStep | src/rattree.hpp:143-205 | one pass of commit's inner loop stops with a well-formed arena at least as long, or moves to a node of the arena |
| RatTree.PlaceStaged | src/rattree.hpp:146-170 | the branch for a slot already linked in the arena: overwrite, split or go down |
| RatTree.PlaceUnstaged | src/rattree.hpp:171-205 | the branch for a slot not linked: new leaf, or read the child record |
| RatTree.PlaceRead | src/rattree.hpp:178-204 | after reading the child: overwrite, split or go down |
| RatTree.StagedKeeps | src/rattree.hpp:146-170 | the linked-slot cases keep the arena acyclic and every slot's record stored |
| RatTree.DescendKeeps | src/rattree.hpp:137-206 | commit's inner loop, when it does not throw, keeps the arena acyclic and staged |
| RatTree.Walk | src/rattree.hpp:224-246 | gen_proof's walk, bounded by the key's length, records the levels it passes |
| RatTree.WalkFound | src/rattree.hpp:224-246 | a walk that finds the key read the record at key, and either stopped there or passed one level and went on from the selected hash |
| RatTree.WalkFolds | src/rattree.hpp:224-271 | in a store where every record sits under its own hash, the levels of a found leaf fold from the value's hash to the key the walk started at |
| RatTree.WalkSealed | src/rattree.hpp:224-246 | in such a store, the first level of a walk hashes to the key it started at |
| RatTree.WalkProof | src/rattree.hpp:214-248 | gen_proof's loop emits the text of the walk from the digest, "?" for a key that is not there |
| RatTree.Visit | src/rattree.hpp:225-245 | one pass of that loop ends the walk with its text or hands on the next key to read |
| RatTree.GenProofVerifies | src/rattree.hpp:214-271 | whatever leaf gen_proof reaches, its proof is accepted for that leaf's value, by verify_proof and by the checked verifier |
| RatTree.EmptyRootSealed | src/rattree.hpp:111-124 | the empty root init writes is stored under its own hash |
| RatLookup.LookKept | src/rattree.hpp:224-246 | adding records leaves what every key reads as unchanged |
| RatLookup.SplitPoint | src/rattree.hpp:152-167 | the split branch's prefix lies strictly between the parent's prefix and both keys, and the two keys take different slots under it |
| RatLookup.LeafPlaced | src/rattree.hpp:172-176 | an empty slot gets the new leaf, after which the key reads as the value |
| RatLookup.StagedValuePlaced | src/rattree.hpp:146-150 | a staged leaf for the same key takes the new value; afterwards the key reads as the value and every other key as before |
| RatLookup.StagedSplitShape | src/rattree.hpp:152-168 | a split of a staged child adds exactly the new leaf and one branch at the common prefix, which links the new leaf and the old child, and the parent's slot is repointed at the branch |
| RatLookup.StagedSplitPlaced | src/rattree.hpp:152-168 | after that split the key reads as the value and every other key as before |
| RatLookup.ReadValuePlaced | src/rattree.hpp:178-184 | a persisted leaf for the same key is replaced by a staged copy holding the new value |
| RatLookup.ReadSplitShape | src/rattree.hpp:185-201 | a split of a persisted child adds exactly the new leaf and one branch at the common prefix, which keeps the old child by its hash, and the parent's slot is repointed at the branch |
| RatLookup.ReadSplitPlaced | src/rattree.hpp:185-201 | after that split the key reads as the value and every other key as before |
| RatLookup.StepPlaces | src/rattree.hpp:143-205 | each pass of commit's inner loop either places the pair (the key now reads as the value, every other key as before) or descends to a node with a longer prefix on the key's way |
| RatLookup.DescendPlaces | src/rattree.hpp:137-206 | for keys of at most 41 digits the inner loop never throws and places the pair |
| RatLookup.WalkSees | src/rattree.hpp:224-246 | gen_proof's walk finds exactly what the key reads as: missing, a leaf with that value, or a branch |
| RatLookup.GenProofSees | src/rattree.hpp:214-248 | the same from the digest, with gen_proof's own bound of |k|+1 records never reached |
| RatLookup.HeldVerifies | src/rattree.hpp:214-271 | a key that reads as a value has a proof gen_proof emits and verify_proof accepts with that value |
| RatLookup.Latest | src/rattree.hpp:134-207 | the value of the last pending update of a key, none when it has no pending update |
| RatLookup.EmptyRootTidy | src/rattree.hpp:117-120 | the store init writes is a trie rooted at the hash of "" |
| RatLookup.RootStack | src/rattree.hpp:132-133 | commit's stack starts as the root read from the digest and every key reads as in the store |
| RatLookup.PlaceKeeps | src/rattree.hpp:134-207 | placing one more pending pair keeps the arena a trie, and afterwards every key reads as its latest pending value, or as before when it has none |
| RatLookup.WritePreserves | src/rattree.hpp:95-96 | _compute's write of a settled node, when it does not overwrite a different record, keeps every stored record and what every key reads as |
| RatLookup.UnlinkPreserves | src/rattree.hpp:88-92 | replacing a link by the settled child's hash keeps what every key reads as |
| RatLookup.SettledRoot | src/rattree.hpp:208-210 | after _compute, the new digest names a trie in which every 40-digit key reads as its latest pending value, or as it read before commit |
| RatLookup.CommittedVerifies | src/rattree.hpp:130-271 | in such a store, gen_proof of a committed key succeeds and verify_proof accepts it with the committed value |
| RatLookup.GrownKeeps | src/rattree.hpp:95-96 | adding records does not change what the arena says about any key |
| RatLookup.SettledLook | src/rattree.hpp:84-97 | once a node is written and unlinked, reading from its record agrees with reading from the arena |
| RatLookup.TrieGrown | src/rattree.hpp:95-96 | adding records keeps the arena a trie |
| RatTrees.RatTree.constructor | src/rattree.hpp:106-109 | a new tree has the given height, an empty digest, store and pending list |
| RatTrees.RatTree.Init | src/rattree.hpp:111-124 | init fails when the store does not open; with create_db the digest is the hash of "" and the empty root is stored under it, and the tree is tidy, the state commit's contents clause starts from |
| RatTrees.RatTree.Update | src/rattree.hpp:126-128 | update appends the pair to the pending list |
| RatTrees.RatTree.Place | src/rattree.hpp:137-206 | the inner loop of commit for one pair is Descend |
| RatTrees.RatTree.PlaceAll | src/rattree.hpp:132-207 | commit's outer loop places every pending pair; from a tidy store it never throws and every key reads as its latest pending value |
| RatTrees.RatTree.Compute | src/rattree.hpp:84-97 | _compute settles a node: its subtree is written under hashes, the node is unlinked, and (unless a record was overwritten) every key reads as before |
| RatTrees.RatTree.ComputeChildren | src/rattree.hpp:86-94 | the slot loop of _compute settles every linked child and keeps the other slots |
| RatTrees.RatTree.ComputeSlot | src/rattree.hpp:88-92 | one linked slot: the child is settled and its hash replaces the link |
| RatTrees.RatTree.Write | src/rattree.hpp:95-96 | the node is stored under its hash; `overwrote` records whether a different record was under that key |
| RatTrees.RatTree.Commit | src/rattree.hpp:130-212 | commit clears the pending list and the digest names a stored root that hashes to it; on an error nothing changes; from a tidy store it succeeds and (unless a record was overwritten) every key reads as its latest pending value, or as before |
| RatTrees.RatTree.GenProof | src/rattree.hpp:214-248 | gen_proof is the text of the walk from the digest |
| RatTrees.RatTree.VerifyProof | src/rattree.hpp:250-271 | verify_proof is the shared 16-ary verifier against this tree's digest |
| RatVersioned.Pad | src/rattree.hpp:1029-1031 | RatPadding pads every key it writes with '&' up to 64 characters and keeps the key as its prefix; the other two tries use keys unchanged |
| RatVersioned.StrVerValue | src/tools.cpp:149-161 | int_to_hex(version) is upper-case hex, least significant digit first, whose value is the version |
| RatVersioned.TagOfKey | src/rattree.hpp:356-362 | a key built from a '-'-free prefix and a version names exactly that version |
| RatVersioned.TagsApart | src/rattree.hpp:416-417 | keys naming different versions are different keys, so a commit never overwrites a record of an earlier version |
| RatVersioned.OfWhich | src/rattree.hpp:349-351 | ofWhich always selects one of the 16 slots |
| RatVersioned.IsPrefixChild | src/rattree.hpp:352-355 | isPrefixChild holds exactly when the slot key's prefix (before its '-') is a prefix of the searched key |
| RatVersioned.ChangeVersion | src/rattree.hpp:356-362 | changeVersion replaces only the node's key, by its prefix, '-' and the new version (padded in RatPadding) |
| RatVersioned.ChangeVersionTag | src/rattree.hpp:356-362 | after changeVersion on a node read from its record, the key names the new version and keeps the old prefix |
| RatVersioned.Parse | src/rattree.hpp:302-325 | reading a record keeps the key, unlinks every slot, sets keyLen at the first '-' and isRoot from '*', gives a branch 16 keys and 16 hashes, and fails on records the loops would run past |
| RatVersioned.PairsOfJoin | src/rattree.hpp:313-323 | reading back 16 "key:hash" pairs joined with ',' gives the keys and hashes that were written |
| RatVersioned.ParsePrinted | src/rattree.hpp:302-336 | a record written by to_string reads back as the same leaf value or the same branch keys and hashes (and the same node hash in RatCompact and RatPadding) |
| RatVersioned.BranchHead | src/rattree.hpp:326-336 | a branch's record never starts with the leaf marker '!' where the reader looks for it |
| VersionedTree.SplitBranch | src/rattree.hpp:445-467 | the branch inserted at a divergence is keyed by the common prefix at the new version, holds the new leaf and the old child, and links only the new leaf |
| VersionedTree.PlaceStep | src/rattree.hpp:428-491 | one step of commit's inner loop either places the pair (the arena stays well formed and only grows) or descends to a linked child |
| VersionedTree.AddLeaf | src/rattree.hpp:428-433 | an empty slot takes the new leaf named at the new version and the arena stays well formed |
| VersionedTree.DescendKeeps | src/rattree.hpp:422-494 | commit's inner loop keeps the node arena acyclic, every staged node named at the new version, and every node's key |
| VersionedTree.Persist | src/rattree.hpp:499-500 | a commit keeps every record of earlier versions and only adds records of the new version |
| VersionedTree.InitPrinted | src/rattree.hpp:400 | init's record for a new database is the printed form of the empty root |
| VersionedTree.InitRootReads | src/rattree.hpp:400-402 | init's record reads back as the empty root, whose hash is the digest init sets |
| VersionedTree.InitDigest | src/rattree.hpp:402 | the empty root stands for the hash of the empty string |
| VersionedTree.Walk | src/rattree.hpp:520-540 | a walk that reaches the key has chosen at each level a slot whose key prefixes the searched key |
| VersionedTree.WalkMissing | src/rattree.hpp:523-525 | a walk that meets an empty or diverging slot ends with "?" |
| VersionedTree.WalkLast | src/rattree.hpp:535-537 | a walk that meets the key's own leaf slot ends there with that level |
| VersionedTree.WalkDown | src/rattree.hpp:535-539 | otherwise the walk emits this level and goes on from the slot's key |
| VersionedTree.RungsArePath | src/rattree.hpp:526-534 | the text gen_proof emits for a walk is the proof of the levels it walked |
| VersionedTree.WalkVerifies | src/rattree.hpp:545-566 | verify_proof accepts the text gen_proof emits whenever the walked levels fold from the value's hash to the digest |
| VersionedTree.WalkProof | src/rattree.hpp:512-543 | gen_proof's loop returns exactly the text of the bounded walk from the given root key |
| VersionedRats.VersionedRat.constructor | src/rattree.hpp:389-392 | a new trie has no digest, no records, no pending pairs and version 0 |
| VersionedRats.VersionedRat.Init | src/rattree.hpp:394-407 | init fails exactly when the database does not open; with a new database it writes the empty root under the key of version 0 and sets the digest to the hash of the empty string, which that root stands for, so the object is sound (a tidy store whose current root stands for the digest) |
| VersionedRats.VersionedRat.Update | src/rattree.hpp:409-411 | update only appends the pair to the pending list; a 40-digit hex key keeps the object sound |
| VersionedRats.VersionedRat.Place | src/rattree.hpp:425-501 | one pair's inner loop is the descent function applied to the current arena |
| VersionedRats.VersionedRat.Commit | src/rattree.hpp:413-510 | commit bumps the version when the old root reads; on failure nothing is stored; on success the pending list is empty, old records are kept, new records name the new version, and the digest is the new root's hash. From a sound object commit succeeds, stays sound, and the new root reads every 40-digit key as the last pending pair for it says, or as the previous root read it when no pair names it |
| VersionedRats.VersionedRat.CommitFrom | src/rattree.hpp:416-510 | the same promises once the old root has been read |
| VersionedRats.VersionedRat.NextVersion | src/rattree.hpp:416-417 | ++version and strver = int_to_hex(version) leave every stored record named at an earlier version |
| VersionedRats.VersionedRat.PlaceAll | src/rattree.hpp:420-504 | the outer loop over pending pairs keeps the arena acyclic, named at the new version, and every node's key; from a tidy start it is never cut off and the arena reads every key as the last pair for it says, or as the old root read it |
| VersionedRats.VersionedRat.Finish | src/rattree.hpp:505-509 | the end of commit stores the new root's record, clears the list and sets the digest to the new root's hash; from a tidy arena the object is sound and the new root reads the committed pairs |
| VersionedRats.VersionedRat.Flush | src/rattree.hpp:505-508 | _compute from the root keeps every earlier record and writes the new root's record; from a tidy arena that record reads every key as the arena did and stands for the hash that becomes the digest |
| VersionedRats.VersionedRat.Compute | src/rattree.hpp:366-378 | _compute writes a node's record after its linked children's, leaves every earlier record and every unreached node alone, and settles the node's hashes; on a tidy arena the store stays tidy, no key reads differently, and the node's record stands for its hash |
| VersionedRats.VersionedRat.ComputeChildren | src/rattree.hpp:369-375 | the loop over the 16 slots unlinks every slot, gives each linked slot its child's hash and keeps the others; on a tidy arena every slot then agrees with the record under its key |
| VersionedRats.VersionedRat.ComputeSlot | src/rattree.hpp:370-374 | one slot: the child is computed, the slot takes its hash and is unlinked; nothing else in the node changes |
| VersionedRats.VersionedRat.Write | src/rattree.hpp:346-348 | write stores the node's record under its key and nothing else, and the key names the version being written |
| VersionedRats.VersionedRat.GenProof | src/rattree.hpp:512-543 | gen_proof is the walk from the current version's root key, bounded by the key length |
| VersionedRats.VersionedRat.VerifyProof | src/rattree.hpp:545-566 | verify_proof is the same check as the other 16-ary proofs, against the current digest |
| VersionedRats.VersionedRat.SoundVerifies | src/rattree.hpp:512-566 | while the object is sound, gen_proof for a 40-digit key the current version reads as value finds a proof within its bound, and verify_proof accepts it for value against the digest |
| VersionedSeal.ChildDigestIs | src/rattree.hpp:533 | every record of a tidy store stands for a 64-character digest, never the null64 marker gen_proof writes for an empty slot |
| VersionedSeal.PieceIsDigest | src/rattree.hpp:834-837 | the piece RatCompact and RatPadding read from a child's record is what that child stands for |
| VersionedSeal.RungFacts | src/rattree.hpp:530-535 | the level gen_proof emits at a stored branch is well formed, its entries are the branch's other slots, the walked slot stands for the child there, and the level hashes to what the branch stands for |
| VersionedSeal.WalkStep | src/rattree.hpp:522-540 | at a stored branch on the way to a key the trie holds, the key's slot names a stored child whose prefix prefixes the key, and the walk stops there exactly when that child is the key's leaf |
| VersionedSeal.StopAtLeaf | src/rattree.hpp:537-538 | the walk stops at the branch whose slot holds the leaf, with one level that folds the value's hash to what the branch stands for |
| VersionedSeal.StepDown | src/rattree.hpp:540 | otherwise the walk goes on from the child branch's record |
| VersionedSeal.WalkFolds | src/rattree.hpp:521-541 | with enough records to read, the walk from a stored branch to a key the trie holds as value finds the key, and its levels fold from the hash of value to what the branch stands for |
| VersionedStage.HeldVerifies | src/rattree.hpp:512-566 | over a tidy store, a key the trie under a root key reads as value has a proof gen_proof finds within its bound, and verify_proof accepts it for value against what the root stands for |
| VersionedStage.CommittedVerifies | src/rattree.hpp:413-566 | after a commit, a key that the last pending pair for it gave value, or that held value before and no pair named, has a proof that verify_proof accepts against the new root |
| VersionedStage.RootStack | src/rattree.hpp:414-418 | the old root, read and renamed at the new version, is a one-node trie whose slots carry their children's hashes and which reads every key as the old root did |
| VersionedStage.PlaceKeeps | src/rattree.hpp:421-503 | the inner loop for one more pair is never cut off by its 40-pass guard, and afterwards the arena reads that key as the pair's value and every other key as before |
| VersionedStage.DescendStaged | src/rattree.hpp:425-501 | the inner loop keeps every unlinked slot of the arena carrying the hash of the record under its key |
| VersionedStage.StepStaged | src/rattree.hpp:430-500 | one pass of the inner loop keeps that agreement |
| VersionedStage.PlaceSplitStaged | src/rattree.hpp:489-493 | splitting below an unstaged child, the new branch's slot for the child takes the hash the parent's slot held, which agrees with the child's record |
| VersionedStage.SettledRoot | src/rattree.hpp:505-508 | once _compute has settled the root, the root's record reads every key as the arena did and stands for the root's hash, which becomes the digest |
| VersionedStage.WriteStep | src/rattree.hpp:377 | _compute's write of a hashed node under its fresh key keeps the store tidy, changes nothing stored and no walk, and the record reads back as the node and stands for its hash |
| VersionedStage.UnlinkStep | src/rattree.hpp:370-374 | a linked slot, once its child is written, takes the child's hash and drops the link; the store stays tidy, no walk changes, and the slot agrees with the child's record |
| VersionedStage.PieceStep | src/rattree.hpp:667-671 | an unlinked slot: RatPrefix keeps the hash it carries, RatCompact and RatPadding read the piece at the head of the child's record; either way the slot agrees with that record |
| VersionedStage.InitTidy | src/rattree.hpp:399-402 | the store init writes is tidy, rooted at the key of version 0, and that root stands for the hash of the empty string |
| VersionedStage.NoneNamed | src/rattree.hpp:416-417 | no stored record names the version commit moves to, so every key _compute writes is fresh |
| VersionedLookup.KeyStarts | src/rattree.hpp:440 | a record key whose prefix is no longer than the searched key starts with that key (commit's is_prefix test) exactly when its prefix is that key |
| VersionedLookup.LookKept | src/rattree.hpp:496 | records added to a store of trie records change no key's reading from a node of the trie |
| VersionedLookup.SplitPoint | src/rattree.hpp:448 | the common prefix a split puts in is longer than the branch's prefix, lies in the same slot, and is where the key and the child's prefix part |
| VersionedLookup.Relinked | src/rattree.hpp:462-463 | relinking a branch's slot to a node changes only the keys routed through that slot, which then read as from the node |
| VersionedLookup.LinkPlaced | src/rattree.hpp:432-436 | relinking the key's slot of the branch on its way to a node where it reads as the value, with every other key routed there reading as before, places the pair |
| VersionedLookup.StagedValuePlaced | src/rattree.hpp:440-443 | a staged child whose key starts with the searched key is its leaf, and takes the value |
| VersionedLookup.StagedDown | src/rattree.hpp:466 | a staged child whose prefix the key extends is where the walk goes on, one node deeper |
| VersionedLookup.StagedSplitSees | src/rattree.hpp:444-465 | the branch a staged split puts in reads the key as the new leaf and every other key as the split-off child did |
| VersionedLookup.StagedSplitPlaced | src/rattree.hpp:444-465 | a staged child whose prefix the key does not extend is split off under a new branch at the common prefix beside a new leaf, and the pair is placed |
| VersionedLookup.ReadOf | src/rattree.hpp:468-496 | an unlinked non-empty slot of a staged branch names a stored record that is a node of the trie extending the branch in that slot |
| VersionedLookup.LeafPlaced | src/rattree.hpp:469-474 | an empty slot, or one naming the key's own stored leaf, takes a new leaf for the key, and the pair is placed |
| VersionedLookup.ReadSplitSees | src/rattree.hpp:475-495 | the branch a split of a stored child puts in reads the key as the new leaf, a key in the child's slot as the child's record does, and every other key as absent |
| VersionedLookup.ReadSplitPlaced | src/rattree.hpp:475-495 | a stored child whose prefix the key does not extend is split off under a new branch that names it beside a new leaf, and the pair is placed |
| VersionedLookup.Renamed | src/rattree.hpp:496-498 | a stored node renamed at the new version keeps its prefix, its slots and what every key reads as below it |
| VersionedLookup.ReadDown | src/rattree.hpp:496-500 | a stored child whose prefix the key extends is staged at the new version and linked, and the walk goes on from it, every key reading as before |
| VersionedLookup.StepPlaces | src/rattree.hpp:430-500 | one pass of the inner loop at a branch on the key's way either places the pair or goes one node deeper, every key reading as before |
| VersionedLookup.DescendPlaces | src/rattree.hpp:425-503 | the inner loop from a branch on the key's way places the pair without reaching the 40-pass guard, for keys of at most 41 digits |
| SparseProofs.StepRecord | src/sparse.hpp:180-185 | each level of a sparse proof is the side digit followed by one 64-character sibling entry |
| SparseProofs.PathProofLength | src/sparse.hpp:175-192 | a sparse proof is 65 characters per level |
| SparseProofs.ReadStep | src/sparse.hpp:200-204 | verify_proof reads one 65-character record back as its side and its sibling and combines in that order |
| SparseProofs.FoldPath | src/sparse.hpp:200-205 | verify_proof's loop, from the last record back, folds exactly the path's steps |
| SparseProofs.VerifyPathComplete | src/sparse.hpp:197-208 | verify_proof accepts the proof of any path whose fold from the value's hash reaches the digest |
| SparseProofs.VerifyProof | src/sparse.hpp:197-208 | verify_proof's loop accepts exactly when Verify does: a leading '?', or the 65-character records folded from the end reach the digest |
| SparseProofs.FoldStepsPrepend | src/sparse.hpp:200-204 | folding a path whose first step is s folds the rest first, then s |
| SparseProofs.PathProofAppend | src/sparse.hpp:181-185 | emitting one more record extends the proof by exactly that step's record |
| DupTrees.DupTree.GenProof | src/duptree.hpp:92-102 | gen_proof returns the low siblings read from the records below the boundary, then the copies kept on the boundary; while the records hold the tree over values, verify_proof accepts it with the leaf's value against the digest |
| DupTrees.LowLoop | src/duptree.hpp:95-99 | the loop below the boundary reads each sibling's record and stops at the first id above the boundary |
| DupTrees.GetHigh | src/duptree.hpp:109-115 | get_high returns the copies of the siblings above the boundary for a boundary node (DupTreeSimple reads one per level, DupTreeBlock the whole record) |
| DupTrees.LowChunks | src/duptree.hpp:95-99 | the records read below the boundary are exactly the sibling hashes on the path |
| DupTrees.HighChunks | src/duptree.hpp:140-144 | what get_high returns is exactly the sibling hashes from the boundary node up to the root |
| DupTrees.DupProofIsPath | src/duptree.hpp:92-102 | gen_proof's output is the sibling path of the leaf, whichever layout keeps the copies |
| DupTrees.DupProofVerifies | src/duptree.hpp:92-102 | when every record holds its node's hash and every copy is in place, the proof of a leaf verifies against the root hash |
| DupTrees.PathVerifies | src/mem_checker.hpp:32-40 | folding a node's sibling path from its hash reaches the root hash |
| DupTrees.ModifyAsWritten | src/duptree.hpp:131-139 | DupTreeBlock's modify_id_level as written: a first copy goes at offset (level-2)*64 of a fresh record |
| DupTrees.FirstCopyMisplaced | src/duptree.hpp:134 | with boundary height 3 the first copy written for level 3 lands in the level-2 slot and the level-3 slot stays zeros |
| DupTrees.Modify | src/duptree.hpp:131-139 | the corrected modify_id_level writes the copy at (height_boundary-level)*64 whether or not the record exists |
| DupTrees.ModifyPlacesCopy | src/duptree.hpp:140-144 | after the corrected write the level's slot holds the copy, the record keeps its length, and every other level's slot is unchanged |
| DupTrees.DupTree.constructor | src/duptree.hpp:42-45 | a new tree has the given height and boundary height, no records and an empty digest |
| DupTrees.DupTree.ModifyIdLevel | src/duptree.hpp:106-139 | modify_id_level: DupTreeSimple writes the copy under (id, level); DupTreeBlock rewrites id's record with the corrected splice, failing where std::string::replace throws |
| DupTrees.DupTree.ModifyRange | src/duptree.hpp:32-36 | the loop over up_to .. up_to_max writes the key as the level's copy on each of those boundary nodes and nothing else, keeps every record below the boundary, and on a well-shaped store succeeds |
| DupTrees.DupTree.GenNode | src/duptree.hpp:19-39 | gen_node returns a node whose hash is the subtree's Merkle hash over values; on a well-shaped store it writes exactly the subtree's records below the boundary and its copies on the boundary, with the corrected modify_id_level |
| DupTrees.DupTree.WriteOwn | src/duptree.hpp:28-37 | after both children: the node's own record at or below the boundary, else (the root excepted) its copies on the boundary nodes below its sibling |
| DupTrees.DupTree.Init | src/duptree.hpp:47-60 | init fails when the store does not open; with create_db the digest is the root hash over values, it is recorded under "1", and every record holds the tree over values (with the corrected modify_id_level); otherwise the digest is read from "1", which the opened store does not hold, so it keeps its value |
| DupTrees.DupTree.ReadSelf | src/duptree.hpp:116-151 | read_self gives the copies of levels hb .. 2: DupTreeSimple reads one record per level, DupTreeBlock cuts the node's record into 64-character pieces |
| DupTrees.DupTree.WriteLow | src/duptree.hpp:63-73 | update's first loop writes the leaf and each ancestor's record down to the boundary, folding in the sibling's record, and stops at the boundary node on the leaf's path |
| DupTrees.DupTree.Update | src/duptree.hpp:62-90 | on records holding the tree over values (a state reached with the corrected modify_id_level), update succeeds and leaves them holding the tree over values with leaf pos set to value, its root hash the digest |
| DupTrees.DupTree.WriteHigh | src/duptree.hpp:75-89 | update's loop over levels hb .. 2 rewrites each path node's copies and folds in the sibling copies read_self gave, ending with the new root hash; records below the boundary are kept |
| DupTrees.DupTree.WriteLevel | src/duptree.hpp:78-88 | one turn of that loop moves its state one level up the path: the level's copies hold the updated tree and the key is the parent's new hash |
| DupTrees.DupTree.StoredProofVerifies | src/duptree.hpp:92-102 | while the records hold the tree over values, gen_proof's output for a leaf verifies with its value against the digest |
| DupTrees.CopyRange | src/duptree.hpp:31-34 | the boundary nodes up_to(sibling) .. up_to_max(sibling) are exactly those whose copy of the node's level is meant to be the node's hash |
| DupTrees.BuiltStored | src/duptree.hpp:52-53 | gen_node(1, 1) from an empty store, with the corrected modify_id_level, leaves every record holding the tree over values |
| DupTrees.SelfsStored | src/duptree.hpp:145-151 | with the copies in place, read_self of a boundary node gives hb - 1 pieces, piece m the hash of the sibling of the node's ancestor m levels up |
| DupTrees.UpdateStored | src/duptree.hpp:62-90 | update's two loops and read_self, from records holding the tree over values, leave the records holding the updated tree, with the digest its root hash |
| DupTrees.HashOffPath | src/duptree.hpp:62-90 | changing one leaf changes only the hashes on its path to the root |
| DupPlus.ParentOfChild | src/duptree_plus.hpp:30 | the parent formula (id-2)/P+1 undoes the child formula (id-1)*P+2+i, and (c-2)%P gives back i |
| DupPlus.ChildOfParent | src/duptree_plus.hpp:74 | every block but the root is the ((id-2)%P)-th child of its parent, which has a smaller id |
| DupPlus.RouteClimbs | src/duptree_plus.hpp:74-81 | the blocks update and gen_proof visit climb parent by parent to block 1, and each local position is inside its block |
| DupPlus.GenProof | src/duptree_plus.hpp:85-97 | gen_proof joins each visited block's proof for its local position, from the leaf block up to block 1 |
| DupPlus.Update | src/duptree_plus.hpp:70-83 | update passes each block's new digest to its parent and the digest is block 1's |
| DupPlus.NumBlocksIsFirstLeafBlock | src/duptree_plus.hpp:42-48 | num_blocks is the id of the first leaf block, one more than the number of blocks above the leaf level |
| DupPlus.AboveGeometric | src/duptree_plus.hpp:43 | P^d - 1 is (P-1) times the number of blocks on the first d levels |
| DupPlus.Shape | src/duptree_plus.hpp:37-50 | the constructor sets P = 2^base_height and a positive leaf-block fan-out |

## Left out

- Tools.Hash: calculateSHA256Hash (SHA-256 through OpenSSL) is a parameter `H` of every tree; an answer that is not 64 lower-case hex characters is replaced by a string of 64 '0's, so every digest is well formed. Collision resistance is not modelled.
- `random_string` and `random_sample`: the random leaf values of the `gen_node` functions are parameters (`values`).
- The LevelDB calls (`DB::Open`, `DestroyDB`, `Write`, `Get`, write options) are an abstract map. IO.IOLevelDB.Open: whether the database opens is a parameter, and so is `dbOpened` for every `Init`.
- FatMints.FatMint.Update: integers are unbounded, so the 32-bit `int` shift `1 << (4 * (p + 1))` (src/fattree.hpp:573, 580) is modelled as the exact power 16^(p+1). In the source that shift is undefined at p = 7 (a shift by 32), and the loop reaches p = 7 once num_leaf exceeds 2^28, whatever the height; the model does not capture that. A new key requires `num_leaf < 16^height`, the bound under which `int_to_hex(num_leaf, height)` fits its buffer; that bound does not keep the shift defined.
- Merkle.MerkleSimple.Update: the records of the heap-indexed trees (MerkleSimple, MerkleChild, DupTree) are kept in a map indexed by the heap id rather than by the string `itos(id)`. Tools.ItosInjective and Heap.ItosDistinct prove `itos` injective, so the two stores hold the same records.
- DupTrees.DupTree.GenProof: DupTreeSimple's copies `itos(id) + "-" + itos(level)` are kept in a second map indexed by the pair (id, level). This takes distinct pairs to name distinct records, which holds for the positive ids and levels the tree uses (`itos` of a positive number has no '-'), but the model does not prove it.
- Positions given as text: `std::stoi(spos)` (src/merkle.hpp:50, 60, src/mem_checker.hpp:34, src/duptree.hpp:64, 94, src/duptree_plus.hpp:71, 86) is not modelled; the heap-indexed trees take the position as an int. The source throws on text that is not a number or is out of `int` range, and reads a number prefix such as "12abc" as 12; the model states nothing about such text.
- MemChecker.NumLeaf: `num_leaf = 1LL << height` (src/mem_checker.hpp:26) overflows a 64-bit integer for height 63 and above; the model's 2^height is unbounded, so it describes only heights below 63.
- The byte counters `num_read` and `num_write` are not modelled, and neither are the counts `commit` returns.
- RatTrees.RatTree.Commit: pending keys must be upper-case hex (the `Valid` invariant), and the contents clause covers keys of 40 digits only. src/main.cpp:180-188 normalises every key to 40 upper-case hex digits before it reaches a tree; the trees themselves accept other keys.
- RatTrees.RatTree.Commit: the contents clause holds only when no write replaced a different record (the ghost field `overwrote`). A RatTree leaf is stored under the hash of its value alone, so two keys with equal values share one record, and the later write's prefix replaces the earlier one. The model does not say what the trie holds after that.
- VersionedRats.VersionedRat.Commit: the contents clause (and the promise that commit does not fail) holds from a sound object, whose pending keys are 40 upper-case hex digits, and speaks of 40-digit keys. src/main.cpp:180-188 normalises every key so before it reaches a tree; the tries themselves accept other keys. Unlike RatTree, no write can replace a different record, because every key commit writes names the new version, which no earlier record names (VersionedStage.NoneNamed).
- VersionedRats.VersionedRat.GenProof: the walk is capped at `|hex| + 1` records and gives an error past that, while the source loop has no bound. VersionedStage.HeldVerifies proves the cap is never reached for a key the trie holds in a tidy store, and VersionedRats.VersionedRat.SoundVerifies for the current version of a sound object; for a missing key the walk ends with "?" before the cap as well, but no lemma states it.
- RatTrees.RatTree.GenProof: the same `|hex| + 1` cap; RatLookup.GenProofSees proves it is never reached on a store a commit built.
- FatTrees.FatTree.UpdatedKeyVerifies: covers the key just updated only. The class invariant does not record that every stored slot holds its child's hash, so a key updated earlier is not shown to verify after later updates, although update rehashes every record on its path.
- FatMints.UpdatedVerifies: the same restriction to the key just updated, for the same reason.
- The non-create `init` branches: the versioned tries' "not available" branch is modelled as written, and the digest keeps its value; the branches that read the digest back from an existing database read it from a store the model opens empty, so the digest keeps its value there too. `MerkleBase::commit` has no return statement and is not modelled.
- DupTrees.DupTree.Init: the class runs the corrected modify_id_level of the Findings row for src/duptree.hpp:134 (DupTrees.Modify, copies at (height_boundary-level)*64 in both branches). As written, DupTreeBlock's gen_node with height_boundary >= 3 puts each first copy into a new boundary record at (level-2)*64, so `Stored` does not hold after init for that layout. The same applies to DupTrees.DupTree.GenNode, DupTrees.BuiltStored and DupTrees.DupTree.Update, which start from that state. DupTrees.ModifyAsWritten and DupTrees.FirstCopyMisplaced model the code as written.
- FatTrees.FatTree.Update: requires the key to be `height` upper-case hex digits. The source's update never reads `height` and takes any string. Its only caller is the benchmark driver, which builds the tree with height 40 (src/main.cpp:103) and normalises every key to 40 upper-case hex digits before calling update (src/main.cpp:196-215).
- DupTrees.DupProofVerifies: takes the record invariant (every low record holds its node's hash, every boundary record holds its copies) as a hypothesis. DupTrees.DupTree.Init establishes it with create_db and DupTrees.DupTree.Update preserves it, so DupTrees.DupTree.StoredProofVerifies states the same for the class's own records. Reopening an existing database (`init` without create_db) is not modelled: the store the model opens is empty, since the database's earlier contents are outside the model.
- DupTreeChild (src/duptree_child.hpp: `update`, `update_cal`, `update_merge`, `gen_proof`, `init`) is not part of this model. Its records are made by splicing: `gen_cal` and `update_cal` append a node's 192-character record onto its children's, and `gen_merge` and `update_merge` copy the tail of one boundary record onto another by `substr`. Stating which copy each boundary record then holds needs an invariant over those string splices that this model does not develop; what it shares with the other trees, the records of NodeChild and the verifier, is modelled in Nodes and MemChecker. Its proofs are checked by `MerkleBase::verify_proof`, which MemChecker.VerifyProof models.
- DupPlus.Update: the base trees inside the blocks are given as functions (a block's proof for a local position, a block's digest after an update). Their own state, DupTreePlus's `gen_node` and `init`, and the per-block namespace switch `change_id` are not modelled; IO.NamespacesAreDisjoint proves the namespaces apart.
- src/sparse.hpp beyond the verifier is not modelled: NodeSparse's parse and `to_string`, `isLeft`, and the `update` and `gen_proof` of SparseSimple, SparseBalance, SparseMint and SparseMint2. These are four further trees over their own record types (NodeSparse, NodeMint, NodeMint2), each with its own descent; modelling their `update` and `gen_proof` would repeat the placement and walk proofs already done for the fat and rat tries, tree by tree, and is not attempted. The 32-bit shifts of those trees go with them. SparseProofs models `verify_proof` and the records `gen_proof` emits.
- Memory management (new/delete, variable-length arrays, flushing destructors), `get_name`, the commented-out FatterTree and other disabled code paths, and src/main.cpp's benchmark driver are not modelled.

## Findings

| source | as written | input that shows it | evidently intended | confidence | as-written member | corrected member |
|---|---|---|---|---|---|---|
| src/rattree.hpp:251 | verify_proof accepts, without folding, every proof whose first character is '?' | a proof gen_proof emits for a key in root slot 15: its first character is '0' + 15, which is '?', and it is accepted against any digest | only gen_proof's whole answer "?" skips the check; every real proof is folded and compared with the digest | medium, not executed | Proof16.SlotFifteenUnchecked | Proof16.CheckedPathComplete |
| src/duptree.hpp:134 | DupTreeBlock's modify_id_level writes a copy into a new record at offset (level-2)*64, but into an existing record, and get_high reads it, at (height_boundary-level)*64 | height_boundary = 3 and a record that does not exist yet receives its level-3 copy: the copy lands in the level-2 slot and the level-3 slot stays all '0' | both branches write at (height_boundary-level)*64 | high, not executed | DupTrees.FirstCopyMisplaced | DupTrees.ModifyPlacesCopy |
