/**
 The Merkle tree over hashed leaves (api/src/utils/merkleTree.ts).

 The hash function is a parameter `sha` about which only the digest length is known.  Where the
 tree's security rests on the absence of collisions, a lemma asks for it on the finitely many texts
 that were hashed while the tree was built and the proof was folded.
 */
module MerkleTree {

  type Digest = string
  type Level = seq<Digest>

  const DIGEST_LENGTH: nat := 64

  ghost predicate IsHash(sha: string -> string) {
    forall x :: |sha(x)| == DIGEST_LENGTH
  }

  datatype Side = Left | Right

  datatype Sibling = Sibling(hash: Digest, position: Side)

  datatype Proof = Proof(leaf: Digest, index: nat, siblings: seq<Sibling>, root: Digest)

  datatype Result<T> = Ok(value: T) | NoLeaves | IndexOutOfBounds

  // ---------------------------------------------------------------------------
  // Specification
  // ---------------------------------------------------------------------------

  /** JavaScript's `<=` on strings: lexicographic by code unit. */
  predicate LexLe(a: string, b: string) {
    if a == [] then true
    else if b == [] then false
    else if a[0] != b[0] then a[0] < b[0]
    else LexLe(a[1..], b[1..])
  }

  function HashPair(sha: string -> string, left: Digest, right: Digest): Digest {
    if LexLe(left, right) then sha(left + right) else sha(right + left)
  }

  /** The level above: neighbours are hashed in pairs, an unpaired last node with itself. */
  function Parents(sha: string -> string, level: Level): Level {
    if |level| == 0 then []
    else if |level| == 1 then [HashPair(sha, level[0], level[0])]
    else [HashPair(sha, level[0], level[1])] + Parents(sha, level[2..])
  }

  lemma {:induction false} ParentsLength(sha: string -> string, level: Level)
    ensures |Parents(sha, level)| == (|level| + 1) / 2
  {
    if |level| > 1 { ParentsLength(sha, level[2..]); }
  }

  /** All levels from the given one up to the root's. */
  function Levels(sha: string -> string, level: Level): (levels: seq<Level>)
    ensures levels != [] && levels[0] == level
    ensures level != [] ==> levels[|levels| - 1] != []
    decreases |level|
  {
    if |level| <= 1 then [level]
    else
      ParentsLength(sha, level);
      [level] + Levels(sha, Parents(sha, level))
  }

  function HashLeaves(sha: string -> string, data: seq<string>): Level {
    seq(|data|, i requires 0 <= i < |data| => sha(data[i]))
  }

  /** The levels of the tree over `data`. */
  function TreeOf(sha: string -> string, data: seq<string>): (levels: seq<Level>)
    ensures levels != [] && levels[0] == HashLeaves(sha, data)
    ensures data != [] ==> levels[|levels| - 1] != []
  {
    Levels(sha, HashLeaves(sha, data))
  }

  function SiblingIndex(i: nat): nat { if i % 2 == 0 then i + 1 else i - 1 }

  function SiblingAt(level: Level, i: nat): seq<Sibling> {
    if SiblingIndex(i) < |level| then [Sibling(level[SiblingIndex(i)], if i % 2 == 0 then Right else Left)] else []
  }

  /** The siblings on the way from place `i` of the first level to the root; levels without one add nothing. */
  function Path(levels: seq<Level>, i: nat): seq<Sibling> {
    if |levels| <= 1 then [] else SiblingAt(levels[0], i) + Path(levels[1..], i / 2)
  }

  lemma PathFrom(levels: seq<Level>, k: nat, i: nat)
    requires k < |levels| - 1
    ensures Path(levels[k..], i) == SiblingAt(levels[k], i) + Path(levels[k + 1..], i / 2)
  {
    assert levels[k..][1..] == levels[k + 1..];
  }

  /** One step of verification: the hash of the current value and a sibling, in the order the position says. */
  function Climb(sha: string -> string, current: Digest, s: Sibling): Digest {
    if s.position == Left then HashPair(sha, s.hash, current) else HashPair(sha, current, s.hash)
  }

  function Fold(sha: string -> string, current: Digest, siblings: seq<Sibling>): Digest
    decreases |siblings|
  {
    if siblings == [] then current else Fold(sha, Climb(sha, current, siblings[0]), siblings[1..])
  }

  predicate Accepts(sha: string -> string, p: Proof) {
    Fold(sha, p.leaf, p.siblings) == p.root
  }

  // ---------------------------------------------------------------------------
  // The tree
  // ---------------------------------------------------------------------------

  method BuildLevel(sha: string -> string, current: Level) returns (next: Level)
    ensures next == Parents(sha, current)
  {
    next := [];
    var i := 0;
    while i < |current|
      invariant 0 <= i <= |current| + 1
      invariant next + Parents(sha, if i < |current| then current[i..] else []) == Parents(sha, current)
      decreases |current| - i
    {
      var left := current[i];
      var right := if i + 1 < |current| then current[i + 1] else current[i];
      ghost var rest := current[i..];
      assert i + 2 < |current| ==> current[i + 2..] == rest[2..];
      next := next + [HashPair(sha, left, right)];
      i := i + 2;
    }
  }

  lemma Regroup<T>(a: seq<T>, b: seq<T>, c: seq<T>)
    ensures a + (b + c) == a + b + c
  {
  }

  method Build(sha: string -> string, leaves: Level) returns (levels: seq<Level>)
    ensures levels == Levels(sha, leaves)
  {
    levels := [leaves];
    var current := leaves;
    ghost var below := [];
    while |current| > 1
      invariant levels == below + [current]
      invariant below + Levels(sha, current) == Levels(sha, leaves)
      decreases |current|
    {
      ParentsLength(sha, current);
      var next := BuildLevel(sha, current);
      levels := levels + [next];
      Regroup(below, [current], Levels(sha, next));
      below := below + [current];
      current := next;
    }
  }

  method Create(sha: string -> string, data: seq<string>) returns (r: Result<seq<Level>>)
    ensures r == if data == [] then NoLeaves else Ok(Levels(sha, HashLeaves(sha, data)))
  {
    if data == [] {
      return NoLeaves;
    }
    var levels := Build(sha, HashLeaves(sha, data));
    return Ok(levels);
  }

  method GetProof(levels: seq<Level>, index: nat) returns (r: Result<Proof>)
    requires levels != [] && levels[|levels| - 1] != []
    ensures r == if index >= |levels[0]| then IndexOutOfBounds
                 else Ok(Proof(levels[0][index], index, Path(levels, index), levels[|levels| - 1][0]))
  {
    if index >= |levels[0]| {
      return IndexOutOfBounds;
    }
    var siblings := [];
    var currentIndex := index;
    for level := 0 to |levels| - 1
      invariant siblings + Path(levels[level..], currentIndex) == Path(levels, index)
    {
      PathFrom(levels, level, currentIndex);
      var levelNodes := levels[level];
      var siblingIndex := SiblingIndex(currentIndex);
      ghost var before, at := siblings, currentIndex;
      if siblingIndex < |levelNodes| {
        siblings := siblings + [Sibling(levelNodes[siblingIndex], if currentIndex % 2 == 0 then Right else Left)];
      }
      assert siblings == before + SiblingAt(levelNodes, at);
      Regroup(before, SiblingAt(levelNodes, at), Path(levels[level + 1..], at / 2));
      currentIndex := currentIndex / 2;
    }
    assert siblings + [] == siblings;
    return Ok(Proof(levels[0][index], index, siblings, levels[|levels| - 1][0]));
  }

  method Verify(sha: string -> string, proof: Proof) returns (ok: bool)
    ensures ok == Accepts(sha, proof)
  {
    var current := proof.leaf;
    for i := 0 to |proof.siblings|
      invariant Fold(sha, current, proof.siblings[i..]) == Fold(sha, proof.leaf, proof.siblings)
    {
      var sibling := proof.siblings[i];
      assert proof.siblings[i..][1..] == proof.siblings[i + 1..];
      if sibling.position == Left {
        current := HashPair(sha, sibling.hash, current);
      } else {
        current := HashPair(sha, current, sibling.hash);
      }
    }
    return current == proof.root;
  }

  // ---------------------------------------------------------------------------
  // Canonical pairs
  // ---------------------------------------------------------------------------

  lemma {:induction false} LexTotal(a: string, b: string)
    ensures LexLe(a, b) || LexLe(b, a)
    ensures LexLe(a, b) && LexLe(b, a) ==> a == b
  {
    if a != [] && b != [] && a[0] == b[0] {
      LexTotal(a[1..], b[1..]);
      assert a == [a[0]] + a[1..] && b == [b[0]] + b[1..];
    }
  }

  /** The pair's order does not matter, so neither do the positions in a proof. */
  lemma HashPairCommutes(sha: string -> string, a: Digest, b: Digest)
    ensures HashPair(sha, a, b) == HashPair(sha, b, a)
  {
    LexTotal(a, b);
  }

  /** `a` is a beginning of `b`, or smaller where the two first differ. */
  ghost predicate Precedes(a: string, b: string) {
    exists n :: PrecedesAt(a, b, n)
  }

  ghost predicate AgreeUpTo(a: string, b: string, n: int) {
    0 <= n <= |a| && n <= |b| && a[..n] == b[..n]
  }

  ghost predicate PrecedesAt(a: string, b: string, n: int) {
    AgreeUpTo(a, b, n) && (n == |a| || (n < |b| && a[n] < b[n]))
  }

  lemma AgreeOneMore(a: string, b: string, n: nat)
    requires a != [] && b != [] && a[0] == b[0]
    ensures PrecedesAt(a, b, n + 1) <==> PrecedesAt(a[1..], b[1..], n)
  {
    if n < |a| && n < |b| {
      assert a[..n + 1] == [a[0]] + a[1..][..n] && b[..n + 1] == [b[0]] + b[1..][..n];
      assert a[1..][..n] == a[..n + 1][1..] && b[1..][..n] == b[..n + 1][1..];
    }
  }

  lemma FirstAgrees(a: string, b: string)
    requires a != [] && b != []
    ensures forall n | AgreeUpTo(a, b, n) && n > 0 :: a[0] == b[0]
  {
    forall n | AgreeUpTo(a, b, n) && n > 0
      ensures a[0] == b[0]
    {
      assert a[..n][0] == b[..n][0];
    }
  }

  lemma {:induction false} LexLeExactly(a: string, b: string)
    ensures LexLe(a, b) <==> exists n :: PrecedesAt(a, b, n)
  {
    if a == [] {
      assert PrecedesAt(a, b, 0);
    } else if b != [] && a[0] == b[0] {
      LexLeExactly(a[1..], b[1..]);
      forall n: nat
        ensures PrecedesAt(a, b, n + 1) <==> PrecedesAt(a[1..], b[1..], n)
      {
        AgreeOneMore(a, b, n);
      }
      if n :| PrecedesAt(a[1..], b[1..], n) { assert PrecedesAt(a, b, n + 1); }
      if n :| PrecedesAt(a, b, n) {
        assert n > 0;
        AgreeOneMore(a, b, n - 1);
      }
    } else if b != [] {
      FirstAgrees(a, b);
      assert PrecedesAt(a, b, 0) <==> a[0] < b[0];
    }
  }

  /** A pair is hashed with the string first that precedes the other, read character by character. */
  lemma SmallerFirst(sha: string -> string, a: Digest, b: Digest)
    ensures HashPair(sha, a, b) == sha(if Precedes(a, b) then a + b else b + a)
  {
    LexLeExactly(a, b);
  }

  /** The text that is hashed for a pair. */
  function PairText(a: Digest, b: Digest): string {
    if LexLe(a, b) then a + b else b + a
  }

  /** The pair can be read off its text, but for the order. */
  lemma SamePair(a: Digest, b: Digest, c: Digest, d: Digest)
    requires |a| == |b| == |c| == |d|
    requires PairText(a, b) == PairText(c, d)
    ensures (a == c && b == d) || (a == d && b == c)
  {
    var x, y, n := PairText(a, b), PairText(c, d), |a|;
    assert x[..n] == if LexLe(a, b) then a else b;
    assert x[n..] == if LexLe(a, b) then b else a;
    assert y[..n] == if LexLe(c, d) then c else d;
    assert y[n..] == if LexLe(c, d) then d else c;
  }

  /** The text hashed for the parent of places 2 j and 2 j + 1 of a level. */
  function NodeText(level: Level, j: nat): string
    requires 2 * j < |level|
  {
    PairText(level[2 * j], if 2 * j + 1 < |level| then level[2 * j + 1] else level[2 * j])
  }

  /** Every text hashed while the levels were built from the first one. */
  ghost function TreeTexts(levels: seq<Level>): set<string> {
    set k, j | 0 <= k < |levels| - 1 && 0 <= j < |levels[k]| && 2 * j < |levels[k]| :: NodeText(levels[k], j)
  }

  /** Every text hashed while a proof is verified. */
  ghost function FoldTexts(sha: string -> string, current: Digest, siblings: seq<Sibling>): set<string>
    decreases |siblings|
  {
    if siblings == [] then {}
    else {PairText(current, siblings[0].hash)} + FoldTexts(sha, Climb(sha, current, siblings[0]), siblings[1..])
  }

  /** No two of the texts have the same hash. */
  ghost predicate InjectiveOn(sha: string -> string, texts: set<string>) {
    forall x, y | x in texts && y in texts && sha(x) == sha(y) :: x == y
  }

  // ---------------------------------------------------------------------------
  // Shape of a tree
  // ---------------------------------------------------------------------------

  ghost predicate Digests(level: Level) {
    forall d | d in level :: |d| == DIGEST_LENGTH
  }

  /** Each level is the parents of the one below, and the last one is a single node. */
  ghost predicate IsTree(sha: string -> string, levels: seq<Level>) {
    && levels != [] && |levels[|levels| - 1]| == 1
    && AllDigests(levels) && Linked(sha, levels)
  }

  ghost predicate AllDigests(levels: seq<Level>) {
    forall k | 0 <= k < |levels| :: Digests(levels[k])
  }

  ghost predicate Linked(sha: string -> string, levels: seq<Level>) {
    forall i, j | 0 <= i < j < |levels| && j == i + 1 :: |levels[i]| > 1 && levels[j] == Parents(sha, levels[i])
  }

  lemma {:induction false} ParentAt(sha: string -> string, level: Level, j: nat)
    requires j < |Parents(sha, level)|
    ensures 2 * j < |level|
    ensures Parents(sha, level)[j] ==
        HashPair(sha, level[2 * j], if 2 * j + 1 < |level| then level[2 * j + 1] else level[2 * j])
  {
    if j > 0 {
      ParentAt(sha, level[2..], j - 1);
    }
  }

  lemma {:induction false} LevelsAreTree(sha: string -> string, level: Level)
    requires IsHash(sha) && level != [] && Digests(level)
    ensures IsTree(sha, Levels(sha, level)) && Levels(sha, level)[0] == level
    decreases |level|
  {
    if |level| > 1 {
      ParentsLength(sha, level);
      ParentsAreDigests(sha, level);
      LevelsAreTree(sha, Parents(sha, level));
      LevelBelow(sha, level, Levels(sha, Parents(sha, level)));
    }
  }

  lemma ParentsAreDigests(sha: string -> string, level: Level)
    requires IsHash(sha)
    ensures Digests(Parents(sha, level))
  {
    var up := Parents(sha, level);
    forall d | d in up
      ensures |d| == DIGEST_LENGTH
    {
      var j :| 0 <= j < |up| && up[j] == d;
      ParentAt(sha, level, j);
    }
  }

  lemma LevelBelow(sha: string -> string, level: Level, levels: seq<Level>)
    requires |level| > 1 && Digests(level) && IsTree(sha, levels) && levels[0] == Parents(sha, level)
    ensures IsTree(sha, [level] + levels)
  {
    DigestsBelow(level, levels);
    LinkedBelow(sha, level, levels);
  }

  lemma DigestsBelow(level: Level, levels: seq<Level>)
    requires Digests(level) && AllDigests(levels)
    ensures AllDigests([level] + levels)
  {
  }

  lemma LinkedBelow(sha: string -> string, level: Level, levels: seq<Level>)
    requires levels != [] && |level| > 1 && levels[0] == Parents(sha, level) && Linked(sha, levels)
    ensures Linked(sha, [level] + levels)
  {
    var all := [level] + levels;
    forall i, j | 0 <= i < j < |all| && j == i + 1
      ensures |all[i]| > 1 && all[j] == Parents(sha, all[i])
    {
      if i > 0 { assert all[i] == levels[i - 1] && all[j] == levels[j - 1]; }
    }
  }

  // ---------------------------------------------------------------------------
  // Soundness
  // ---------------------------------------------------------------------------

  /** A value that hashes up to a node of level m through q siblings is a node of level m - q. */
  lemma {:induction false} FoldsFromTree(sha: string -> string, levels: seq<Level>, m: nat, x: Digest,
                                         siblings: seq<Sibling>, texts: set<string>)
    requires IsHash(sha) && IsTree(sha, levels) && m < |levels| && |siblings| <= m
    requires |x| == DIGEST_LENGTH
    requires InjectiveOn(sha, texts) && FoldTexts(sha, x, siblings) <= texts && TreeTexts(levels) <= texts
    requires Fold(sha, x, siblings) in levels[m]
    ensures x in levels[m - |siblings|]
    decreases |siblings|
  {
    if siblings != [] {
      var s, rest := siblings[0], siblings[1..];
      StepOfFold(sha, x, siblings);
      ClimbIsDigest(sha, x, s);
      FoldsFromTree(sha, levels, m, Climb(sha, x, s), rest, texts);
      var k := m - |siblings|;
      assert k + 1 == m - |rest|;
      ClimbedFromTree(sha, levels, k, x, s, texts);
    }
  }

  lemma ClimbIsDigest(sha: string -> string, x: Digest, s: Sibling)
    requires IsHash(sha)
    ensures |Climb(sha, x, s)| == DIGEST_LENGTH
  {
  }

  lemma StepOfFold(sha: string -> string, x: Digest, siblings: seq<Sibling>)
    requires siblings != []
    ensures var s := siblings[0]; var y := Climb(sha, x, s);
      && Fold(sha, x, siblings) == Fold(sha, y, siblings[1..])
      && FoldTexts(sha, x, siblings) == {PairText(x, s.hash)} + FoldTexts(sha, y, siblings[1..])
  {
  }

  lemma SubsetInjective(sha: string -> string, small: set<string>, big: set<string>)
    requires small <= big && InjectiveOn(sha, big)
    ensures InjectiveOn(sha, small)
  {
  }

  /** If a digest climbs with a sibling into the level above, it is a node of the level. */
  lemma ClimbedFromTree(sha: string -> string, levels: seq<Level>, k: nat, x: Digest, s: Sibling, texts: set<string>)
    requires IsTree(sha, levels) && k < |levels| - 1
    requires |x| == DIGEST_LENGTH
    requires InjectiveOn(sha, texts) && TreeTexts(levels) <= texts && PairText(x, s.hash) in texts
    requires Climb(sha, x, s) in levels[k + 1]
    ensures x in levels[k]
  {
    HashPairCommutes(sha, s.hash, x);
    var j :| 0 <= j < |levels[k + 1]| && levels[k + 1][j] == Climb(sha, x, s);
    ParentHasText(sha, levels, k, j);
    assert PairText(x, s.hash) == NodeText(levels[k], j);
    assert |x| + |s.hash| == |NodeText(levels[k], j)| == 2 * DIGEST_LENGTH;
    SamePair(x, s.hash, levels[k][2 * j], if 2 * j + 1 < |levels[k]| then levels[k][2 * j + 1] else levels[k][2 * j]);
  }

  /** A node above the leaves is the hash of a text of the tree, and the two nodes below it are digests. */
  lemma ParentHasText(sha: string -> string, levels: seq<Level>, k: nat, j: nat)
    requires IsTree(sha, levels) && k < |levels| - 1 && j < |levels[k + 1]|
    ensures 2 * j < |levels[k]| && NodeText(levels[k], j) in TreeTexts(levels)
    ensures levels[k + 1][j] == sha(NodeText(levels[k], j))
    ensures |levels[k][2 * j]| == DIGEST_LENGTH
    ensures 2 * j + 1 < |levels[k]| ==> |levels[k][2 * j + 1]| == DIGEST_LENGTH
  {
    assert levels[k + 1] == Parents(sha, levels[k]);
    ParentAt(sha, levels[k], j);
    assert Digests(levels[k]);
  }

  /**
   Soundness: an accepted proof for the tree's root, with as many siblings as the tree has levels
   above the leaves, has one of the tree's leaves if and only if what it has is as long as a digest,
   provided no two of the texts hashed for this tree and this proof have the same hash.
   */
  lemma AcceptedLeafIsInTree(sha: string -> string, data: seq<string>, p: Proof)
    requires IsHash(sha) && data != []
    requires var levels := TreeOf(sha, data);
      && |p.siblings| == |levels| - 1
      && p.root == levels[|levels| - 1][0]
      && InjectiveOn(sha, FoldTexts(sha, p.leaf, p.siblings) + TreeTexts(levels))
    requires Accepts(sha, p)
    ensures |p.leaf| == DIGEST_LENGTH <==> exists i :: 0 <= i < |data| && p.leaf == sha(data[i])
  {
    var levels := TreeOf(sha, data);
    LevelsAreTree(sha, HashLeaves(sha, data));
    if |p.leaf| == DIGEST_LENGTH {
      var texts := FoldTexts(sha, p.leaf, p.siblings) + TreeTexts(levels);
      FoldsFromTree(sha, levels, |levels| - 1, p.leaf, p.siblings, texts);
      var i :| 0 <= i < |levels[0]| && levels[0][i] == p.leaf;
      assert p.leaf == sha(data[i]);
    }
  }

  /** An accepted proof whose leaf is no digest: the text of the only pair, cut behind nothing. */
  lemma ForgedProofAccepted(sha: string -> string, a: string, b: string) returns (p: Proof)
    requires IsHash(sha)
    ensures var levels := TreeOf(sha, [a, b]);
      && |p.siblings| == |levels| - 1
      && p.root == levels[|levels| - 1][0]
      && FoldTexts(sha, p.leaf, p.siblings) == TreeTexts(levels) == {PairText(sha(a), sha(b))}
    ensures Accepts(sha, p) && p.leaf != sha(a) && p.leaf != sha(b)
  {
    var level := HashLeaves(sha, [a, b]);
    assert level == [sha(a), sha(b)];
    var text := PairText(sha(a), sha(b));
    assert Parents(sha, level) == [sha(text)];
    assert Levels(sha, level) == [level, [sha(text)]];
    p := Proof("", 0, [Sibling(text, Right)], sha(text));
    assert "" + text == text && PairText("", text) == text;
    assert p.siblings[1..] == [];
    assert NodeText(level, 0) == text;
  }

  // ---------------------------------------------------------------------------
  // Proofs of any depth
  // ---------------------------------------------------------------------------

  /**
   No raw leaf is itself the text of a pair hashed for the tree or the proof, and no two of all these
   texts have the same hash.
   */
  ghost predicate Separated(sha: string -> string, data: seq<string>, p: Proof)
    requires data != []
  {
    var pairs := FoldTexts(sha, p.leaf, p.siblings) + TreeTexts(TreeOf(sha, data));
    && (forall x | x in data :: x !in pairs)
    && InjectiveOn(sha, pairs + set x | x in data)
  }

  lemma {:induction false} FoldTextsSplit(sha: string -> string, x: Digest, a: seq<Sibling>, b: seq<Sibling>)
    ensures Fold(sha, x, a + b) == Fold(sha, Fold(sha, x, a), b)
    ensures FoldTexts(sha, x, a + b) == FoldTexts(sha, x, a) + FoldTexts(sha, Fold(sha, x, a), b)
    decreases |a|
  {
    if a == [] {
      assert a + b == b;
    } else {
      assert (a + b)[1..] == a[1..] + b;
      FoldTextsSplit(sha, Climb(sha, x, a[0]), a[1..], b);
    }
  }

  /** The last step of folding a non-empty list hashes one of the list's texts. */
  lemma LastStepHashes(sha: string -> string, x: Digest, siblings: seq<Sibling>)
    requires siblings != []
    ensures exists t :: t in FoldTexts(sha, x, siblings) && Fold(sha, x, siblings) == sha(t)
  {
    var n := |siblings| - 1;
    var y, s := Fold(sha, x, siblings[..n]), siblings[n];
    assert siblings == siblings[..n] + [s];
    FoldTextsSplit(sha, x, siblings[..n], [s]);
    HashPairCommutes(sha, s.hash, y);
    assert [s][1..] == [];
    assert Fold(sha, y, [s]) == sha(PairText(y, s.hash)) && PairText(y, s.hash) in FoldTexts(sha, y, [s]);
  }

  lemma PairIsNoLeaf(sha: string -> string, data: seq<string>, t: string, pairs: set<string>)
    requires t in pairs && (forall x | x in data :: x !in pairs)
    requires InjectiveOn(sha, pairs + set x | x in data)
    ensures sha(t) !in HashLeaves(sha, data)
  {
    forall i | 0 <= i < |data|
      ensures sha(data[i]) != sha(t)
    {
      assert data[i] in data;
    }
  }

  /** With more siblings than the tree has levels, the folding passes a leaf that is the hash of a pair. */
  lemma DeepProofRejected(sha: string -> string, data: seq<string>, p: Proof)
    requires IsHash(sha) && data != [] && Separated(sha, data, p)
    requires |p.siblings| > |TreeOf(sha, data)| - 1
    ensures Fold(sha, p.leaf, p.siblings) !in TreeOf(sha, data)[|TreeOf(sha, data)| - 1]
  {
    var levels := TreeOf(sha, data);
    LevelsAreTree(sha, HashLeaves(sha, data));
    var n := |p.siblings| - (|levels| - 1);
    var a, b := p.siblings[..n], p.siblings[n..];
    assert p.siblings == a + b;
    FoldTextsSplit(sha, p.leaf, a, b);
    LastStepHashes(sha, p.leaf, a);
    var t :| t in FoldTexts(sha, p.leaf, a) && Fold(sha, p.leaf, a) == sha(t);
    var pairs := FoldTexts(sha, p.leaf, p.siblings) + TreeTexts(levels);
    PairIsNoLeaf(sha, data, t, pairs);
    SubsetInjective(sha, FoldTexts(sha, sha(t), b) + TreeTexts(levels), pairs + set x | x in data);
    NotFoldedFromLeaf(sha, levels, sha(t), b);
  }

  lemma NotFoldedFromLeaf(sha: string -> string, levels: seq<Level>, x: Digest, siblings: seq<Sibling>)
    requires IsHash(sha) && IsTree(sha, levels) && |siblings| == |levels| - 1 && |x| == DIGEST_LENGTH
    requires InjectiveOn(sha, FoldTexts(sha, x, siblings) + TreeTexts(levels))
    requires x !in levels[0]
    ensures Fold(sha, x, siblings) !in levels[|levels| - 1]
  {
    if Fold(sha, x, siblings) in levels[|levels| - 1] {
      FoldsFromTree(sha, levels, |levels| - 1, x, siblings, FoldTexts(sha, x, siblings) + TreeTexts(levels));
    }
  }

  lemma ShortLeafRejected(sha: string -> string, levels: seq<Level>, text: string, siblings: seq<Sibling>,
                          pairs: set<string>, leaves: set<string>)
    requires IsHash(sha) && IsTree(sha, levels) && |siblings| < |levels| - 1
    requires pairs == FoldTexts(sha, sha(text), siblings) + TreeTexts(levels)
    requires text !in pairs && text in leaves && InjectiveOn(sha, pairs + leaves)
    ensures Fold(sha, sha(text), siblings) != levels[|levels| - 1][0]
  {
    ShortProofRejected(sha, levels, text, siblings, pairs + leaves);
  }

  lemma ShortProofHasNoLeaf(sha: string -> string, data: seq<string>, p: Proof, i: nat)
    requires IsHash(sha) && i < |data| && Separated(sha, data, p)
    requires |p.siblings| < |TreeOf(sha, data)| - 1 && p.leaf == sha(data[i])
    ensures Fold(sha, p.leaf, p.siblings) != TreeOf(sha, data)[|TreeOf(sha, data)| - 1][0]
  {
    var levels := TreeOf(sha, data);
    LevelsAreTree(sha, HashLeaves(sha, data));
    var pairs := FoldTexts(sha, p.leaf, p.siblings) + TreeTexts(levels);
    assert data[i] in data;
    ShortLeafRejected(sha, levels, data[i], p.siblings, pairs, set x | x in data);
  }

  /**
   Soundness whatever the proof's depth, which the program does not test either: an accepted proof
   for the tree's root has one of the tree's leaves if and only if what it has is as long as a digest
   and its siblings are as many as the tree's levels above the leaves.
   */
  lemma AcceptedLeafExactly(sha: string -> string, data: seq<string>, p: Proof)
    requires IsHash(sha) && data != [] && Separated(sha, data, p)
    requires var levels := TreeOf(sha, data); p.root == levels[|levels| - 1][0]
    requires Accepts(sha, p)
    ensures (exists i :: 0 <= i < |data| && p.leaf == sha(data[i])) <==>
        |p.leaf| == DIGEST_LENGTH && |p.siblings| == |TreeOf(sha, data)| - 1
  {
    var depth := |TreeOf(sha, data)| - 1;
    if |p.siblings| > depth {
      DeepProofRejected(sha, data, p);
    } else if |p.siblings| < depth {
      forall i | 0 <= i < |data|
        ensures p.leaf != sha(data[i])
      {
        if p.leaf == sha(data[i]) { ShortProofHasNoLeaf(sha, data, p, i); }
      }
    } else {
      var pairs := FoldTexts(sha, p.leaf, p.siblings) + TreeTexts(TreeOf(sha, data));
      SubsetInjective(sha, pairs, pairs + set x | x in data);
      AcceptedLeafIsInTree(sha, data, p);
    }
  }

  // ---------------------------------------------------------------------------
  // Completeness
  // ---------------------------------------------------------------------------

  /** On every level of a tree over `n` leaves the node above leaf `i` has a neighbour. */
  predicate SiblingOnEveryLevel(n: nat, i: nat)
    decreases n
  {
    n <= 1 || (SiblingIndex(i) < n && SiblingOnEveryLevel((n + 1) / 2, i / 2))
  }

  function PowerOfTwo(k: nat): nat {
    if k == 0 then 1 else 2 * PowerOfTwo(k - 1)
  }

  /** Where the node above leaf `i` stands on level `k`, and which neighbour it is hashed with there. */
  ghost predicate IsNeighbour(levels: seq<Level>, i: nat, k: nat, s: Sibling) {
    && k < |levels| && PowerOfTwo(k) > 0
    && var j := i / PowerOfTwo(k);
      if j % 2 == 1 then s.position == Left && j <= |levels[k]| && levels[k][j - 1] == s.hash
      else s.position == Right && j + 1 < |levels[k]| && levels[k][j + 1] == s.hash
  }

  lemma {:induction false} PowerIsPositive(k: nat)
    ensures PowerOfTwo(k) > 0
  {
    if k > 0 { PowerIsPositive(k - 1); }
  }

  lemma HalveFirst(i: nat, p: nat)
    requires p > 0
    ensures (i / 2) / p == i / (2 * p)
  {
    var q, r := i / (2 * p), i % (2 * p);
    assert i == 2 * (p * q) + r;
    assert i / 2 == p * q + r / 2 && 0 <= r / 2 < p;
    QuotientIs(i / 2, p, q, r / 2);
  }

  lemma NextMultiple(p: nat, a: nat, b: nat)
    requires a < b
    ensures p * b >= p * a + p
  {
    assert p * b == p * a + p * (b - a);
    assert p * (b - a) == p + p * (b - a - 1);
  }

  lemma QuotientIs(a: nat, p: nat, q: nat, r: nat)
    requires p > 0 && a == p * q + r && r < p
    ensures a / p == q
  {
    var d, m := a / p, a % p;
    assert a == p * d + m;
    if d < q { NextMultiple(p, d, q); }
    if q < d { NextMultiple(p, q, d); }
  }

  /** The n-th sibling of a proof is the neighbour on some level, not below the n-th, on the side its position says. */
  lemma {:induction false} SiblingsAreNeighbours(levels: seq<Level>, i: nat, n: nat) returns (k: nat)
    requires n < |Path(levels, i)|
    ensures n <= k < |levels| - 1 && IsNeighbour(levels, i, k, Path(levels, i)[n])
  {
    var own := SiblingAt(levels[0], i);
    if n < |own| {
      k := 0;
      assert i / PowerOfTwo(0) == i;
    } else {
      k := SiblingsAreNeighbours(levels[1..], i / 2, n - |own|);
      PowerIsPositive(k);
      HalveFirst(i, PowerOfTwo(k));
      k := k + 1;
    }
  }

  lemma {:induction false} PathLength(sha: string -> string, level: Level, i: nat)
    requires i < |level|
    ensures |Path(Levels(sha, level), i)| <= |Levels(sha, level)| - 1
    ensures |Path(Levels(sha, level), i)| == |Levels(sha, level)| - 1 <==> SiblingOnEveryLevel(|level|, i)
    decreases |level|
  {
    if |level| > 1 {
      ParentsLength(sha, level);
      var up := Parents(sha, level);
      PathLength(sha, up, i / 2);
      assert Levels(sha, level)[1..] == Levels(sha, up);
    }
  }

  lemma {:induction false} FullPathFoldsToRoot(sha: string -> string, level: Level, i: nat)
    requires i < |level| && SiblingOnEveryLevel(|level|, i)
    ensures var levels := Levels(sha, level);
      Fold(sha, level[i], Path(levels, i)) == levels[|levels| - 1][0]
    decreases |level|
  {
    if |level| > 1 {
      ParentsLength(sha, level);
      var up := Parents(sha, level);
      FullPathFoldsToRoot(sha, up, i / 2);
      var rest := Path(Levels(sha, up), i / 2);
      assert Levels(sha, level)[1..] == Levels(sha, up);
      FirstSiblingReachesParent(sha, level, i, rest);
    }
  }

  lemma FirstSiblingReachesParent(sha: string -> string, level: Level, i: nat, rest: seq<Sibling>)
    requires i < |level| && SiblingIndex(i) < |level| && i / 2 < |Parents(sha, level)|
    ensures Fold(sha, level[i], SiblingAt(level, i) + rest) == Fold(sha, Parents(sha, level)[i / 2], rest)
  {
    var s := SiblingAt(level, i)[0];
    assert SiblingAt(level, i) + rest == [s] + rest;
    FoldFirst(sha, level[i], s, rest);
    SiblingMakesParent(sha, level, i);
  }

  /** Either position of a sibling hashes the same, as a pair is sorted before it is hashed. */
  lemma FoldFirst(sha: string -> string, current: Digest, s: Sibling, rest: seq<Sibling>)
    ensures Fold(sha, current, [s] + rest) == Fold(sha, HashPair(sha, current, s.hash), rest)
  {
    assert ([s] + rest)[1..] == rest;
    HashPairCommutes(sha, current, s.hash);
  }

  lemma SiblingMakesParent(sha: string -> string, level: Level, i: nat)
    requires i < |level| && SiblingIndex(i) < |level| && i / 2 < |Parents(sha, level)|
    ensures HashPair(sha, level[i], level[SiblingIndex(i)]) == Parents(sha, level)[i / 2]
  {
    var j := i / 2;
    ParentAt(sha, level, j);
    if i % 2 == 0 {
      assert i == 2 * j;
    } else {
      assert i == 2 * j + 1;
      HashPairCommutes(sha, level[i], level[i - 1]);
    }
  }

  /** The proof the tree makes for leaf `i`. */
  function ProofFor(sha: string -> string, data: seq<string>, i: nat): Proof
    requires i < |data|
  {
    var levels := TreeOf(sha, data);
    Proof(sha(data[i]), i, Path(levels, i), levels[|levels| - 1][0])
  }

  lemma ProofParts(sha: string -> string, data: seq<string>, i: nat)
    requires i < |data|
    ensures var p, level := ProofFor(sha, data, i), HashLeaves(sha, data); var levels := Levels(sha, level);
      p.leaf == level[i] && p.siblings == Path(levels, i) && p.root == levels[|levels| - 1][0]
  {
  }

  /** A proof made for a leaf whose path has a sibling on every level is accepted, whatever the hash. */
  lemma FullPathAccepted(sha: string -> string, data: seq<string>, i: nat)
    requires i < |data| && SiblingOnEveryLevel(|data|, i)
    ensures Accepts(sha, ProofFor(sha, data, i))
  {
    FullPathFoldsToRoot(sha, HashLeaves(sha, data), i);
    ProofParts(sha, data, i);
  }

  /**
   The raw leaf is not itself the text of a pair of the tree, and no two of the texts hashed for leaf
   `i`, for the tree, and while the leaf's own proof is verified have the same hash.
   */
  ghost predicate Unambiguous(sha: string -> string, data: seq<string>, i: nat)
    requires i < |data|
  {
    var levels := TreeOf(sha, data);
    && data[i] !in TreeTexts(levels)
    && InjectiveOn(sha, {data[i]} + FoldTexts(sha, sha(data[i]), Path(levels, i)) + TreeTexts(levels))
  }

  /** A proof made for a leaf whose path lacks a sibling somewhere is rejected. */
  lemma ShortPathRejected(sha: string -> string, data: seq<string>, i: nat)
    requires IsHash(sha) && i < |data| && !SiblingOnEveryLevel(|data|, i)
    requires Unambiguous(sha, data, i)
    ensures !Accepts(sha, ProofFor(sha, data, i))
  {
    var levels := TreeOf(sha, data);
    LevelsAreTree(sha, HashLeaves(sha, data));
    PathLength(sha, HashLeaves(sha, data), i);
    var folded := FoldTexts(sha, sha(data[i]), Path(levels, i));
    ShortProofRejected(sha, levels, data[i], Path(levels, i), {data[i]} + folded + TreeTexts(levels));
  }

  lemma ShortProofRejected(sha: string -> string, levels: seq<Level>, text: string, siblings: seq<Sibling>,
                           texts: set<string>)
    requires IsHash(sha) && IsTree(sha, levels) && |siblings| < |levels| - 1
    requires text !in TreeTexts(levels)
    requires InjectiveOn(sha, texts)
    requires text in texts && FoldTexts(sha, sha(text), siblings) <= texts && TreeTexts(levels) <= texts
    ensures Fold(sha, sha(text), siblings) != levels[|levels| - 1][0]
  {
    var top := |levels| - 1;
    if Fold(sha, sha(text), siblings) == levels[top][0] {
      FoldsFromTree(sha, levels, top, sha(text), siblings, texts);
      LeafIsNoInnerNode(sha, levels, top - |siblings|, text, texts);
    }
  }

  /** A hashed leaf does not occur above the leaves. */
  lemma LeafIsNoInnerNode(sha: string -> string, levels: seq<Level>, k: nat, text: string, texts: set<string>)
    requires IsTree(sha, levels) && 0 < k < |levels|
    requires InjectiveOn(sha, texts) && text !in TreeTexts(levels) && text in texts && TreeTexts(levels) <= texts
    ensures sha(text) !in levels[k]
  {
    forall j | 0 <= j < |levels[k]|
      ensures levels[k][j] != sha(text)
    {
      ParentHasText(sha, levels, k - 1, j);
    }
  }

  /**
   Completeness, exactly: a proof made for leaf `i` is accepted if and only if the leaf's path has a
   sibling on every level.
   */
  lemma OwnProofAcceptedExactly(sha: string -> string, data: seq<string>, i: nat)
    requires IsHash(sha) && i < |data|
    requires Unambiguous(sha, data, i)
    ensures Accepts(sha, ProofFor(sha, data, i)) <==> SiblingOnEveryLevel(|data|, i)
  {
    if SiblingOnEveryLevel(|data|, i) { FullPathAccepted(sha, data, i); } else { ShortPathRejected(sha, data, i); }
  }

  /** Raw leaves of any length but that of two digests are never texts of a pair. */
  lemma OtherLengthIsNoPair(sha: string -> string, data: seq<string>, text: string)
    requires IsHash(sha) && data != [] && |text| != 2 * DIGEST_LENGTH
    ensures text !in TreeTexts(TreeOf(sha, data))
  {
    var levels := TreeOf(sha, data);
    LevelsAreTree(sha, HashLeaves(sha, data));
    forall k, j | 0 <= k < |levels| - 1 && 0 <= j < |levels[k]| && 2 * j < |levels[k]|
      ensures |NodeText(levels[k], j)| == 2 * DIGEST_LENGTH
    {
      assert Digests(levels[k]);
      assert levels[k][2 * j] in levels[k];
    }
  }

  predicate IsPowerOfTwo(n: nat)
  {
    n == 1 || (n > 1 && n % 2 == 0 && IsPowerOfTwo(n / 2))
  }

  lemma {:induction false} PowerOfTwoIsFull(n: nat, i: nat)
    requires i < n && IsPowerOfTwo(n)
    ensures SiblingOnEveryLevel(n, i)
  {
    if n > 1 {
      assert (n + 1) / 2 == n / 2;
      PowerOfTwoIsFull(n / 2, i / 2);
    }
  }

  lemma Doubling(half: nat, up: nat)
    requires half >= 1
    ensures IsPowerOfTwo(2 * half) <==> IsPowerOfTwo(half)
    ensures SiblingOnEveryLevel(2 * half, 2 * up) ==> SiblingOnEveryLevel(half, up)
    ensures !SiblingOnEveryLevel(2 * half + 1, 2 * half)
  {
    assert SiblingIndex(2 * half) == 2 * half + 1;
    assert (2 * half) / 2 == half && (2 * half + 1) / 2 == half && (2 * up) / 2 == up;
  }

  lemma {:induction false} MissingSibling(n: nat) returns (i: nat)
    requires n >= 1 && !IsPowerOfTwo(n)
    ensures i < n && !SiblingOnEveryLevel(n, i)
  {
    var half: nat := n / 2;
    if n == 1 {
      assert false;
    }
    Doubling(half, 0);
    if n == 2 * half + 1 {
      i := 2 * half;
    } else {
      var up := MissingSibling(half);
      Doubling(half, up);
      i := 2 * up;
    }
  }

  /** All leaves have such a path exactly when their number is a power of two. */
  lemma AllPathsFullExactly(n: nat)
    requires n >= 1
    ensures (forall i: nat | i < n :: SiblingOnEveryLevel(n, i)) <==> IsPowerOfTwo(n)
  {
    if IsPowerOfTwo(n) {
      forall i: nat | i < n
        ensures SiblingOnEveryLevel(n, i)
      {
        PowerOfTwoIsFull(n, i);
      }
    } else {
      var i := MissingSibling(n);
    }
  }
}
