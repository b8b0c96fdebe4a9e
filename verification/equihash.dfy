/** The Equihash 144_5 checks of the Z-chain UTXO module, as the code performs
    them. Section 7.7.1 of the Zcash Protocol Specification defines Equihash
    over BLAKE2b with a full collision tree; the code instead hashes each index
    with SHA-256 (kept abstract here), keeps the first three bytes, and checks a
    simplified tree in which each half is summarised by one combined hash. */
module Equihash {
  import opened Arith
  import opened Bytes

  const EquihashN: nat := 144
  const EquihashK: nat := 5
  const CollisionBitLength: nat := EquihashN / (EquihashK + 1)
  const CollisionByteLength: nat := (CollisionBitLength + 7) / 8
  const HashLength: nat := (EquihashK + 1) * CollisionByteLength
  /** `1 << EquihashK` indices per solution. */
  const SolutionWidth: nat := 32
  /** `1 << (CollisionBitLength + 1)`. */
  const ListLength: nat := 0x200_0000
  const MinMemoryGB: nat := 1
  /** Indices must lie below `1 << 20`. */
  const MaxIndex: nat := 0x10_0000

  lemma ConstantsAgree()
    ensures CollisionBitLength == 24 && CollisionByteLength == 3 && HashLength == 18
    ensures SolutionWidth == Pow2(EquihashK) && ListLength == Pow2(CollisionBitLength + 1)
  {
    Pow2Widths();
    Pow2Add(16, 9);
    assert Pow2(9) == 512;
  }

  /** SHA-256, left abstract. */
  type Sha256 = seq<Byte> -> Digest

  datatype EquihashSolution = EquihashSolution(nonce: nat, solution: seq<nat>, timestamp: int)

  datatype EquihashHeader = EquihashHeader(
    version: nat,
    prevBlockHash: seq<Byte>,
    merkleRoot: seq<Byte>,
    timestamp: nat,
    bits: nat,
    nonce: nat,
    solution: seq<nat>)

  /** The Go field widths: `uint32` version, timestamp and bits, `uint64` nonce. */
  predicate HeaderInRange(h: EquihashHeader) {
    h.version < U32 && h.timestamp < U32 && h.bits < U32 && h.nonce < U64
  }

  datatype EquihashMiner = EquihashMiner(
    threadCount: int,
    memoryMB: int,
    gpuEnabled: bool,
    gpuDeviceId: int,
    asicResistant: bool)

  /** `GenerateEquihashChallenge`: the header without its solution,
      integers little-endian. */
  function GenerateEquihashChallenge(h: EquihashHeader): (r: seq<Byte>)
    requires HeaderInRange(h)
    ensures |r| == 20 + |h.prevBlockHash| + |h.merkleRoot|
  {
    PutUint32LE(h.version) + h.prevBlockHash + h.merkleRoot
      + PutUint32LE(h.timestamp) + PutUint32LE(h.bits) + PutUint64LE(h.nonce)
  }

  /** Each header field can be read back from its offset in the challenge. */
  lemma ChallengeLayout(h: EquihashHeader)
    requires HeaderInRange(h)
    ensures var r := GenerateEquihashChallenge(h);
      FromLE(r[..4]) == h.version
      && r[4..4 + |h.prevBlockHash|] == h.prevBlockHash
      && r[4 + |h.prevBlockHash|..4 + |h.prevBlockHash| + |h.merkleRoot|] == h.merkleRoot
    ensures var r := GenerateEquihashChallenge(h);
      var p := 4 + |h.prevBlockHash| + |h.merkleRoot|;
      FromLE(r[p..p + 4]) == h.timestamp && FromLE(r[p + 4..p + 8]) == h.bits
      && FromLE(r[p + 8..p + 16]) == h.nonce
  {
    var v := PutUint32LE(h.version);
    var t := PutUint32LE(h.timestamp);
    var b := PutUint32LE(h.bits);
    var n := PutUint64LE(h.nonce);
    var r := GenerateEquihashChallenge(h);
    var p := 4 + |h.prevBlockHash| + |h.merkleRoot|;
    assert r == v + h.prevBlockHash + h.merkleRoot + t + b + n;
    assert r[..4] == v;
    assert r[4..4 + |h.prevBlockHash|] == h.prevBlockHash;
    assert r[4 + |h.prevBlockHash|..p] == h.merkleRoot;
    var tail := r[p..];
    assert tail == t + b + n;
    assert tail[..4] == t;
    assert tail[4..8] == b;
    assert tail[8..16] == n;
    assert r[p..p + 4] == tail[..4];
    assert r[p + 4..p + 8] == tail[4..8];
    assert r[p + 8..p + 16] == tail[8..16];
  }

  /** No index of the solution occurs twice. */
  predicate DistinctIndices(solution: seq<nat>) {
    forall i, j :: 0 <= i < j < |solution| ==> solution[i] != solution[j]
  }

  /** Every index of the solution is below 2^20. */
  predicate IndicesBelowMax(solution: seq<nat>) {
    forall i :: 0 <= i < |solution| ==> solution[i] < MaxIndex
  }

  /** `VerifyEquihashSolution`: exactly 32 indices, then the 144_5 checks. */
  function VerifyEquihashSolution(sha: Sha256, h: EquihashHeader, s: EquihashSolution): (ok: bool)
    requires HeaderInRange(h)
    requires forall i :: 0 <= i < |s.solution| ==> s.solution[i] < U32
    ensures ok ==> |s.solution| == SolutionWidth
    ensures ok ==> DistinctIndices(s.solution) && IndicesBelowMax(s.solution)
  {
    if |s.solution| != SolutionWidth then false
    else Verify144_5(sha, GenerateEquihashChallenge(h), s.solution)
  }

  /** `verifyEquihash144_5`: no index twice, every index below 2^20, then the tree. */
  function Verify144_5(sha: Sha256, challenge: seq<Byte>, solution: seq<nat>): (ok: bool)
    requires forall i :: 0 <= i < |solution| ==> solution[i] < U32
    ensures ok ==> DistinctIndices(solution) && IndicesBelowMax(solution)
  {
    NoDuplicatesScan(solution, {});
    if !NoDuplicates(solution, {}) then false
    else if exists i :: 0 <= i < |solution| && solution[i] >= MaxIndex then false
    else VerifyCollisionTree(sha, challenge, solution)
  }

  /** The duplicate loop: `seen` holds the indices already visited. */
  function NoDuplicates(solution: seq<nat>, seen: set<nat>): bool
    decreases |solution|
  {
    if |solution| == 0 then true
    else if solution[0] in seen then false
    else NoDuplicates(solution[1..], seen + {solution[0]})
  }

  /** The loop finds no duplicate exactly when the indices are pairwise
      distinct and none was seen before. */
  lemma {:induction false} NoDuplicatesScan(solution: seq<nat>, seen: set<nat>)
    ensures NoDuplicates(solution, seen) <==>
      (forall i :: 0 <= i < |solution| ==> solution[i] !in seen)
      && (forall i, j :: 0 <= i < j < |solution| ==> solution[i] != solution[j])
    decreases |solution|
  {
    if |solution| > 0 {
      var rest := solution[1..];
      NoDuplicatesScan(rest, seen + {solution[0]});
      assert forall i :: 0 <= i < |rest| ==> rest[i] == solution[i + 1];
      if NoDuplicates(solution, seen) {
        forall i, j | 0 <= i < j < |solution| ensures solution[i] != solution[j] {
          if i > 0 {
            assert rest[i - 1] != rest[j - 1];
          } else {
            assert rest[j - 1] !in seen + {solution[0]};
          }
        }
      } else if solution[0] !in seen {
        var i, j :| (0 <= i < |rest| && rest[i] in seen + {solution[0]})
          || (0 <= i < j < |rest| && rest[i] == rest[j]);
        if 0 <= i < |rest| && rest[i] in seen + {solution[0]} {
          assert rest[i] in seen || solution[i + 1] == solution[0];
        } else {
          assert solution[i + 1] == solution[j + 1];
        }
      }
    }
  }

  /** `generateIndexHash`: the first three bytes of SHA-256 of the challenge
      followed by the index, little-endian. */
  function IndexHash(sha: Sha256, challenge: seq<Byte>, index: nat): (h: seq<Byte>)
    requires index < U32
    ensures |h| == CollisionByteLength
  {
    sha(challenge + PutUint32LE(index))[..CollisionByteLength]
  }

  /** `verifyCollisionTree`: the tree check over the solution's index
      hashes. A passing tree's two halves have colliding combined hashes. */
  function VerifyCollisionTree(sha: Sha256, challenge: seq<Byte>, solution: seq<nat>): (r: bool)
    requires forall i :: 0 <= i < |solution| ==> solution[i] < U32
    ensures |solution| <= 1 ==> r
    ensures r && |solution| >= 2 ==> NodeCollides(sha, IndexHashes(sha, challenge, solution), 0, |solution|)
  {
    var hashes := IndexHashes(sha, challenge, solution);
    VerifyTreeCollisions(sha, hashes, 0, |hashes|)
  }

  /** The index hash of each index of the solution, in order. */
  function IndexHashes(sha: Sha256, challenge: seq<Byte>, solution: seq<nat>): (hs: seq<seq<Byte>>)
    requires forall i :: 0 <= i < |solution| ==> solution[i] < U32
    ensures |hs| == |solution|
    ensures forall i :: 0 <= i < |solution| ==> hs[i] == IndexHash(sha, challenge, solution[i])
  {
    seq(|solution|, i requires 0 <= i < |solution| => IndexHash(sha, challenge, solution[i]))
  }

  /** `verifyTreeCollisions`: a range of at most one hash passes; a longer
      one needs its two halves' combined hashes to collide and both halves to
      pass. The recursion is `TreeChecks`, the test at each node `NodeCollides`. */
  function VerifyTreeCollisions(sha: Sha256, hashes: seq<seq<Byte>>, start: nat, end: nat): (r: bool)
    requires start <= end <= |hashes|
    ensures end - start <= 1 ==> r
    ensures r && end - start >= 2 ==> NodeCollides(sha, hashes, start, end)
  {
    TreeChecks((s: nat, e: nat) => NodeCollides(sha, hashes, s, e), start, end)
  }

  /** The recursion of `verifyTreeCollisions`, with the test at each node left open. */
  function TreeChecks(check: (nat, nat) -> bool, start: nat, end: nat): bool
    requires start <= end
    decreases end - start
  {
    if end - start <= 1 then true
    else
      var mid := (start + end) / 2;
      check(start, end) && TreeChecks(check, start, mid) && TreeChecks(check, mid, end)
  }

  /** The test at the node over `hashes[start..end]`: the left half's combined
      hash collides with the right half's. Ranges outside `hashes` fail. */
  predicate NodeCollides(sha: Sha256, hashes: seq<seq<Byte>>, start: nat, end: nat) {
    var mid := (start + end) / 2;
    start <= mid <= end <= |hashes|
    && HasCollision(CombineHashes(sha, hashes[start..mid]), CombineHashes(sha, hashes[mid..end]))
  }

  /** `combineHashes`: a single hash stands for itself; several are
      concatenated, hashed, and cut to three bytes. */
  function CombineHashes(sha: Sha256, hashes: seq<seq<Byte>>): (r: seq<Byte>)
    ensures |hashes| == 1 ==> r == hashes[0]
    ensures |hashes| != 1 ==> |r| == CollisionByteLength
  {
    if |hashes| == 1 then hashes[0] else sha(Flatten(hashes))[..CollisionByteLength]
  }

  function Flatten(hashes: seq<seq<Byte>>): seq<Byte> {
    if |hashes| == 0 then [] else hashes[0] + Flatten(hashes[1..])
  }

  /** `hasCollision`: both hashes have three bytes and agree on the first
      24 bits. Since 24 is a multiple of 8 the masked last-byte comparison
      never runs, and the loop over the first `CollisionByteLength - 1` bytes
      is all there is: the third byte is never compared. */
  function HasCollision(h1: seq<Byte>, h2: seq<Byte>): (r: bool)
    ensures r <==> |h1| >= 3 && |h2| >= 3 && h1[0] == h2[0] && h1[1] == h2[1]
  {
    ConstantsAgree();
    if |h1| < CollisionByteLength || |h2| < CollisionByteLength then false
    else forall i :: 0 <= i < CollisionByteLength - 1 ==> h1[i] == h2[i]
  }

  /** In a tree over `w` = 2^m leaves whose checks pass, every aligned pair of
      leaves passed its own check. */
  lemma {:induction false} TreeLeafPairs(check: (nat, nat) -> bool, start: nat, m: nat, w: nat)
    requires m >= 1 && w == Pow2(m)
    requires TreeChecks(check, start, start + w)
    ensures forall j :: 0 <= j < w / 2 ==> check(start + 2 * j, start + 2 * j + 2)
    decreases m
  {
    var half := Pow2(m - 1);
    assert w == 2 * half;
    if m > 1 {
      var q := Pow2(m - 2);
      assert half == 2 * q;
      assert (start + (start + w)) / 2 == start + half;
      assert start + w == start + half + half;
      TreeLeafPairs(check, start, m - 1, half);
      TreeLeafPairs(check, start + half, m - 1, half);
      forall j | 0 <= j < w / 2
        ensures check(start + 2 * j, start + 2 * j + 2)
      {
        if j >= q {
          var k := j - q;
          assert start + 2 * j == start + half + 2 * k;
        }
      }
    }
  }

  /** A passing node over two hashes is a colliding pair. */
  lemma PairCollides(sha: Sha256, hashes: seq<seq<Byte>>, start: nat)
    requires NodeCollides(sha, hashes, start, start + 2)
    ensures start + 2 <= |hashes|
    ensures HasCollision(hashes[start], hashes[start + 1])
  {
    assert (start + start + 2) / 2 == start + 1;
    assert hashes[start..start + 1] == [hashes[start]];
    assert hashes[start + 1..start + 2] == [hashes[start + 1]];
  }

  /** In a passing tree over 2^m hashes, hashes 2j and 2j+1 collide. */
  lemma HashPairsCollide(sha: Sha256, hashes: seq<seq<Byte>>, m: nat, w: nat, j: nat)
    requires m >= 1 && w == Pow2(m) && |hashes| == w && j < w / 2
    requires VerifyTreeCollisions(sha, hashes, 0, w)
    ensures HasCollision(hashes[2 * j], hashes[2 * j + 1])
  {
    var check := (s: nat, e: nat) => NodeCollides(sha, hashes, s, e);
    TreeLeafPairs(check, 0, m, w);
    assert check(2 * j, 2 * j + 2);
    PairCollides(sha, hashes, 2 * j);
  }

  /** A passing 32-index solution pairs its index hashes: hashes 2j and 2j+1
      agree on their first two bytes. */
  lemma SolutionPairsCollide(sha: Sha256, challenge: seq<Byte>, solution: seq<nat>, j: nat)
    requires |solution| == SolutionWidth && j < SolutionWidth / 2
    requires forall i :: 0 <= i < |solution| ==> solution[i] < U32
    ensures VerifyCollisionTree(sha, challenge, solution) ==>
      HasCollision(IndexHash(sha, challenge, solution[2 * j]), IndexHash(sha, challenge, solution[2 * j + 1]))
  {
    if VerifyCollisionTree(sha, challenge, solution) {
      var hashes := IndexHashes(sha, challenge, solution);
      assert VerifyTreeCollisions(sha, hashes, 0, |hashes|);
      ConstantsAgree();
      HashPairsCollide(sha, hashes, EquihashK, |hashes|, j);
      assert hashes[2 * j] == IndexHash(sha, challenge, solution[2 * j]);
      assert hashes[2 * j + 1] == IndexHash(sha, challenge, solution[2 * j + 1]);
    }
  }

  /** `IsASICResistant`. */
  function IsAsicResistant(miner: EquihashMiner): (r: bool)
    ensures r <==> miner.memoryMB >= 1024 && miner.gpuEnabled && miner.asicResistant
  {
    if miner.memoryMB < MinMemoryGB * 1024 then false
    else if !miner.gpuEnabled then false
    else miner.asicResistant
  }

  /** `EstimateEquihashMemoryUsage`: the hash table plus a quarter, in MiB. */
  function EstimateEquihashMemoryUsage(): (mb: nat)
    ensures mb == 720
  {
    ConstantsAgree();
    var baseMemory := ListLength * HashLength;
    var workingMemory := baseMemory / 4;
    (baseMemory + workingMemory) / (1024 * 1024)
  }
}
