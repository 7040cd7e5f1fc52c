/**
 * The block side of an attestation (otsserver/stamper.py: make_btc_block_merkle_tree, make_timestamp_from_block_tx):
 * the level loop that doubles an odd level's last hash, and the operations it records under every leaf. The loop's
 * root is Bitcoin's recursive one, and every leaf's operations replay to it.
 */
module BlockMerkle {
  import opened Octets
  import opened Wrappers
  import opened OtsFormat

  /** cat_sha256d of two messages. */
  function Pair(h: HashFn, left: Bytes, right: Bytes): Bytes {
    h.Twice(left + right)
  }

  /** A message carried through operations. */
  function Replay(h: HashFn, msg: Bytes, ops: seq<Op>): Bytes
    decreases |ops|
  {
    if ops == [] then msg else Replay(h, Apply(h, ops[0], msg), ops[1..])
  }

  lemma {:induction false} ReplayThen(h: HashFn, msg: Bytes, first: seq<Op>, second: seq<Op>)
    ensures Replay(h, msg, first + second) == Replay(h, Replay(h, msg, first), second)
    decreases |first|
  {
    hide Apply;
    if first == [] {
      assert first + second == second;
    } else {
      assert (first + second)[1..] == first[1..] + second;
      ReplayThen(h, Apply(h, first[0], msg), first[1..], second);
    }
  }

  // --- one level ---------------------------------------------------------------------------------

  /** A level as it is paired: an odd one's last hash stands twice. */
  function Even(level: seq<Bytes>): (r: seq<Bytes>)
    ensures |r| % 2 == 0 && |r| / 2 == (|level| + 1) / 2 && |level| <= |r|
  {
    if |level| % 2 == 1 then level + [level[|level| - 1]] else level
  }

  /** What pairing records under the node at a position: its sibling to the right or to the left, then two hashes. */
  function Link(even: seq<Bytes>, at: nat): seq<Op>
    requires |even| % 2 == 0 && at < |even|
  {
    [if at % 2 == 0 then Append(even[at + 1]) else Prepend(even[at - 1]), Sha256, Sha256]
  }

  lemma LinkReplays(h: HashFn, even: seq<Bytes>, at: nat)
    requires |even| % 2 == 0 && at < |even|
    ensures Replay(h, even[at], Link(even, at)) == Pair(h, even[at / 2 * 2], even[at / 2 * 2 + 1])
  {
    ThreeOps(h, even[at], Link(even, at)[0]);
  }

  /** Any operation and then two hashes. */
  lemma ThreeOps(h: HashFn, msg: Bytes, op: Op)
    ensures Replay(h, msg, [op, Sha256, Sha256]) == h.Twice(Apply(h, op, msg))
  {
    hide Apply;
    TwoHashes(h, Apply(h, op, msg));
    assert [op, Sha256, Sha256][1..] == [Sha256, Sha256];
  }

  lemma TwoHashes(h: HashFn, msg: Bytes)
    ensures Replay(h, msg, [Sha256, Sha256]) == h.Twice(msg)
  {
    assert [Sha256, Sha256][1..] == [Sha256] && [Sha256][1..] == [];
  }

  // --- the loop ----------------------------------------------------------------------------------

  /** Every leaf's operations so far lead to its ancestor in the level. */
  ghost predicate Climbed(h: HashFn, leaves: seq<Bytes>, level: seq<Bytes>, at: seq<nat>, paths: seq<seq<Op>>) {
    && |at| == |leaves| && |paths| == |leaves|
    && forall k :: 0 <= k < |leaves| ==> at[k] < |level| && Replay(h, leaves[k], paths[k]) == level[at[k]]
  }

  /** The hashes of an even level's neighbours. */
  ghost predicate Paired(h: HashFn, even: seq<Bytes>, next: seq<Bytes>, n: nat) {
    n <= |next| && 2 * n <= |even| && forall j :: 0 <= j < n ==> next[j] == Pair(h, even[2 * j], even[2 * j + 1])
  }

  lemma PairedMore(h: HashFn, even: seq<Bytes>, next: seq<Bytes>, more: Bytes)
    requires Paired(h, even, next, |next|) && 2 * |next| + 2 <= |even|
    requires more == Pair(h, even[2 * |next|], even[2 * |next| + 1])
    ensures Paired(h, even, next + [more], |next| + 1)
  {
    hide Pair;
  }

  /** One level paired. */
  method PairLevel(h: HashFn, even: seq<Bytes>) returns (next: seq<Bytes>)
    requires |even| % 2 == 0
    ensures |next| == |even| / 2 && Paired(h, even, next, |next|)
  {
    hide Pair, Paired;
    next := [];
    var i := 0;
    assert Paired(h, even, next, 0) by { NonePaired(h, even); }
    while i < |even|
      invariant i <= |even| && i == 2 * |next| && Paired(h, even, next, |next|)
    {
      PairedMore(h, even, next, Pair(h, even[i], even[i + 1]));
      next := next + [Pair(h, even[i], even[i + 1])];
      i := i + 2;
    }
  }

  lemma NonePaired(h: HashFn, even: seq<Bytes>)
    ensures Paired(h, even, [], 0)
  {
  }

  /** What pairing a level records under every leaf. */
  method Record(h: HashFn, leaves: seq<Bytes>, even: seq<Bytes>, next: seq<Bytes>, at: seq<nat>, paths: seq<seq<Op>>)
    returns (above: seq<nat>, longer: seq<seq<Op>>)
    requires |even| % 2 == 0 && |next| == |even| / 2 && Climbed(h, leaves, even, at, paths)
    requires Paired(h, even, next, |next|)
    ensures Climbed(h, leaves, next, above, longer)
    ensures forall k :: 0 <= k < |leaves| ==> above[k] == at[k] / 2 && longer[k] == paths[k] + Link(even, at[k])
  {
    hide Replay, Link, Pair, Paired;
    above, longer := [], [];
    var k := 0;
    while k < |leaves|
      invariant 0 <= k <= |leaves| && |above| == |longer| == k
      invariant forall j :: 0 <= j < k ==> above[j] == at[j] / 2 && longer[j] == paths[j] + Link(even, at[j])
      invariant forall j :: 0 <= j < k ==> above[j] < |next| && Replay(h, leaves[j], longer[j]) == next[above[j]]
    {
      OneClimbs(h, leaves[k], even, next, at[k], paths[k]);
      above := above + [at[k] / 2];
      longer := longer + [paths[k] + Link(even, at[k])];
      k := k + 1;
    }
  }

  lemma OneClimbs(h: HashFn, leaf: Bytes, even: seq<Bytes>, next: seq<Bytes>, at: nat, path: seq<Op>)
    requires |even| % 2 == 0 && |next| == |even| / 2 && Paired(h, even, next, |next|)
    requires at < |even| && Replay(h, leaf, path) == even[at]
    ensures at / 2 < |next| && Replay(h, leaf, path + Link(even, at)) == next[at / 2]
  {
    hide Replay, Link, Pair;
    LinkReplays(h, even, at);
    ReplayThen(h, leaf, path, Link(even, at));
  }

  /**
   * make_btc_block_merkle_tree: for every nonempty list of transaction ids and every position in it, the operations
   * recorded from that id replay to the root, and the root is Bitcoin's.
   */
  method MakeMerkleTree(h: HashFn, txids: seq<Bytes>) returns (root: Bytes, paths: seq<seq<Op>>)
    requires txids != []
    ensures root == MerkleRoot(h, txids)
    ensures |paths| == |txids|
    ensures forall k :: 0 <= k < |txids| ==> Replay(h, txids[k], paths[k]) == root
  {
    hide Replay, MerkleRoot, CalcHash, Paired, Climbed, IsLevel, Width;
    var digests := txids;
    var at: seq<nat> := seq(|txids|, (i: nat) => i);
    paths := seq(|txids|, _ => []);
    StartClimb(h, txids, at, paths);
    ghost var height := 0;
    LevelZero(h, txids);
    while |digests| > 1
      invariant digests != []
      invariant Climbed(h, txids, digests, at, paths)
      invariant IsLevel(h, txids, height, digests) && (height > 0 ==> Width(|txids|, height - 1) > 1)
      decreases |digests|
    {
      var even := Even(digests);
      EvenKeepsClimb(h, txids, digests, at, paths);
      var next := PairLevel(h, even);
      at, paths := Record(h, txids, even, next, at, paths);
      NextLevel(h, txids, height, digests, next);
      digests := next;
      height := height + 1;
    }
    TopIsRoot(h, txids, height, digests);
    AllAtTop(h, txids, digests, at, paths);
    root := digests[0];
  }

  lemma AllAtTop(h: HashFn, leaves: seq<Bytes>, level: seq<Bytes>, at: seq<nat>, paths: seq<seq<Op>>)
    requires Climbed(h, leaves, level, at, paths) && |level| == 1
    ensures |paths| == |leaves| && forall k :: 0 <= k < |leaves| ==> Replay(h, leaves[k], paths[k]) == level[0]
  {
    hide Replay;
  }

  lemma StartClimb(h: HashFn, txids: seq<Bytes>, at: seq<nat>, paths: seq<seq<Op>>)
    requires |at| == |txids| == |paths| && forall k :: 0 <= k < |txids| ==> at[k] == k && paths[k] == []
    ensures Climbed(h, txids, txids, at, paths)
  {
  }

  lemma EvenKeepsClimb(h: HashFn, leaves: seq<Bytes>, level: seq<Bytes>, at: seq<nat>, paths: seq<seq<Op>>)
    requires Climbed(h, leaves, level, at, paths)
    ensures Climbed(h, leaves, Even(level), at, paths)
  {
    hide Replay;
  }

  // --- Bitcoin's own definition ------------------------------------------------------------------

  /** How many nodes the tree over n leaves has at a height. */
  function Width(n: nat, height: nat): nat {
    if height == 0 then n else (Width(n, height - 1) + 1) / 2
  }

  /**
   * The node at a height and position: the pair of the two below it, or of the left one with itself at the right edge.
   */
  function CalcHash(h: HashFn, txids: seq<Bytes>, height: nat, pos: nat): Bytes
    requires pos < Width(|txids|, height)
    decreases height
  {
    if height == 0 then txids[pos]
    else
      var left := CalcHash(h, txids, height - 1, 2 * pos);
      var right :=
        if 2 * pos + 1 < Width(|txids|, height - 1) then CalcHash(h, txids, height - 1, 2 * pos + 1) else left;
      Pair(h, left, right)
  }

  /** The lowest height with one node. */
  function TopHeight(n: nat, from: nat): (r: nat)
    requires n > 0
    ensures Width(n, r) == 1
    ensures from <= r && forall k :: from <= k < r ==> Width(n, k) != 1
    decreases Width(n, from)
  {
    WidthPositive(n, from);
    if Width(n, from) == 1 then from else TopHeight(n, from + 1)
  }

  lemma {:induction false} WidthPositive(n: nat, height: nat)
    requires n > 0
    ensures Width(n, height) > 0
  {
    if height > 0 { WidthPositive(n, height - 1); }
  }

  function MerkleRoot(h: HashFn, txids: seq<Bytes>): Bytes
    requires txids != []
  {
    CalcHash(h, txids, TopHeight(|txids|, 0), 0)
  }

  ghost predicate IsLevel(h: HashFn, txids: seq<Bytes>, height: nat, level: seq<Bytes>) {
    && |level| == Width(|txids|, height) && |level| > 0
    && forall j :: 0 <= j < |level| ==> level[j] == CalcHash(h, txids, height, j)
  }

  lemma LevelZero(h: HashFn, txids: seq<Bytes>)
    requires txids != []
    ensures IsLevel(h, txids, 0, txids)
  {
  }

  /** Pairing one level of Bitcoin's tree gives the next. */
  lemma NextLevel(h: HashFn, txids: seq<Bytes>, height: nat, level: seq<Bytes>, next: seq<Bytes>)
    requires IsLevel(h, txids, height, level) && |next| == |Even(level)| / 2
    requires Paired(h, Even(level), next, |next|)
    ensures IsLevel(h, txids, height + 1, next) && next != [] && Width(|txids|, height) == |level|
  {
    hide Pair, CalcHash;
    forall j | 0 <= j < |next| ensures next[j] == CalcHash(h, txids, height + 1, j) {
      assert Even(level)[2 * j] == level[2 * j];
      assert Even(level)[2 * j + 1] == if 2 * j + 1 < |level| then level[2 * j + 1] else level[2 * j];
      CalcHashIs(h, txids, height + 1, j);
    }
  }

  lemma CalcHashIs(h: HashFn, txids: seq<Bytes>, height: nat, pos: nat)
    requires height > 0 && pos < Width(|txids|, height)
    ensures 2 * pos < Width(|txids|, height - 1)
    ensures var left := CalcHash(h, txids, height - 1, 2 * pos);
            CalcHash(h, txids, height, pos) ==
            Pair(h, left, if 2 * pos + 1 < Width(|txids|, height - 1)
                          then CalcHash(h, txids, height - 1, 2 * pos + 1) else left)
  {
    hide Pair;
  }

  /** A level of one node, the first such, is the root. */
  lemma TopIsRoot(h: HashFn, txids: seq<Bytes>, height: nat, level: seq<Bytes>)
    requires txids != [] && IsLevel(h, txids, height, level) && |level| == 1
    requires height > 0 ==> Width(|txids|, height - 1) > 1
    ensures level[0] == MerkleRoot(h, txids)
  {
    hide CalcHash;
    var top := TopHeight(|txids|, 0);
    if top < height { StaysOne(|txids|, top, height - 1); }
    assert top == height;
  }

  lemma {:induction false} StaysOne(n: nat, low: nat, high: nat)
    requires Width(n, low) == 1 && low <= high
    ensures Width(n, high) == 1
    decreases high
  {
    if low < high { StaysOne(n, low, high - 1); }
  }

  // --- from a transaction to its block -----------------------------------------------------------

  predicate StandsAt(tx: Bytes, digest: Bytes, i: nat) {
    i + |digest| <= |tx| && tx[i..i + |digest|] == digest
  }

  /** Where a digest first stands in a serialized transaction. */
  function IndexOf(tx: Bytes, digest: Bytes, from: nat): (r: Option<nat>)
    requires from <= |tx|
    ensures r.Some? ==> from <= r.value && StandsAt(tx, digest, r.value)
    ensures forall i :: from <= i < (if r.Some? then r.value else |tx| + 1) ==> !StandsAt(tx, digest, i)
    decreases |tx| - from
  {
    if StandsAt(tx, digest, from) then Some(from)
    else if from == |tx| then None
    else IndexOf(tx, digest, from + 1)
  }

  /** The operations from a digest to the id of the transaction that holds it. */
  function TxOps(tx: Bytes, digest: Bytes, i: nat): seq<Op>
    requires i + |digest| <= |tx|
  {
    [Prepend(tx[..i])] + [Append(tx[i + |digest|..]), Sha256, Sha256]
  }

  lemma Holds(tx: Bytes, before: Bytes, digest: Bytes, after: Bytes)
    requires tx == before + digest + after
    ensures StandsAt(tx, digest, |before|)
  {
    assert tx[|before|..] == digest + after;
  }

  /**
   * make_timestamp_from_block_tx: from a digest in a transaction that the block holds, operations that replay to the
   * block's merkle root, at whichever position the transaction stands.
   */
  method MakeBlockTimestamp(h: HashFn, tx: Bytes, digest: Bytes, blockTxids: seq<Bytes>,
                            position: nat) returns (path: Option<seq<Op>>)
    requires position < |blockTxids| && blockTxids[position] == h.Twice(tx)
    ensures path.Some? <==> exists before, after :: tx == before + digest + after
    ensures path.Some? ==> Replay(h, digest, path.value) == MerkleRoot(h, blockTxids)
  {
    hide Replay, MerkleRoot, TxOps;
    var i := IndexOf(tx, digest, 0);
    if i.None? {
      forall before, after ensures tx != before + digest + after {
        if tx == before + digest + after { Holds(tx, before, digest, after); }
      }
      return None;
    }
    assert tx == tx[..i.value] + digest + tx[i.value + |digest|..];
    var root, paths := MakeMerkleTree(h, blockTxids);
    TxOpsReplay(h, tx, digest, i.value);
    ReplayThen(h, digest, TxOps(tx, digest, i.value), paths[position]);
    return Some(TxOps(tx, digest, i.value) + paths[position]);
  }

  lemma TxOpsReplay(h: HashFn, tx: Bytes, digest: Bytes, i: nat)
    requires StandsAt(tx, digest, i)
    ensures Replay(h, digest, TxOps(tx, digest, i)) == h.Twice(tx)
  {
    var before, after := tx[..i], tx[i + |digest|..];
    ReplayThen(h, digest, [Prepend(before)], [Append(after), Sha256, Sha256]);
    assert Replay(h, digest, [Prepend(before)]) == before + digest by { assert [Prepend(before)][1..] == []; }
    ThreeOps(h, before + digest, Append(after));
    assert before + digest + after == tx;
  }
}
