/**
 * The stamper's view of the chain (otsserver/stamper.py, class KnownBlocks): a list of remembered
 * blocks that one discovery rolls back to the fork point and extends to the node's tip, all or nothing.
 */
module KnownBlocks {
  import opened Wrappers

  type Hash = seq<int>

  datatype Block = Block(height: nat, hash: Hash)

  /** The node's best chain during one discovery: block hashes by height, genesis first. */
  type Chain = c: seq<Hash> | |c| > 0 witness [[]]

  predicate OnChain(chain: Chain, b: Block) {
    b.height < |chain| && chain[b.height] == b.hash
  }

  /**
   * What a block hash is: it names one block, hence one height and one ancestry. A chain never repeats
   * a hash, a remembered hash is at its own height, and agreeing with a remembered block means agreeing
   * with every block remembered below it.
   */
  ghost predicate Consistent(blocks: seq<Block>, chain: Chain) {
    && (forall i, j :: 0 <= i < j < |chain| ==> chain[i] != chain[j])
    && (forall k, i :: 0 <= k < |blocks| && 0 <= i < |chain| && chain[i] == blocks[k].hash ==> i == blocks[k].height)
    && (forall j, k :: 0 <= j < k < |blocks| && OnChain(chain, blocks[k]) ==> OnChain(chain, blocks[j]))
  }

  /** The blocks kept: the longest prefix that is empty or ends in a block of the node's chain. */
  function RollBack(blocks: seq<Block>, chain: Chain): (kept: seq<Block>)
    ensures kept <= blocks
    ensures kept != [] ==> OnChain(chain, kept[|kept| - 1])
    ensures forall k :: |kept| <= k < |blocks| ==> !OnChain(chain, blocks[k])
  {
    if blocks == [] || OnChain(chain, blocks[|blocks| - 1]) then blocks
    else RollBack(blocks[..|blocks| - 1], chain)
  }

  /** The node's blocks from a height up. */
  function From(chain: Chain, height: nat): (r: seq<Block>)
    requires height <= |chain|
    ensures |r| == |chain| - height
    ensures forall k :: 0 <= k < |r| ==> r[k].height == height + k && OnChain(chain, r[k])
  {
    seq(|chain| - height, (i: nat) requires i < |chain| - height => Block(height + i, chain[height + i]))
  }

  /** The blocks one discovery returns: everything above the fork point, or the tip alone when nothing is kept. */
  function NewBlocks(blocks: seq<Block>, chain: Chain): seq<Block> {
    var kept := RollBack(blocks, chain);
    if kept == [] then From(chain, |chain| - 1) else From(chain, kept[|kept| - 1].height + 1)
  }

  function Discovered(blocks: seq<Block>, chain: Chain): seq<Block> {
    RollBack(blocks, chain) + NewBlocks(blocks, chain)
  }

  /** After a discovery every remembered block is the node's block at its height, and the last is its tip. */
  lemma DiscoveredIsOnChain(blocks: seq<Block>, chain: Chain)
    requires Consistent(blocks, chain)
    ensures var known := Discovered(blocks, chain);
            && known != [] && known[|known| - 1] == Block(|chain| - 1, chain[|chain| - 1])
            && forall k :: 0 <= k < |known| ==> OnChain(chain, known[k])
  {
    var kept, news := RollBack(blocks, chain), NewBlocks(blocks, chain);
    var known := Discovered(blocks, chain);
    forall k | 0 <= k < |known| ensures OnChain(chain, known[k]) {
      if k < |kept| {
        assert known[k] == blocks[k];
        if k < |kept| - 1 {
          assert OnChain(chain, blocks[|kept| - 1]);
        }
      } else {
        assert known[k] == news[k - |kept|];
      }
    }
    if news == [] {
      assert known == kept;
    } else {
      assert known[|known| - 1] == news[|news| - 1];
    }
  }

  datatype Reply<+T> = Raised | NoSuchHeight | Answer(value: T)

  /** The node as one discovery sees it: one chain, and reads that start raising at a moment nobody chooses. */
  class Node {
    const chain: Chain
    var answers: nat // answers left before every read raises

    constructor (chain: Chain, answers: nat)
      ensures this.chain == chain && this.answers == answers
    {
      this.chain, this.answers := chain, answers;
    }

    method GetBlockCount() returns (r: Reply<nat>)
      modifies this
      ensures old(answers) == 0 ==> r == Raised && answers == 0
      ensures old(answers) > 0 ==> r == Answer(|chain| - 1) && answers == old(answers) - 1
    {
      if answers == 0 { return Raised; }
      answers := answers - 1;
      return Answer(|chain| - 1);
    }

    method GetBestBlockHash() returns (r: Reply<Hash>)
      modifies this
      ensures old(answers) == 0 ==> r == Raised && answers == 0
      ensures old(answers) > 0 ==> r == Answer(chain[|chain| - 1]) && answers == old(answers) - 1
    {
      if answers == 0 { return Raised; }
      answers := answers - 1;
      return Answer(chain[|chain| - 1]);
    }

    method GetBlockHash(height: nat) returns (r: Reply<Hash>)
      modifies this
      ensures old(answers) == 0 ==> r == Raised && answers == 0
      ensures old(answers) > 0 ==> answers == old(answers) - 1
      ensures old(answers) > 0 ==> r == if height < |chain| then Answer(chain[height]) else NoSuchHeight
    {
      if answers == 0 { return Raised; }
      answers := answers - 1;
      return if height < |chain| then Answer(chain[height]) else NoSuchHeight;
    }
  }

  class KnownBlocks {
    var blocks: seq<Block>

    constructor ()
      ensures blocks == []
    {
      blocks := [];
    }

    /** Pops remembered blocks until the newest is on the node's chain; false when a read raised. */
    method DetectReorgs(node: Node) returns (ok: bool)
      modifies this, node
      ensures ok ==> blocks == RollBack(old(blocks), node.chain)
      ensures ok ==> node.answers + (|old(blocks)| - |blocks|) + 1 >= old(node.answers)
      ensures old(node.answers) > |old(blocks)| - |RollBack(old(blocks), node.chain)| ==> ok
    {
      while blocks != []
        invariant blocks <= old(blocks)
        invariant RollBack(blocks, node.chain) == RollBack(old(blocks), node.chain)
        invariant |RollBack(old(blocks), node.chain)| <= |blocks|
        invariant node.answers + (|old(blocks)| - |blocks|) == old(node.answers)
        decreases |blocks|
      {
        var last := blocks[|blocks| - 1];
        var reply := node.GetBlockHash(last.height);
        if reply == Raised { return false; }
        if reply == Answer(last.hash) { break; }
        blocks := blocks[..|blocks| - 1];
      }
      return true;
    }

    /** One turn of the discovery: roll back, then read the block at the height after the newest kept. */
    method NextBlock(node: Node) returns (reply: Reply<Block>)
      modifies this, node
      ensures reply != Raised ==> blocks == RollBack(old(blocks), node.chain)
      ensures reply != Raised ==> var height := NextHeight(blocks, node.chain);
              if height < |node.chain| then reply == Answer(Block(height, node.chain[height]))
              else reply == NoSuchHeight
      ensures var pops := |old(blocks)| - |RollBack(old(blocks), node.chain)|;
              if reply == Raised then old(node.answers) <= pops + 2 else node.answers + pops + 3 >= old(node.answers)
    {
      var ok := DetectReorgs(node);
      if !ok { return Raised; }
      var height: nat;
      if blocks != [] {
        height := blocks[|blocks| - 1].height + 1;
      } else {
        var count := node.GetBlockCount();
        if count == Raised { return Raised; }
        height := count.value;
      }
      var hash := node.GetBlockHash(height);
      match hash
      case Raised => return Raised;
      case NoSuchHeight => return NoSuchHeight;
      case Answer(h) => return Answer(Block(height, h));
    }

    /**
     * One discovery. It ends for every chain; a read that raises anywhere leaves the remembered blocks
     * as they were and returns nothing; otherwise it returns exactly the node's blocks above the fork
     * point. It fails only when a read did: as many answers as blocks to look at always suffice.
     */
    method UpdateFromProxy(node: Node) returns (r: Option<seq<Block>>)
      requires Consistent(blocks, node.chain)
      modifies this, node
      ensures r.None? ==> blocks == old(blocks)
      ensures r.Some? ==> r.value == NewBlocks(old(blocks), node.chain) && blocks == Discovered(old(blocks), node.chain)
      ensures old(node.answers) > |old(blocks)| + 4 * |node.chain| + 5 ==> r.Some?
    {
      ghost var start, chain := blocks, node.chain;
      ghost var first := true;
      var known := blocks;
      var found: seq<Block> := [];
      while true
        invariant node.chain == chain && known == start
        invariant first ==> blocks == start && found == []
        invariant !first ==>
                    found <= NewBlocks(start, chain) && blocks == RollBack(start, chain) + found && blocks != []
        invariant |found| <= |NewBlocks(start, chain)| <= |chain|
        invariant old(node.answers) <= node.answers + (if first then 0 else |start| + 4 + 4 * |found|)
        decreases |NewBlocks(start, chain)| - |found| + (if first then 1 else 0)
      {
        if blocks != [] {
          var best := node.GetBestBlockHash();
          if best == Raised { blocks := known; return None; }
          if best == Answer(blocks[|blocks| - 1].hash) {
            TipReached(start, chain, blocks, found, first);
            return Some(found);
          }
          MoreToFind(start, chain, blocks, found, first);
        }
        RollBackAgain(start, chain, found);
        var reply := NextBlock(node);
        if reply == Raised { blocks := known; return None; }
        first := false;
        if reply == NoSuchHeight {
          NoneFound(start, chain, blocks, found);
          continue;
        }
        NextFound(start, chain, blocks, found);
        blocks := blocks + [reply.value];
        found := found + [reply.value];
      }
    }
  }

  /** The height a discovery reads next: above the newest kept block, or the tip when none is kept. */
  function NextHeight(blocks: seq<Block>, chain: Chain): nat {
    if blocks != [] then blocks[|blocks| - 1].height + 1 else |chain| - 1
  }

  /** Where the loop looks next is where the next wanted block is. */
  lemma NextFound(start: seq<Block>, chain: Chain, blocks: seq<Block>, found: seq<Block>)
    requires found <= NewBlocks(start, chain) && blocks == RollBack(start, chain) + found
    requires NextHeight(blocks, chain) < |chain|
    ensures var next := Block(NextHeight(blocks, chain), chain[NextHeight(blocks, chain)]);
            && |found| < |NewBlocks(start, chain)|
            && found + [next] <= NewBlocks(start, chain)
            && blocks + [next] == RollBack(start, chain) + (found + [next])
  {
    var wanted, height := NewBlocks(start, chain), NextHeight(blocks, chain);
    if found != [] {
      assert blocks[|blocks| - 1] == wanted[|found| - 1];
    } else {
      assert blocks == RollBack(start, chain);
    }
    assert wanted[|found|] == Block(height, chain[height]);
  }

  /** A height past the node's tip is met only when nothing is wanted. */
  lemma NoneFound(start: seq<Block>, chain: Chain, blocks: seq<Block>, found: seq<Block>)
    requires found <= NewBlocks(start, chain) && blocks == RollBack(start, chain) + found
    requires NextHeight(blocks, chain) >= |chain|
    ensures found == NewBlocks(start, chain) && blocks != []
  {
    var wanted := NewBlocks(start, chain);
    if found != [] {
      assert blocks[|blocks| - 1] == wanted[|found| - 1];
    } else {
      assert blocks == RollBack(start, chain);
    }
  }

  /** Rolling back a list that already ends on the chain changes nothing. */
  lemma RollBackAgain(start: seq<Block>, chain: Chain, found: seq<Block>)
    requires found <= NewBlocks(start, chain)
    ensures var kept := RollBack(start, chain);
            RollBack(kept + found, chain) == kept + found
  {
    var kept, wanted := RollBack(start, chain), NewBlocks(start, chain);
    var all := kept + found;
    if all != [] {
      if found != [] {
        assert all[|all| - 1] == wanted[|found| - 1];
      } else {
        assert all == kept;
      }
      assert OnChain(chain, all[|all| - 1]);
    }
  }

  /** The loop's test fails only when everything above the fork point has been found. */
  lemma TipReached(start: seq<Block>, chain: Chain, blocks: seq<Block>, found: seq<Block>, first: bool)
    requires Consistent(start, chain) && blocks != [] && chain[|chain| - 1] == blocks[|blocks| - 1].hash
    requires if first then blocks == start && found == []
             else found <= NewBlocks(start, chain) && blocks == RollBack(start, chain) + found
    ensures found == NewBlocks(start, chain) && blocks == Discovered(start, chain)
  {
    var kept, wanted := RollBack(start, chain), NewBlocks(start, chain);
    if first {
      assert kept == start;
      assert wanted == [];
      assert Discovered(start, chain) == start;
    } else if found == [] {
      assert blocks == kept;
      assert wanted == [];
    } else {
      assert blocks[|blocks| - 1] == wanted[|found| - 1];
    }
  }

  /** After the first look, a tip not yet reached is a block still to find. */
  lemma MoreToFind(start: seq<Block>, chain: Chain, blocks: seq<Block>, found: seq<Block>, first: bool)
    requires Consistent(start, chain) && blocks != [] && chain[|chain| - 1] != blocks[|blocks| - 1].hash
    requires !first ==> found <= NewBlocks(start, chain) && blocks == RollBack(start, chain) + found
    ensures !first ==> found != NewBlocks(start, chain)
  {
    if !first && found == NewBlocks(start, chain) {
      DiscoveredIsOnChain(start, chain);
    }
  }
}
