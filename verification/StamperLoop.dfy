/**
 * The stamper's own loops (otsserver/stamper.py: the fill in __loop, __do_bitcoin, __save_mature_trees,
 * __count_tree_records) over the fields they update, each proved to do exactly the step that module
 * Stamping defines and StampingSafety and StampingAccounts reason about.
 */
module StamperLoop {
  import opened Octets
  import opened Wrappers
  import opened ReceiptFile
  import opened Receipts
  import opened Stamping
  import opened StampingSafety
  import KnownBlocks
  import Journal

  type Hash = KnownBlocks.Hash
  type Block = KnownBlocks.Block

  class Stamper {
    const cfg: Config
    const receipts: ReceiptBook
    const knownBlocks: KnownBlocks.KnownBlocks

    // the files and the database
    var ledger: Ledger
    var db: set<Commitment>
    var watermark: nat
    var generation: Option<Generation>
    var checkpoint: Option<Checkpoint>
    var saved: map<Txid, Tree>
    // the wallet
    var sent: map<Txid, nat>
    // memory
    var pending: seq<Commitment>
    var unconfirmed: seq<Version>
    var waiting: map<nat, Tree>
    var idxs: map<Commitment, nat>
    var counted: map<Commitment, nat>
    var cursor: nat
    var unprocessed: seq<Block>

    function Stored(): Store
      reads this, receipts
    {
      Store(db, watermark, generation, checkpoint, receipts.Disk(), saved)
    }

    function Remembered(): Memory
      reads this, knownBlocks
    {
      Memory(pending, unconfirmed, waiting, idxs, counted, cursor, knownBlocks.blocks, unprocessed)
    }

    ghost function Now(): State
      reads this, receipts, knownBlocks
    {
      State(ledger, Stored(), sent, Some(Remembered()))
    }

    /** The object is at the state `s`; a state without memory is one the process stopped in. */
    ghost predicate At(s: State, stopped: bool)
      reads this, receipts, knownBlocks
    {
      && ledger == s.ledger && Stored() == s.store && sent == s.sent
      && stopped == s.memory.None? && (!stopped ==> Remembered() == s.memory.value)
    }

    ghost predicate Valid()
      reads this, receipts, knownBlocks
    {
      cfg.codec.Sound() && cfg.minConfirmations > 1 && receipts.codec == cfg.codec && Inv(cfg, Now())
    }

    /** A start whose storage check and settling succeeded. */
    constructor (cfg: Config, receipts: ReceiptBook, knownBlocks: KnownBlocks.KnownBlocks, s: State)
      requires s.memory.Some? && receipts.Disk() == s.store.books && knownBlocks.blocks == s.memory.value.known
      ensures At(s, false)
      ensures this.cfg == cfg && this.receipts == receipts && this.knownBlocks == knownBlocks
    {
      this.cfg, this.receipts, this.knownBlocks := cfg, receipts, knownBlocks;
      ledger, sent := s.ledger, s.sent;
      db, watermark, generation := s.store.db, s.store.watermark, s.store.generation;
      checkpoint, saved := s.store.checkpoint, s.store.saved;
      var m := s.memory.value;
      pending, unconfirmed, waiting, idxs := m.pending, m.unconfirmed, m.waiting, m.idxs;
      counted, cursor, unprocessed := m.counted, m.cursor, m.unprocessed;
    }

    /**
     * The fill: journal entries the database lacks become pending, until enough are, or the journal or the reads end.
     */
    method FillPending(ok: nat, unreadable: set<nat>)
      modifies this`pending, this`idxs, this`counted, this`cursor
      ensures Remembered() == Fill(cfg, ledger, db, old(Remembered()), ok, unreadable)
    {
      hide FillOne;
      ghost var start := Remembered();
      var left := ok;
      while |pending| < cfg.maxPending && cursor < |ledger.journal| && left > 0
        invariant Fill(cfg, ledger, db, Remembered(), left, unreadable) == Fill(cfg, ledger, db, start, ok, unreadable)
        decreases left
      {
        FillNext(cursor !in unreadable);
        left := left - 1;
      }
    }

    /**
     * One journal entry: skipped if the database holds it, else pending, with its index and its count if that reads.
     */
    method FillNext(countReadable: bool)
      requires cursor < |ledger.journal|
      modifies this`pending, this`idxs, this`counted, this`cursor
      ensures Remembered() == FillOne(ledger, db, old(Remembered()), countReadable)
    {
      hide Journal.Get;
      var commitment := ledger.journal[cursor];
      if commitment !in db {
        if commitment !in pending { pending := pending + [commitment]; }
        if commitment !in idxs { idxs := idxs[commitment := cursor]; }
        if countReadable {
          var count := Journal.Get(ledger.counts, cursor);
          if count.Some? { counted := counted[commitment := count.value]; }
        }
      }
      cursor := cursor + 1;
    }

    /** A reorged tree's commitments added back one by one. */
    method AddBack(commitments: seq<Commitment>)
      modifies this`pending
      ensures pending == AddAll(old(pending), commitments)
    {
      var i := 0;
      while i < |commitments|
        invariant 0 <= i <= |commitments|
        invariant AddAll(pending, commitments[i..]) == AddAll(old(pending), commitments)
      {
        assert commitments[i..][0] == commitments[i] && commitments[i..][1..] == commitments[i + 1..];
        if commitments[i] !in pending { pending := pending + [commitments[i]]; }
        i := i + 1;
      }
    }

    /** The newest unconfirmed version found in a block, searched from the newest back. */
    method FindMined(txids: set<Txid>) returns (found: Option<Version>)
      ensures found == Mined(unconfirmed, txids)
    {
      var i := |unconfirmed|;
      assert unconfirmed[..i] == unconfirmed;
      while i > 0
        invariant 0 <= i <= |unconfirmed|
        invariant Mined(unconfirmed[..i], txids) == Mined(unconfirmed, txids)
      {
        i := i - 1;
        assert unconfirmed[..i + 1][..i] == unconfirmed[..i];
        if unconfirmed[i].txid in txids { return Some(unconfirmed[i]); }
      }
      return None;
    }

    /** The queue of owed blocks, oldest first, until it is empty or a body cannot be read. */
    method ReadBlocks(bodies: map<Hash, set<Txid>>) returns (progress: Progress)
      modifies this`pending, this`unconfirmed, this`waiting, this`unprocessed
      ensures (Remembered(), progress) == ProcessBlocks(cfg, old(Remembered()), bodies)
    {
      hide ProcessBlock;
      ghost var start := Remembered();
      while unprocessed != []
        invariant ProcessBlocks(cfg, Remembered(), bodies) == ProcessBlocks(cfg, start, bodies)
        decreases |unprocessed|
      {
        progress := ReadBlock(bodies);
        if progress != Done { return; }
      }
      return Done;
    }

    method ReadBlock(bodies: map<Hash, set<Txid>>) returns (progress: Progress)
      requires unprocessed != []
      modifies this`pending, this`unconfirmed, this`waiting, this`unprocessed
      ensures (Remembered(), progress) == ProcessBlock(cfg, old(Remembered()), bodies)
      ensures progress == Done ==> |unprocessed| < |old(unprocessed)|
    {
      var block := unprocessed[0];
      if block.height in waiting {
        var reorged := waiting[block.height];
        waiting := waiting - {block.height};
        AddBack(reorged.commitments);
      }
      if block.hash !in bodies { return Owed; }
      var mined := FindMined(bodies[block.hash]);
      if mined.Some? {
        var v := mined.value;
        var commitments := Take(pending, v.n);
        if cfg.tipOf(commitments) != v.tip { return AssertionFailed; }
        pending := pending[|commitments|..];
        waiting := waiting[block.height := Tree(v.txid, commitments, v.fee, block.height, v.records, block.hash)];
        unconfirmed := [];
      }
      unprocessed := unprocessed[1..];
      return Done;
    }

    /** What the database holds once a save's batch landed: the tree's timestamps and the watermark, together. */
    method Land(tree: Tree, mark: nat)
      modifies this`db, this`watermark, this`saved
      ensures Stored() == Landed(old(Stored()), tree, mark, old(receipts.Disk()))
    {
      db := db + (set c | c in tree.commitments);
      watermark := mark;
      saved := saved[tree.txid := tree];
    }

    /** Only once its save has returned does a tree leave memory, with its counts and its indexes. */
    method Release(height: nat)
      requires height in waiting
      modifies this`waiting, this`counted, this`idxs
      ensures Remembered() == Released(old(Remembered()), height)
    {
      var stored := set c | c in waiting[height].commitments;
      waiting := waiting - {height};
      counted := counted - stored;
      idxs := idxs - stored;
    }

    /** The calendar save of one tree between its marker and its receipt line. */
    method SaveTimestamps(tree: Tree, mark: nat, plan: SavePlan) returns (end: SaveEnd)
      requires cfg.codec.Sound() && receipts.codec == cfg.codec
      requires Coherent(cfg.codec, receipts.Disk()) && tree.txid !in receipts.anchors
      modifies this`db, this`watermark, this`saved, receipts
      ensures (receipts.Disk(), end) ==
              Save(cfg.codec, old(receipts.Disk()), ReceiptOf(tree, plan.at),
                   Listed(old(receipts.Disk()), plan.order), plan.script)
      ensures Stored() == if tree.txid in receipts.anchors then Landed(old(Stored()), tree, mark, receipts.Disk())
                          else old(Stored()).(books := receipts.Disk())
    {
      hide Coherent, Save, Listed, Codec.Sound;
      end := receipts.SaveConfirmed(ReceiptOf(tree, plan.at), Listed(receipts.Disk(), plan.order), plan.script);
      if tree.txid in receipts.anchors { Land(tree, mark); }
    }

    /** One due tree; `stopped` when the process stopped in its save. */
    method SaveDueTree(height: nat, plan: SavePlan) returns (stopped: bool)
      requires height in waiting && cfg.codec.Sound() && receipts.codec == cfg.codec
      requires Coherent(cfg.codec, receipts.Disk()) && waiting[height].txid !in receipts.anchors
      modifies this`db, this`watermark, this`saved, this`checkpoint, this`waiting, this`counted, this`idxs, receipts
      ensures (Stored(), if stopped then None else Some(Remembered()))
              == SaveTree(cfg, old(Stored()), old(Remembered()), height, plan)
    {
      hide Coherent, Save, Listed, CheckpointAfter, Codec.Sound, Released, Landed, ReceiptOf;
      var tree := waiting[height];
      var mark := CheckpointAfter(Remembered(), tree);
      var end := SaveTimestamps(tree, mark, plan);
      if end == Stopped { return true; }
      if end == Kept { return false; }
      Release(height);
      if Lands(plan.checkpoint) { checkpoint := Some(Checkpoint(mark, generation)); }
      return plan.checkpoint.Stops?;
    }

    /** Every mined tree deep enough is tried once, lowest first; one that fails does not stop the others. */
    method SaveMatureTrees(plans: seq<SavePlan>) returns (stopped: bool)
      requires Valid() && unprocessed == []
      modifies this`db, this`watermark, this`saved, this`checkpoint, this`waiting, this`counted, this`idxs, receipts
      ensures (Stored(), if stopped then None else Some(Remembered()))
              == SaveMature(cfg, old(Stored()), old(Remembered()), plans)
    {
      hide StoreOk, MemoryOk, Coherent, SaveTree, MatureBound, Codec.Sound;
      ghost var store, memory := Stored(), Remembered();
      var due := Due(waiting, MatureBound(cfg, knownBlocks.blocks));
      var i := 0;
      while i < |due|
        invariant 0 <= i <= |due| && i <= |plans|
        invariant StoreOk(cfg, ledger, Stored(), sent) && MemoryOk(cfg, ledger, Stored(), sent, Remembered())
        invariant forall k :: i <= k < |due| ==> due[k] in waiting
        invariant SaveTrees(cfg, Stored(), Remembered(), due[i..], plans[i..])
                  == SaveTrees(cfg, store, memory, due, plans)
      {
        if i == |plans| { return true; }
        assert due[i..][1..] == due[i + 1..] && plans[i..][1..] == plans[i + 1..];
        ghost var before := Remembered();
        SaveTreeKeeps(cfg, ledger, Stored(), sent, before, due[i], plans[i]);
        NotYetSaved(cfg, ledger, Stored(), sent, before, due[i]);
        stopped := SaveDueTree(due[i], plans[i]);
        if stopped { return; }
        assert LeftOk(before, due[i], Some(Remembered()));
        i := i + 1;
      }
      return false;
    }

    /** __count_tree_records: counts remembered, or read again, or holes that sum as nothing. */
    method CountTreeRecords(commitments: seq<Commitment>, unreadable: set<nat>) returns (records: nat)
      modifies this`counted
      ensures records == CountTree(ledger, old(Remembered()), commitments, unreadable)
      ensures counted == CountedAtClose(ledger, old(Remembered()), commitments, unreadable)
    {
      hide Journal.Get, CountTree, CountedAtClose;
      ghost var start := Remembered();
      CountNone(ledger, start, unreadable);
      records := 0;
      var i := 0;
      assert commitments[..0] == [];
      while i < |commitments|
        invariant 0 <= i <= |commitments|
        invariant records == CountTree(ledger, start, commitments[..i], unreadable)
        invariant counted == CountedAtClose(ledger, start, commitments[..i], unreadable)
      {
        var c := commitments[i];
        SumOneMore(ledger, start, commitments[..i], c, unreadable);
        CountFound(ledger, start, commitments[..i], c, unreadable);
        CountOneMore(ledger, start, commitments[..i], c, unreadable);
        assert commitments[..i + 1] == commitments[..i] + [c];
        var count := if c in counted then Some(counted[c]) else None;
        if count.None? && c in idxs && idxs[c] !in unreadable {
          count := Journal.Get(ledger.counts, idxs[c]);
          if count.Some? { counted := counted[c := count.value]; }
        }
        if count.Some? { records := records + count.value; }
        i := i + 1;
      }
      assert commitments[..i] == commitments;
    }

    /** The end of a pass: nothing to send, or the tree closed over all of pending and a version out or refused. */
    method SendAnchor(newBlocks: bool, how: Sending) returns (stopped: bool)
      modifies this`counted, this`unconfirmed, this`sent
      ensures var (wallet, left) := Send(cfg, ledger, old(sent), old(Remembered()), newBlocks, how);
              sent == wallet && stopped == left.None? && (!stopped ==> Remembered() == left.value)
    {
      hide CountTree, CountedAtClose;
      if !newBlocks && unconfirmed != [] { return false; }
      if how.NotNow? || pending == [] { return false; }
      var tip := cfg.tipOf(pending);
      var records := CountTreeRecords(pending, how.unreadable);
      match how
      case Refused(_) => return false;
      case Abandoned(_) =>
        unconfirmed := [];
        return false;
      case Sent(txid, fee, _) =>
        sent := sent[txid := records];
        unconfirmed := unconfirmed + [Version(txid, tip, |pending|, fee, records, pending)];
        return false;
      case SentThenStopped(txid, _, _) =>
        sent := sent[txid := records];
        return true;
    }

    /** The headers of one discovery, queued as blocks owed; a discovery that raises leaves everything as it was. */
    method Discover(node: KnownBlocks.Node) returns (news: Option<seq<Block>>)
      requires KnownBlocks.Consistent(knownBlocks.blocks, node.chain)
      modifies this`unprocessed, knownBlocks, node
      ensures news.None? ==> Remembered() == old(Remembered())
      ensures news.Some? ==> Remembered() == Observe(old(Remembered()), node.chain)
      ensures news.Some? ==> news.value == KnownBlocks.NewBlocks(old(knownBlocks.blocks), node.chain)
      ensures old(node.answers) > |old(knownBlocks.blocks)| + 4 * |node.chain| + 5 ==> news.Some?
    {
      hide KnownBlocks.Consistent, KnownBlocks.NewBlocks, KnownBlocks.Discovered;
      news := knownBlocks.UpdateFromProxy(node);
      if news.Some? {
        if news.value != [] { unprocessed := Below(unprocessed, news.value[0].height); }
        unprocessed := unprocessed + news.value;
      }
    }

    /** A pass once no block is owed: the mature trees, then the send. */
    method SaveAndSend(plans: seq<SavePlan>, newBlocks: bool, sending: Sending) returns (stopped: bool)
      requires Valid() && unprocessed == []
      modifies this, receipts
      ensures ledger == old(ledger)
      ensures var (store, swept) := SaveMature(cfg, old(Stored()), old(Remembered()), plans);
              At(if swept.None? then State(ledger, store, old(sent), None)
                 else var (wallet, left) := Send(cfg, ledger, old(sent), swept.value, newBlocks, sending);
                      State(ledger, store, wallet, left), stopped)
    {
      hide StoreOk, MemoryOk, SaveMature, Send, Coherent, Codec.Sound, Inv;
      stopped := SaveMatureTrees(plans);
      if stopped { return true; }
      stopped := SendAnchor(newBlocks, sending);
    }

    /** __do_bitcoin; the node answers `node.answers` reads of this pass's discovery and then raises. */
    method DoBitcoinPass(node: KnownBlocks.Node, bodies: map<Hash, set<Txid>>, plans: seq<SavePlan>, sending: Sending)
      returns (discovered: bool, stopped: bool)
      requires Valid() && Shallow(knownBlocks.blocks, node.chain) && NewTxid(sent, sending)
      modifies this, receipts, knownBlocks, node
      ensures At(DoBitcoin(cfg, old(Now()),
                           Pass(if discovered then Some(node.chain) else None, bodies, plans, sending)), stopped)
      ensures old(node.answers) > |old(knownBlocks.blocks)| + 4 * |node.chain| + 5 ==> discovered
    {
      hide StoreOk, MemoryOk, Shallow, ProcessBlocks, SaveMature, Send, Coherent, Codec.Sound, Observe;
      hide KnownBlocks.Consistent, KnownBlocks.NewBlocks;
      ghost var before := Now();
      ReadKeeps(cfg, before, node.chain, bodies);
      ConsistentOf(knownBlocks.blocks, node.chain);
      var news := Discover(node);
      discovered := news.Some?;
      if !discovered { return false, false; }
      var progress := ReadBlocks(bodies);
      if progress != Done { return true, false; }
      stopped := SaveAndSend(plans, news.value != [], sending);
    }
  }

  /** What discovery and the blocks leave for the saves. */
  lemma ReadKeeps(cfg: Config, s: State, chain: KnownBlocks.Chain, bodies: map<Hash, set<Txid>>)
    requires cfg.codec.Sound() && cfg.minConfirmations > 1 && Inv(cfg, s) && s.memory.Some?
    requires Shallow(s.memory.value.known, chain)
    ensures var (read, progress) := ProcessBlocks(cfg, Observe(s.memory.value, chain), bodies);
            MemoryOk(cfg, s.ledger, s.store, s.sent, read) && (progress == Done ==> read.unprocessed == [])
  {
    hide StoreOk, MemoryOk, ProcessBlocks, Shallow, Observe;
    ObserveKeeps(cfg, s.ledger, s.store, s.sent, s.memory.value, chain);
    ProcessBlocksKeeps(cfg, s.ledger, s.store, s.sent, Observe(s.memory.value, chain), bodies);
  }

  /** Before any commitment is counted nothing is summed and nothing new is remembered. */
  lemma CountNone(l: Ledger, m: Memory, unreadable: set<nat>)
    ensures CountTree(l, m, [], unreadable) == 0 && CountedAtClose(l, m, [], unreadable) == m.counted
  {
  }

  /** What one more commitment adds to a tree's sum. */
  lemma SumOneMore(l: Ledger, m: Memory, cs: seq<Commitment>, c: Commitment, unreadable: set<nat>)
    ensures var count := CountAtClose(l, m, c, unreadable);
            CountTree(l, m, cs + [c], unreadable)
              == CountTree(l, m, cs, unreadable) + (if count.Some? then count.value else 0)
  {
    hide CountAtClose;
    assert (cs + [c])[..|cs|] == cs;
  }

  /** A count already remembered is the one a close would use; one not remembered is read again. */
  lemma CountFound(l: Ledger, m: Memory, cs: seq<Commitment>, c: Commitment, unreadable: set<nat>)
    ensures var counted, count := CountedAtClose(l, m, cs, unreadable), CountAtClose(l, m, c, unreadable);
            && (c in counted ==> count == Some(counted[c]))
            && (c !in counted ==>
                  count == if c in m.idxs && m.idxs[c] !in unreadable then Journal.Get(l.counts, m.idxs[c]) else None)
  {
    hide Journal.Get;
  }

  /** What one more commitment adds to the counts remembered. */
  lemma CountOneMore(l: Ledger, m: Memory, cs: seq<Commitment>, c: Commitment, unreadable: set<nat>)
    ensures var counted, count := CountedAtClose(l, m, cs, unreadable), CountAtClose(l, m, c, unreadable);
            CountedAtClose(l, m, cs + [c], unreadable) == (if count.Some? then counted[c := count.value] else counted)
  {
    hide CountAtClose, Journal.Get;
    var at := CountAtClose(l, m, c, unreadable);
    var more, counted := CountedAtClose(l, m, cs + [c], unreadable), CountedAtClose(l, m, cs, unreadable);
    forall k ensures k in more <==> k in counted || (k == c && at.Some?) {
      assert k in cs + [c] <==> k in cs || k == c;
    }
    if c in m.counted { CountedIs(l, m, c, unreadable); }
    forall k | k in counted ensures more[k] == if k == c && at.Some? then at.value else counted[k] {
      assert k in cs + [c] <==> k in cs || k == c;
    }
  }

  lemma CountedIs(l: Ledger, m: Memory, c: Commitment, unreadable: set<nat>)
    requires c in m.counted
    ensures CountAtClose(l, m, c, unreadable) == Some(m.counted[c])
  {
  }

  lemma ConsistentOf(blocks: seq<Block>, chain: KnownBlocks.Chain)
    requires Shallow(blocks, chain)
    ensures KnownBlocks.Consistent(blocks, chain)
  {
  }
}
