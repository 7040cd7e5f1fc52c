/**
 * What the stamper's steps achieve when nothing fails in them (otsserver/stamper.py): a fill reads on, every owed block
 * is read, a mined version's commitments wait in its tree, and every tree deep enough is stored, receipted and let go.
 */
module StampingProgress {
  import opened Octets
  import opened Wrappers
  import opened KnownBlocks
  import opened ReceiptFile
  import opened Receipts
  import opened Stamping
  import opened StampingSafety
  import opened Billing
  import opened StampingReceipts
  import Journal

  /** With reads enough, a fill stops only at the journal's end or at the most that may be pending. */
  lemma {:induction false} FullFillReads(cfg: Config, l: Ledger, db: set<Commitment>, m: Memory, ok: nat,
                                         unreadable: set<nat>)
    requires m.cursor <= |l.journal| && ok >= |l.journal| - m.cursor
    ensures var filled := Fill(cfg, l, db, m, ok, unreadable);
            filled.cursor == |l.journal| || |filled.pending| >= cfg.maxPending
    decreases ok
  {
    hide FillOne;
    if |m.pending| < cfg.maxPending && m.cursor < |l.journal| && ok > 0 {
      OneOn(l, db, m, m.cursor !in unreadable);
      FullFillReads(cfg, l, db, FillOne(l, db, m, m.cursor !in unreadable), ok - 1, unreadable);
    }
  }

  /** No fill leaves more pending than may be, unless more already was. */
  lemma {:induction false} FillWithinCap(cfg: Config, l: Ledger, db: set<Commitment>, m: Memory, ok: nat,
                                         unreadable: set<nat>)
    ensures var filled := Fill(cfg, l, db, m, ok, unreadable);
            m.pending <= filled.pending && (|filled.pending| <= cfg.maxPending || filled.pending == m.pending)
    decreases ok
  {
    hide Journal.Get;
    if |m.pending| < cfg.maxPending && m.cursor < |l.journal| && ok > 0 {
      FillWithinCap(cfg, l, db, FillOne(l, db, m, m.cursor !in unreadable), ok - 1, unreadable);
    }
  }

  lemma OneOn(l: Ledger, db: set<Commitment>, m: Memory, countReadable: bool)
    requires m.cursor < |l.journal|
    ensures FillOne(l, db, m, countReadable).cursor == m.cursor + 1
  {
  }

  /** When every owed body can be read, none is owed afterwards. */
  lemma {:induction false} AllBodiesRead(cfg: Config, l: Ledger, st: Store, sent: map<Txid, nat>, m: Memory,
                                         bodies: map<Hash, set<Txid>>)
    requires MemoryOk(cfg, l, st, sent, m) && forall b :: b in m.unprocessed ==> b.hash in bodies
    ensures ProcessBlocks(cfg, m, bodies).1 == Done && ProcessBlocks(cfg, m, bodies).0.unprocessed == []
    decreases |m.unprocessed|
  {
    hide MemoryOk, ProcessBlock;
    if m.unprocessed != [] {
      ProcessBlockKeeps(cfg, l, st, sent, m, bodies);
      BodyReads(cfg, m, bodies);
      var (next, progress) := ProcessBlock(cfg, m, bodies);
      AllBodiesRead(cfg, l, st, sent, next, bodies);
    }
  }

  lemma BodyReads(cfg: Config, m: Memory, bodies: map<Hash, set<Txid>>)
    requires m.unprocessed != [] && m.unprocessed[0].hash in bodies && ProcessBlock(cfg, m, bodies).1 != AssertionFailed
    ensures ProcessBlock(cfg, m, bodies).1 == Done && ProcessBlock(cfg, m, bodies).0.unprocessed == m.unprocessed[1..]
  {
    hide Mined, Take, AddAll;
  }

  /**
   * A block with the newest version in it: the commitments that version was built over leave pending for a tree at its
   * height.
   */
  lemma MinedWaits(cfg: Config, l: Ledger, st: Store, sent: map<Txid, nat>, m: Memory, bodies: map<Hash, set<Txid>>)
    requires MemoryOk(cfg, l, st, sent, m) && m.unprocessed != [] && m.unprocessed[0].hash in bodies
    requires m.unconfirmed != []
    requires m.unconfirmed[|m.unconfirmed| - 1].txid in bodies[m.unprocessed[0].hash]
    ensures var (next, progress) := ProcessBlock(cfg, m, bodies);
            var v, b := m.unconfirmed[|m.unconfirmed| - 1], m.unprocessed[0];
            && progress == Done && next.unconfirmed == []
            && b.height in next.waiting
            && next.waiting[b.height] == Tree(v.txid, v.over, v.fee, b.height, v.records, b.hash)
            && v.over + next.pending == PutBack(m, b.height).pending
  {
    hide MemoryOk, PutBack, Take;
    var v, b := m.unconfirmed[|m.unconfirmed| - 1], m.unprocessed[0];
    assert v in m.unconfirmed;
    PutBackKeeps(cfg, l, st, sent, m, b.height);
    Untouched(m, b.height);
    PrefixOfBack(cfg, l, st, sent, PutBack(m, b.height), v);
  }

  lemma Untouched(m: Memory, height: nat)
    ensures PutBack(m, height).unconfirmed == m.unconfirmed && PutBack(m, height).unprocessed == m.unprocessed
  {
    hide AddAll;
  }

  lemma PrefixOfBack(cfg: Config, l: Ledger, st: Store, sent: map<Txid, nat>, m: Memory, v: Version)
    requires MemoryOk(cfg, l, st, sent, m) && v in m.unconfirmed
    ensures v.n <= |m.pending| && Take(m.pending, v.n) == m.pending[..v.n] == v.over && cfg.tipOf(v.over) == v.tip
    ensures |v.over| == v.n
  {
    hide Scanned, Linked, Unsaved;
    TipAssertionHolds(cfg, m.pending, m.unconfirmed, v);
  }

  // --- saves -------------------------------------------------------------------------------------

  /** A save in which nothing fails; what earlier markers do while they are settled does not matter. */
  predicate CleanPlan(plan: SavePlan) {
    && plan.script.marker == Go && plan.script.batch == Go && plan.script.append == Wrote && plan.script.unlink == Go
    && plan.checkpoint == Go && |plan.script.settle| >= |plan.order|
  }

  lemma {:induction false} ListedShort(b: Books, order: seq<Txid>)
    ensures |Listed(b, order)| <= |order|
  {
    if order != [] { ListedShort(b, order[1..]); }
  }

  /** With a turn for every marker the settling is not cut. */
  lemma {:induction false} NotCut(c: Codec, b: Books, order: seq<Txid>, faults: seq<SettleFault>)
    requires c.Sound() && Coherent(c, b) && |faults| >= |order|
    requires Distinct(order) && forall t :: t in order ==> t in b.markers
    ensures SettleAll(c, b, order, faults).1 == Finished
    decreases |order|
  {
    hide Coherent, Settle;
    if order != [] {
      SettleKeepsCoherent(c, b, order[0], faults[0]);
      MarkersNamed(c, b, order[0]);
      var after := Settle(c, b, order[0], faults[0]).0;
      assert forall i :: 1 <= i < |order| ==> order[i] != order[0];
      SettleMarkers(c, b, order[0], faults[0]);
      NotCut(c, after, order[1..], faults[1..]);
    }
  }

  /** A clean save stores the anchor, puts its line on file and takes its marker away. */
  lemma CleanSave(c: Codec, b: Books, r: Receipt, order: seq<Txid>, s: SaveScript)
    requires c.Sound() && Coherent(c, b) && r.txid !in b.anchors && |s.settle| >= |order|
    requires Distinct(order) && forall t :: t in order ==> t in b.markers
    requires s.marker == Go && s.batch == Go && s.append == Wrote && s.unlink == Go
    ensures var (after, end) := Save(c, b, r, order, s);
            && end == Saved && r.txid in after.anchors && r.txid in Txids(c, after.file) && r.txid !in after.markers
            && r in OnFile(c, after.file)
  {
    hide Coherent, Settle, Distinct, OnFile;
    SettleAllKeepsCoherent(c, b, order, s.settle);
    NotCut(c, b, order, s.settle);
    var settled := SettleAll(c, b, order, s.settle).0;
    TxidsOfAppended(c, settled.file, r, |c.encode(r)| + 1);
    LineIsOnFile(c, settled.file, r);
  }

  lemma LineIsOnFile(c: Codec, file: Bytes, r: Receipt)
    requires c.Sound()
    ensures r in OnFile(c, Appended(file, c.encode(r), |c.encode(r)| + 1))
  {
    AppendedLines(file, c.encode(r), |c.encode(r)| + 1);
    ParsedConcat(c, Lines(file), [c.encode(r)]);
    assert Parsed(c, [c.encode(r)]) == [r] + Parsed(c, []);
  }

  /** The line a save appends: the tree's txid, fee, number of commitments, height and records, and the save's time. */
  ghost predicate ReceiptedAt(c: Codec, file: Bytes, tree: Tree, at: nat) {
    exists r :: r in OnFile(c, file) && Tells(r, tree) && r.at == at
  }

  /** A due tree whose save meets no failure: stored, receipted, its watermark and checkpoint advanced, and let go. */
  lemma CleanSaveLands(cfg: Config, l: Ledger, st: Store, sent: map<Txid, nat>, m: Memory, height: nat, plan: SavePlan)
    requires cfg.codec.Sound() && StoreOk(cfg, l, st, sent) && MemoryOk(cfg, l, st, sent, m) && height in m.waiting
    requires CleanPlan(plan)
    ensures var (after, left) := SaveTree(cfg, st, m, height, plan);
            var tree, mark := m.waiting[height], CheckpointAfter(m, m.waiting[height]);
            && left == Some(Released(m, height)) && after.saved == st.saved[tree.txid := tree]
            && after.db == st.db + (set c | c in tree.commitments)
            && after.watermark == mark && after.checkpoint == Some(Checkpoint(mark, st.generation))
            && tree.txid in Txids(cfg.codec, after.books.file) && tree.txid !in after.books.markers
            && ReceiptedAt(cfg.codec, after.books.file, tree, plan.at)
            && tree.txid !in st.saved && after.generation == st.generation
  {
    hide MemoryOk, Coherent, Save, Listed, CheckpointAfter, Txids, OnFile;
    NotYetSaved(cfg, l, st, sent, m, height);
    ListedShort(st.books, plan.order);
    assert Tells(ReceiptOf(m.waiting[height], plan.at), m.waiting[height]);
    CleanSave(cfg.codec, st.books, ReceiptOf(m.waiting[height], plan.at), Listed(st.books, plan.order), plan.script);
  }

  /** The tree is saved by its anchor, and every commitment of it is in the database. */
  ghost predicate Stored(tree: Tree, st: Store) {
    tree.txid in st.saved && st.saved[tree.txid] == tree && forall c :: c in tree.commitments ==> c in st.db
  }

  ghost predicate SavedGrows(a: Store, b: Store) {
    a.db <= b.db && forall t :: t in a.saved ==> t in b.saved && b.saved[t] == a.saved[t]
  }

  /** What a sweep that meets no failure leaves of the due trees and of the others. */
  ghost predicate Swept(before: map<nat, Tree>, due: seq<nat>, after: Store, left: map<nat, Tree>) {
    && (forall h :: h in due ==> h !in left && h in before && Stored(before[h], after))
    && (forall h :: h in before && h !in due ==> h in left && left[h] == before[h])
    && left.Keys <= before.Keys
  }

  lemma NoneDue(st: Store, waiting: map<nat, Tree>)
    ensures Swept(waiting, [], st, waiting)
  {
  }

  lemma {:induction false} CleanSweep(cfg: Config, l: Ledger, st: Store, sent: map<Txid, nat>, m: Memory,
                                      due: seq<nat>, plans: seq<SavePlan>)
    requires cfg.codec.Sound() && StoreOk(cfg, l, st, sent) && MemoryOk(cfg, l, st, sent, m)
    requires Distinct(due) && (forall h :: h in due ==> h in m.waiting)
    requires |plans| >= |due| && forall p :: p in plans ==> CleanPlan(p)
    ensures var (after, left) := SaveTrees(cfg, st, m, due, plans);
            left.Some? && Swept(m.waiting, due, after, left.value.waiting) && SavedGrows(st, after)
    decreases |due|
  {
    hide StoreOk, MemoryOk, SaveTree, CleanPlan, Swept, CheckpointAfter, Txids, ReceiptedAt;
    NoneDue(st, m.waiting);
    if due != [] {
      SaveTreeKeeps(cfg, l, st, sent, m, due[0], plans[0]);
      CleanSaveLands(cfg, l, st, sent, m, due[0], plans[0]);
      var (after, left) := SaveTree(cfg, st, m, due[0], plans[0]);
      assert due == [due[0]] + due[1..] && due[0] !in due[1..];
      assert forall p :: p in plans[1..] ==> p in plans;
      CleanSweep(cfg, l, after, sent, left.value, due[1..], plans[1..]);
      var (final, last) := SaveTrees(cfg, after, left.value, due[1..], plans[1..]);
      SweptOneMore(m.waiting, due, after, left.value.waiting, final, last.value.waiting);
    }
  }

  /** With one tree waiting and nothing pending, its save's watermark is where the scan is. */
  lemma LastMark(cfg: Config, l: Ledger, st: Store, sent: map<Txid, nat>, m: Memory, height: nat)
    requires MemoryOk(cfg, l, st, sent, m) && m.pending == [] && m.waiting.Keys == {height}
    ensures CheckpointAfter(m, m.waiting[height]) == m.cursor
  {
    hide Linked, Unsaved, Prefixes;
    WatermarkIsTrue(l, st, m, height);
    assert forall c :: c in m.idxs ==> Held(m.pending, m.waiting, c);
    assert forall h :: h in m.waiting ==> h == height;
  }

  /** A clean sweep of everything outstanding: the watermark and the checkpoint are where the scan is. */
  lemma {:induction false} CleanSweepReachesCursor(cfg: Config, l: Ledger, st: Store, sent: map<Txid, nat>, m: Memory,
                                                   due: seq<nat>, plans: seq<SavePlan>)
    requires cfg.codec.Sound() && StoreOk(cfg, l, st, sent) && MemoryOk(cfg, l, st, sent, m)
    requires Distinct(due) && due != [] && m.pending == [] && (forall h :: h in due <==> h in m.waiting)
    requires |plans| >= |due| && forall p :: p in plans ==> CleanPlan(p)
    ensures var after := SaveTrees(cfg, st, m, due, plans).0;
            after.watermark == m.cursor && after.checkpoint == Some(Checkpoint(m.cursor, st.generation))
    decreases |due|
  {
    hide StoreOk, MemoryOk, SaveTree, CleanPlan, CheckpointAfter, Txids, ReceiptedAt;
    SaveTreeKeeps(cfg, l, st, sent, m, due[0], plans[0]);
    CleanSaveLands(cfg, l, st, sent, m, due[0], plans[0]);
    var (after, left) := SaveTree(cfg, st, m, due[0], plans[0]);
    assert due == [due[0]] + due[1..] && due[0] !in due[1..];
    if due[1..] == [] {
      assert m.waiting.Keys == {due[0]};
      LastMark(cfg, l, st, sent, m, due[0]);
    } else {
      assert forall p :: p in plans[1..] ==> p in plans;
      CleanSweepReachesCursor(cfg, l, after, sent, left.value, due[1..], plans[1..]);
    }
  }

  lemma SweptOneMore(before: map<nat, Tree>, due: seq<nat>, after: Store, middle: map<nat, Tree>, final: Store,
                     left: map<nat, Tree>)
    requires due != [] && due[0] in before && due[0] !in due[1..] && middle == before - {due[0]}
    requires Stored(before[due[0]], after) && Swept(middle, due[1..], final, left) && SavedGrows(after, final)
    ensures Swept(before, due, final, left)
  {
    assert forall h :: h in due <==> h == due[0] || h in due[1..];
  }

  /** A sweep in which nothing fails leaves no tree deep enough waiting: every one is stored. */
  lemma CleanSweepSavesAll(cfg: Config, l: Ledger, st: Store, sent: map<Txid, nat>, m: Memory, plans: seq<SavePlan>)
    requires cfg.codec.Sound() && StoreOk(cfg, l, st, sent) && MemoryOk(cfg, l, st, sent, m)
    requires |plans| >= |Due(m.waiting, MatureBound(cfg, m.known))| && forall p :: p in plans ==> CleanPlan(p)
    ensures var (after, left) := SaveMature(cfg, st, m, plans);
            && left.Some?
            && (forall h :: h in m.waiting && h < MatureBound(cfg, m.known) ==>
                  h !in left.value.waiting && Stored(m.waiting[h], after))
            && (forall h :: h in m.waiting && h >= MatureBound(cfg, m.known) ==> h in left.value.waiting)
  {
    hide StoreOk, MemoryOk, SaveTrees, CleanPlan, MatureBound;
    var due := Due(m.waiting, MatureBound(cfg, m.known));
    CleanSweep(cfg, l, st, sent, m, due, plans);
    assert forall h :: h in m.waiting && h < MatureBound(cfg, m.known) ==> h in due;
  }

  // --- a reorg below the first remembered block --------------------------------------------------

  /** Every owed body can be read, and every due save meets no failure. */
  ghost predicate CleanPass(cfg: Config, m: Memory, p: Pass) {
    && p.chain.Some?
    && (forall b :: b in Observe(m, p.chain.value).unprocessed ==> b.hash in p.bodies)
    && (forall plan :: plan in p.plans ==> CleanPlan(plan))
    && var read := ProcessBlocks(cfg, Observe(m, p.chain.value), p.bodies).0;
       |p.plans| >= |Due(read.waiting, MatureBound(cfg, read.known))|
  }

  /** With a list of one low block, memory is as it should be whatever blocks the trees lead to. */
  function Anchor(m: Memory): seq<Block> {
    [Block(0, if 0 in m.waiting then m.waiting[0].block else [])]
  }

  lemma AnchoredOk(cfg: Config, l: Ledger, st: Store, sent: map<Txid, nat>, m: Memory, tip: Block)
    requires MemoryOk(cfg, l, st, sent, m) && tip.height > 0
    ensures MemoryOk(cfg, l, st, sent, m.(known := Anchor(m), unprocessed := [tip]))
  {
    hide Scanned, Prefixes, Unsaved;
  }

  /** Reading a block and saving trees look at no remembered block. */
  lemma ReadsNoKnown(cfg: Config, m: Memory, known: seq<Block>, bodies: map<Hash, set<Txid>>)
    requires |m.unprocessed| == 1
    ensures var (a, p) := ProcessBlocks(cfg, m, bodies);
            ProcessBlocks(cfg, m.(known := known), bodies) == (a.(known := known), p)
  {
    hide Mined, AddAll, Take;
  }

  lemma SaveReadsNoKnown(cfg: Config, st: Store, m: Memory, known: seq<Block>, height: nat, plan: SavePlan)
    requires height in m.waiting
    ensures var (a, left) := SaveTree(cfg, st, m, height, plan);
            SaveTree(cfg, st, m.(known := known), height, plan)
            == (a, if left.None? then None else Some(left.value.(known := known)))
  {
    hide Save, Listed, Lowest, Outstanding;
  }

  lemma {:induction false} SavesReadNoKnown(cfg: Config, st: Store, m: Memory, known: seq<Block>, due: seq<nat>,
                                            plans: seq<SavePlan>)
    ensures var (a, left) := SaveTrees(cfg, st, m, due, plans);
            SaveTrees(cfg, st, m.(known := known), due, plans)
            == (a, if left.None? then None else Some(left.value.(known := known)))
    decreases |due|
  {
    hide SaveTree;
    if due != [] && plans != [] && due[0] in m.waiting {
      SaveReadsNoKnown(cfg, st, m, known, due[0], plans[0]);
      var (after, left) := SaveTree(cfg, st, m, due[0], plans[0]);
      if left.Some? { SavesReadNoKnown(cfg, after, left.value, known, due[1..], plans[1..]); }
    }
  }

  /**
   * A tree below the newest remembered block, none of those blocks being the node's, is in none of the node's either.
   */
  lemma ForgottenIsOff(m: Memory, chain: Chain, h: nat)
    requires Linked(m.known, m.unprocessed, m.waiting) && m.unprocessed == [] && RollBack(m.known, chain) == []
    requires h in m.waiting && h <= Tip(m.known)
    ensures !OnChain(chain, Block(h, m.waiting[h].block))
  {
    assert m.known[h - m.known[0].height] == Block(h, m.waiting[h].block);
  }

  /**
   * Once the list empties, discovery returns the tip alone: the trees below it are left as they are, and count as deep.
   */
  lemma EmptiedListForgets(cfg: Config, l: Ledger, st: Store, sent: map<Txid, nat>, m: Memory, chain: Chain,
                           bodies: map<Hash, set<Txid>>, h: nat)
    requires MemoryOk(cfg, l, st, sent, m) && m.unprocessed == [] && RollBack(m.known, chain) == []
    requires h in m.waiting && cfg.minConfirmations > 1 && h + cfg.minConfirmations <= |chain|
    requires chain[|chain| - 1] in bodies
    ensures var (read, progress) := ProcessBlocks(cfg, Observe(m, chain), bodies);
            && progress == Done && h in read.waiting && read.waiting[h] == m.waiting[h]
            && h < MatureBound(cfg, read.known)
            && MemoryOk(cfg, l, st, sent, read.(known := Anchor(m)))
  {
    hide MemoryOk, ProcessBlock;
    var tip := Block(|chain| - 1, chain[|chain| - 1]);
    var seen := Observe(m, chain);
    assert NewBlocks(m.known, chain) == [tip];
    assert seen == m.(known := [tip], unprocessed := [tip]);
    var anchored := m.(known := Anchor(m), unprocessed := [tip]);
    AnchoredOk(cfg, l, st, sent, m, tip);
    AllBodiesRead(cfg, l, st, sent, anchored, bodies);
    ProcessBlocksKeeps(cfg, l, st, sent, anchored, bodies);
    ReadsNoKnown(cfg, anchored, [tip], bodies);
    assert anchored.(known := [tip]) == seen;
    OtherTreesStay(cfg, anchored, bodies, h);
  }

  lemma OtherTreesStay(cfg: Config, m: Memory, bodies: map<Hash, set<Txid>>, h: nat)
    requires |m.unprocessed| == 1 && h in m.waiting && h != m.unprocessed[0].height
    ensures var (read, progress) := ProcessBlocks(cfg, m, bodies);
            h in read.waiting && read.waiting[h] == m.waiting[h] && read.known == m.known
  {
    hide Mined, AddAll, Take;
  }

  /** So the pass stores such a tree under an anchor that the node's chain does not hold at its height. */
  lemma ForgottenIsSaved(cfg: Config, s: State, p: Pass, h: nat)
    requires cfg.codec.Sound() && cfg.minConfirmations > 1 && Inv(cfg, s) && s.memory.Some?
    requires CleanPass(cfg, s.memory.value, p) && RollBack(s.memory.value.known, p.chain.value) == []
    requires s.memory.value.unprocessed == [] && h in s.memory.value.waiting
    requires h <= Tip(s.memory.value.known) && h + cfg.minConfirmations <= |p.chain.value|
    ensures var tree, saved := s.memory.value.waiting[h], DoBitcoin(cfg, s, p).store.saved;
            && !OnChain(p.chain.value, Block(h, tree.block)) && tree.height == h
            && tree.txid !in s.store.saved && tree.txid in saved && saved[tree.txid] == tree
  {
    hide StoreOk, Scanned, Prefixes, ProcessBlocks, Observe, SaveTrees, CleanPlan, MatureBound, Send;
    var l, st, m, chain := s.ledger, s.store, s.memory.value, p.chain.value;
    ForgottenIsOff(m, chain, h);
    TipOwed(m, chain);
    EmptiedListForgets(cfg, l, st, s.sent, m, chain, p.bodies, h);
    var read := ProcessBlocks(cfg, Observe(m, chain), p.bodies).0;
    var due := Due(read.waiting, MatureBound(cfg, read.known));
    CleanSweep(cfg, l, st, s.sent, read.(known := Anchor(m)), due, p.plans);
    SavesReadNoKnown(cfg, st, read, Anchor(m), due, p.plans);
  }

  lemma TipOwed(m: Memory, chain: Chain)
    requires RollBack(m.known, chain) == []
    ensures Block(|chain| - 1, chain[|chain| - 1]) in Observe(m, chain).unprocessed
  {
    assert NewBlocks(m.known, chain) == [Block(|chain| - 1, chain[|chain| - 1])];
  }

  /**
   * A pass that fails nowhere, with a tree waiting deep enough: everything it saves is in the node's own chain if and
   * only if the node's chain still holds a remembered block.
   */
  lemma SavesOnChainIff(cfg: Config, s: State, p: Pass, h: nat)
    requires cfg.codec.Sound() && cfg.minConfirmations > 1 && Inv(cfg, s) && s.memory.Some?
    requires CleanPass(cfg, s.memory.value, p) && NewTxid(s.sent, p.sending)
    requires Consistent(s.memory.value.known, p.chain.value) && s.memory.value.unprocessed == []
    requires h in s.memory.value.waiting
    requires h <= Tip(s.memory.value.known) && h + cfg.minConfirmations <= |p.chain.value|
    ensures (forall t :: t in DoBitcoin(cfg, s, p).store.saved && t !in s.store.saved ==>
               var tree := DoBitcoin(cfg, s, p).store.saved[t];
               OnChain(p.chain.value, Block(tree.height, tree.block)))
            <==> RollBack(s.memory.value.known, p.chain.value) != []
  {
    hide Inv, DoBitcoin, Consistent, ProcessBlocks, Observe, CleanPlan, MatureBound;
    if RollBack(s.memory.value.known, p.chain.value) == [] {
      ForgottenIsSaved(cfg, s, p, h);
    } else {
      forall t | t in DoBitcoin(cfg, s, p).store.saved && t !in s.store.saved
        ensures var tree := DoBitcoin(cfg, s, p).store.saved[t];
                OnChain(p.chain.value, Block(tree.height, tree.block)) {
        SavedIsOnNodesChain(cfg, s, p, t);
      }
    }
  }

  // One such state, for the failing side.

  /** Blocks 100 and 101 remembered, and a tree over the journal's one entry waiting in block 101. */
  function Remembering(c: Commitment, t: Txid, g: Generation): State {
    var tree := Tree(t, [c], 0, 101, 0, [-2]);
    var known := [Block(100, [-1]), Block(101, [-2])];
    State(Ledger([c], [0], []), Store({}, 0, Some(g), None, Books([], 0, map[], map[], {}), map[]), map[t := 0],
          Some(Memory([], [], map[101 := tree], map[c := 0], map[], 1, known, [])))
  }

  /** A chain of n blocks, none of those two. */
  function Elsewhere(n: nat): (chain: Chain)
    requires n > 0
    ensures |chain| == n && forall i :: 0 <= i < n ==> chain[i] == [i]
  {
    seq(n, i => [i])
  }

  /** A pass over it with nothing of ours in its blocks, and one save that meets no failure. */
  function PassOver(chain: Chain): Pass {
    var plan := SavePlan(0, [], SaveScript([], Go, Go, Wrote, Go), Go);
    Pass(Some(chain), map[chain[|chain| - 1] := {}], [plan], NotNow)
  }

  lemma RememberingOk(cfg: Config, c: Commitment, t: Txid, g: Generation)
    ensures Inv(cfg, Remembering(c, t, g))
  {
    var s := Remembering(c, t, g);
    var m := s.memory.value;
    assert Txids(cfg.codec, []) == [];
    assert c in m.waiting[101].commitments && Held(m.pending, m.waiting, c);
  }

  lemma NothingKept(c: Commitment, t: Txid, g: Generation, n: nat)
    requires n > 0
    ensures Consistent(Remembering(c, t, g).memory.value.known, Elsewhere(n))
    ensures RollBack(Remembering(c, t, g).memory.value.known, Elsewhere(n)) == []
  {
    var known, chain := Remembering(c, t, g).memory.value.known, Elsewhere(n);
    forall b | b in known ensures !OnChain(chain, b) {
      if b.height < n { assert chain[b.height] == [b.height]; }
    }
  }

  lemma TwoDiffer(due: seq<nat>, h: nat) returns (g: nat)
    requires Distinct(due) && |due| >= 2
    ensures g in due && g != h
  {
    g := if due[0] == h then due[1] else due[0];
  }

  lemma PassOverIsClean(cfg: Config, c: Commitment, t: Txid, g: Generation, n: nat)
    requires n > 102
    ensures CleanPass(cfg, Remembering(c, t, g).memory.value, PassOver(Elsewhere(n)))
  {
    NothingKept(c, t, g, n);
    var m, chain := Remembering(c, t, g).memory.value, Elsewhere(n);
    var tip := Block(n - 1, chain[n - 1]);
    assert NewBlocks(m.known, chain) == [tip];
    var seen := Observe(m, chain);
    assert seen.unprocessed == [tip];
    var (read, progress) := ProcessBlock(cfg, seen, PassOver(chain).bodies);
    assert read.unprocessed == [] && read.waiting == m.waiting;
    assert ProcessBlocks(cfg, seen, PassOver(chain).bodies).0 == read;
    var due := Due(read.waiting, MatureBound(cfg, read.known));
    if |due| >= 2 { var other := TwoDiffer(due, 101); }
  }

  /** So a tree is saved off the chain there. */
  lemma ForgottenHappens(cfg: Config, c: Commitment, t: Txid, g: Generation, n: nat)
    requires cfg.codec.Sound() && cfg.minConfirmations > 1 && n >= 101 + cfg.minConfirmations
    ensures var s, p := Remembering(c, t, g), PassOver(Elsewhere(n));
            && Inv(cfg, s) && CleanPass(cfg, s.memory.value, p) && NewTxid(s.sent, p.sending)
            && Consistent(s.memory.value.known, p.chain.value) && RollBack(s.memory.value.known, p.chain.value) == []
            && t !in s.store.saved && t in DoBitcoin(cfg, s, p).store.saved
            && !OnChain(p.chain.value, Block(101, DoBitcoin(cfg, s, p).store.saved[t].block))
  {
    hide Inv, DoBitcoin, CleanPass, Consistent, RollBack;
    var s, p := Remembering(c, t, g), PassOver(Elsewhere(n));
    RememberingOk(cfg, c, t, g);
    NothingKept(c, t, g, n);
    PassOverIsClean(cfg, c, t, g, n);
    ForgottenIsSaved(cfg, s, p, 101);
  }
}
