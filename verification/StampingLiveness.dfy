/**
 * The stamper gets there (otsserver/stamper.py): from any state a run can reach, once a transaction over an entry has
 * been sent and is in a block, every run of passes that fail nowhere, over a chain that grows far enough above that
 * block, stores the entry, whatever is accepted, filled, bumped or anchored meanwhile.
 */
module StampingLiveness {
  import opened Octets
  import opened Wrappers
  import opened KnownBlocks
  import opened ReceiptFile
  import opened Receipts
  import opened Stamping
  import opened StampingSafety
  import opened StampingProgress
  import Journal

  /** What each block holds of the wallet's. */
  type Bodies = Hash -> set<Txid>

  ghost predicate NoRepeats(chain: Chain) {
    forall i, j :: 0 <= i < j < |chain| ==> chain[i] != chain[j]
  }

  /** Nothing is owed, and the remembered blocks are the node's, up to its tip. */
  ghost predicate AtTip(m: Memory, chain: Chain) {
    && m.unprocessed == [] && m.known != [] && Consecutive(m.known) && Tip(m.known) == |chain| - 1
    && forall k :: 0 <= k < |m.known| ==> OnChain(chain, m.known[k])
  }

  /** The bodies given are what the owed blocks hold. */
  ghost predicate BodiesAre(body: Bodies, owed: seq<Block>, bodies: map<Hash, set<Txid>>) {
    forall b :: b in owed ==> b.hash in bodies && bodies[b.hash] == body(b.hash)
  }

  /**
   * A pass that fails nowhere, over a chain that only grew, whose send neither stops the process nor gives the cycle
   * up.
   */
  ghost predicate GoodPass(cfg: Config, body: Bodies, s: State, chain: Chain, p: Pass) {
    && s.memory.Some? && CleanPass(cfg, s.memory.value, p) && chain <= p.chain.value && NoRepeats(p.chain.value)
    && BodiesAre(body, Observe(s.memory.value, p.chain.value).unprocessed, p.bodies)
    && NewTxid(s.sent, p.sending) && !p.sending.Abandoned? && !p.sending.SentThenStopped?
  }

  // --- discovery ---------------------------------------------------------------------------------

  lemma FromIs(chain: Chain, lo: nat)
    requires lo <= |chain|
    ensures lo == |chain| ==> From(chain, lo) == []
    ensures lo < |chain| ==> From(chain, lo) == [Block(lo, chain[lo])] + From(chain, lo + 1)
  {
  }

  /** Over a chain that only grew, a discovery owes exactly its new blocks. */
  lemma Discovers(m: Memory, chain: Chain, longer: Chain)
    requires AtTip(m, chain) && chain <= longer && NoRepeats(longer)
    ensures Shallow(m.known, longer) && NewBlocks(m.known, longer) == From(longer, |chain|)
    ensures Observe(m, longer) == m.(known := m.known + From(longer, |chain|), unprocessed := From(longer, |chain|))
  {
    forall k | 0 <= k < |m.known| ensures OnChain(longer, m.known[k]) {
      assert OnChain(chain, m.known[k]);
    }
    assert RollBack(m.known, longer) == m.known;
  }

  /** A discovery whose blocks have all been read leaves the stamper at the node's tip. */
  lemma ReadIsAtTip(m: Memory, chain: Chain, read: Memory)
    requires Consecutive(m.known) && Shallow(m.known, chain)
    requires read.known == Discovered(m.known, chain) && read.unprocessed == []
    ensures AtTip(read, chain)
  {
    DiscoveredConsecutive(m.known, chain);
    DiscoveredIsOnChain(m.known, chain);
  }

  // --- what is followed --------------------------------------------------------------------------

  /** An entry, and a transaction over it in the block at height `by`, already sent or about to be. */
  datatype Ride = Ride(entry: Commitment, txid: Txid, height: nat, sent: bool)

  /** Pending under every version in flight, the followed one among them. */
  ghost predicate Aboard(r: Ride, m: Memory) {
    && r.entry in m.pending && (forall v :: v in m.unconfirmed ==> r.entry in v.over)
    && (r.sent ==> exists v :: v in m.unconfirmed && v.txid == r.txid)
  }

  ghost predicate InTree(r: Ride, waiting: map<nat, Tree>, below: nat) {
    exists h :: h in waiting && r.entry in waiting[h].commitments && h <= r.height && h < below
  }

  /**
   * Stored, in a tree no higher than `height` and below the blocks still to be read, or pending and not past `height`.
   */
  ghost predicate Rides(r: Ride, m: Memory, below: nat, db: set<Commitment>) {
    r.entry in db || InTree(r, m.waiting, below) || (Aboard(r, m) && below <= r.height)
  }

  /** The transaction is in that block, or, not yet sent, that block is still to come. */
  ghost predicate MinedBy(r: Ride, body: Bodies, chain: Chain) {
    if r.sent then r.height < |chain| ==> r.txid in body(chain[r.height]) else |chain| <= r.height
  }

  // --- blocks ------------------------------------------------------------------------------------

  lemma {:induction false} NoneMined(unconfirmed: seq<Version>, txids: set<Txid>)
    requires Mined(unconfirmed, txids).None?
    ensures forall v :: v in unconfirmed ==> v.txid !in txids
    decreases |unconfirmed|
  {
    if unconfirmed != [] {
      NoneMined(unconfirmed[..|unconfirmed| - 1], txids);
      assert unconfirmed == unconfirmed[..|unconfirmed| - 1] + [unconfirmed[|unconfirmed| - 1]];
    }
  }

  lemma BackHolds(cfg: Config, m: Memory, height: nat, c: Commitment)
    requires Prefixes(cfg, m.pending, m.unconfirmed) && c in m.pending
    ensures c in PutBack(m, height).pending
  {
    if height in m.waiting { AddAllIs(m.pending, m.waiting[height].commitments); }
  }

  /** One block read leaves a tree below it alone. */
  lemma TreeRides(cfg: Config, r: Ride, m: Memory, bodies: map<Hash, set<Txid>>)
    requires m.unprocessed != [] && InTree(r, m.waiting, m.unprocessed[0].height)
    ensures InTree(r, ProcessBlock(cfg, m, bodies).0.waiting, m.unprocessed[0].height + 1)
  {
    hide Mined, AddAll, Take;
    var h :| h in m.waiting && r.entry in m.waiting[h].commitments && h <= r.height && h < m.unprocessed[0].height;
    assert h in ProcessBlock(cfg, m, bodies).0.waiting;
  }

  /** One block read moves what is aboard a version in it into its tree, and otherwise leaves it aboard. */
  lemma AboardRides(cfg: Config, l: Ledger, st: Store, sent: map<Txid, nat>, r: Ride, m: Memory,
                    bodies: map<Hash, set<Txid>>)
    requires MemoryOk(cfg, l, st, sent, m) && m.unprocessed != [] && m.unprocessed[0].hash in bodies && Aboard(r, m)
    requires m.unprocessed[0].height <= r.height
    ensures var next, b := ProcessBlock(cfg, m, bodies).0, m.unprocessed[0];
            InTree(r, next.waiting, b.height + 1) || (Aboard(r, next) && (r.sent ==> r.txid !in bodies[b.hash]))
  {
    hide MemoryOk, PutBack, Take;
    var b := m.unprocessed[0];
    ProcessBlockKeeps(cfg, l, st, sent, m, bodies);
    PutBackKeeps(cfg, l, st, sent, m, b.height);
    PrefixesOf(cfg, l, st, sent, m);
    BackHolds(cfg, m, b.height, r.entry);
    MinedIs(m.unconfirmed, bodies[b.hash]);
    var mined := Mined(m.unconfirmed, bodies[b.hash]);
    if mined.None? {
      NoneMined(m.unconfirmed, bodies[b.hash]);
    } else {
      PrefixOfBack(cfg, l, st, sent, PutBack(m, b.height), mined.value);
      var next := ProcessBlock(cfg, m, bodies).0;
      assert b.height in next.waiting && r.entry in next.waiting[b.height].commitments;
    }
  }

  lemma PrefixesOf(cfg: Config, l: Ledger, st: Store, sent: map<Txid, nat>, m: Memory)
    requires MemoryOk(cfg, l, st, sent, m)
    ensures Prefixes(cfg, m.pending, m.unconfirmed)
  {
    hide Scanned, Linked, Unsaved, Prefixes;
  }

  lemma {:induction false} BlocksRide(cfg: Config, l: Ledger, st: Store, sent: map<Txid, nat>, r: Ride, m: Memory,
                                      chain: Chain, lo: nat, bodies: map<Hash, set<Txid>>, body: Bodies)
    requires MemoryOk(cfg, l, st, sent, m) && lo <= |chain| && m.unprocessed == From(chain, lo)
    requires BodiesAre(body, m.unprocessed, bodies)
    requires Rides(r, m, lo, st.db) && MinedBy(r, body, chain)
    ensures Rides(r, ProcessBlocks(cfg, m, bodies).0, |chain|, st.db)
    ensures m.unconfirmed == [] ==> ProcessBlocks(cfg, m, bodies).0.unconfirmed == []
    decreases |chain| - lo
  {
    hide MemoryOk, ProcessBlock, Aboard, InTree;
    FromIs(chain, lo);
    if lo < |chain| {
      var b := Block(lo, chain[lo]);
      assert m.unprocessed[0] == b && m.unprocessed[1..] == From(chain, lo + 1);
      assert forall k :: k in m.unprocessed[1..] ==> k in m.unprocessed;
      ProcessBlockKeeps(cfg, l, st, sent, m, bodies);
      BodyReads(cfg, m, bodies);
      NoneToMine(cfg, m, bodies);
      var next := ProcessBlock(cfg, m, bodies).0;
      if r.entry !in st.db {
        if InTree(r, m.waiting, lo) {
          TreeRides(cfg, r, m, bodies);
        } else {
          AboardRides(cfg, l, st, sent, r, m, bodies);
        }
      }
      BlocksRide(cfg, l, st, sent, r, next, chain, lo + 1, bodies, body);
    }
  }

  lemma NoneToMine(cfg: Config, m: Memory, bodies: map<Hash, set<Txid>>)
    requires m.unprocessed != []
    ensures m.unconfirmed == [] ==> ProcessBlock(cfg, m, bodies).0.unconfirmed == []
  {
    hide AddAll, Take;
  }

  // --- saves and the send ------------------------------------------------------------------------

  /** A sweep changes what waits, and what is remembered of it; nothing else. */
  lemma {:induction false} SweepLeaves(cfg: Config, st: Store, m: Memory, due: seq<nat>, plans: seq<SavePlan>)
    ensures var left := SaveTrees(cfg, st, m, due, plans).1;
            left.Some? ==>
              && left.value.pending == m.pending && left.value.unconfirmed == m.unconfirmed
              && left.value.known == m.known && left.value.unprocessed == m.unprocessed
    decreases |due|
  {
    hide Save, Listed, Lowest, Outstanding;
    if due != [] && plans != [] && due[0] in m.waiting {
      var (after, left) := SaveTree(cfg, st, m, due[0], plans[0]);
      if left.Some? { SweepLeaves(cfg, after, left.value, due[1..], plans[1..]); }
    }
  }

  /** No tree is left waiting that is deep enough on the node's chain. */
  ghost predicate NoneDeep(cfg: Config, m: Memory, chain: Chain) {
    forall h :: h in m.waiting ==> h + cfg.minConfirmations > |chain|
  }

  lemma SweepRides(cfg: Config, l: Ledger, st: Store, sent: map<Txid, nat>, r: Ride, m: Memory, chain: Chain,
                   plans: seq<SavePlan>)
    requires cfg.codec.Sound() && StoreOk(cfg, l, st, sent) && MemoryOk(cfg, l, st, sent, m) && AtTip(m, chain)
    requires |plans| >= |Due(m.waiting, MatureBound(cfg, m.known))| && forall p :: p in plans ==> CleanPlan(p)
    requires Rides(r, m, |chain|, st.db)
    ensures var (after, left) := SaveMature(cfg, st, m, plans);
            && left.Some? && Rides(r, left.value, |chain|, after.db) && NoneDeep(cfg, left.value, chain)
            && left.value.known == m.known && left.value.unprocessed == [] && left.value.unconfirmed == m.unconfirmed
            && st.db <= after.db
  {
    hide StoreOk, MemoryOk, SaveTrees, CleanPlan;
    var due := Due(m.waiting, MatureBound(cfg, m.known));
    CleanSweep(cfg, l, st, sent, m, due, plans);
    SweepLeaves(cfg, st, m, due, plans);
    var (after, left) := SaveTrees(cfg, st, m, due, plans);
    if InTree(r, m.waiting, |chain|) {
      var h :| h in m.waiting && r.entry in m.waiting[h].commitments && h <= r.height && h < |chain|;
      if h !in due { assert h in left.value.waiting && left.value.waiting[h] == m.waiting[h]; }
    }
  }

  /** Whether this send is the followed transaction's. */
  predicate Sends(r: Ride, how: Sending) {
    how.Sent? && how.txid == r.txid
  }

  lemma SendRides(cfg: Config, l: Ledger, sent: map<Txid, nat>, r: Ride, m: Memory, chain: Chain, db: set<Commitment>,
                  newBlocks: bool, how: Sending)
    requires Rides(r, m, |chain|, db) && !how.Abandoned? && !how.SentThenStopped?
    ensures var left := Send(cfg, l, sent, m, newBlocks, how).1;
            && left.Some? && Rides(r, left.value, |chain|, db)
            && left.value.known == m.known && left.value.unprocessed == m.unprocessed
            && left.value.waiting == m.waiting
            && (Sends(r, how) && (newBlocks || m.unconfirmed == []) ==>
                  Rides(r.(sent := true), left.value, |chain|, db))
  {
    hide CountTree, CountedAtClose;
    var left := Send(cfg, l, sent, m, newBlocks, how).1.value;
    if r.entry !in db && !InTree(r, m.waiting, |chain|) && how.Sent? && (newBlocks || m.unconfirmed == []) {
      var v := NewVersion(cfg, m, how.txid, how.fee, CountTree(l, m, m.pending, how.unreadable));
      assert left.unconfirmed == m.unconfirmed + [v];
      assert v in left.unconfirmed;
    }
  }

  // --- a pass ------------------------------------------------------------------------------------

  lemma GoodPassIsPossible(cfg: Config, body: Bodies, s: State, chain: Chain, p: Pass)
    requires GoodPass(cfg, body, s, chain, p) && AtTip(s.memory.value, chain)
    ensures PassPossible(s, p) && p.chain.Some? && |chain| <= |p.chain.value|
  {
    hide CleanPlan, ProcessBlocks, AtTip, Shallow;
    Discovers(s.memory.value, chain, p.chain.value);
  }

  /** Every new block read. */
  lemma ReadRides(cfg: Config, body: Bodies, s: State, chain: Chain, p: Pass, r: Ride) returns (read: Memory)
    requires Inv(cfg, s) && GoodPass(cfg, body, s, chain, p) && AtTip(s.memory.value, chain)
    requires Rides(r, s.memory.value, |chain|, s.store.db) && MinedBy(r, body, p.chain.value)
    ensures ProcessBlocks(cfg, Observe(s.memory.value, p.chain.value), p.bodies) == (read, Done)
    ensures MemoryOk(cfg, s.ledger, s.store, s.sent, read) && AtTip(read, p.chain.value)
    ensures Rides(r, read, |p.chain.value|, s.store.db)
    ensures s.memory.value.unconfirmed == [] ==> read.unconfirmed == []
    ensures NewBlocks(s.memory.value.known, p.chain.value) != [] <==> |chain| < |p.chain.value|
  {
    hide StoreOk, MemoryOk, ProcessBlocks, CleanPlan, Rides, MinedBy, NoRepeats, BodiesAre;
    var l, st, m, longer := s.ledger, s.store, s.memory.value, p.chain.value;
    Discovers(m, chain, longer);
    var seen := Observe(m, longer);
    hide Observe, AtTip;
    ObserveKeeps(cfg, l, st, s.sent, m, longer);
    SeenRides(r, m, seen, |chain|, st.db);
    AllBodiesRead(cfg, l, st, s.sent, seen, p.bodies);
    ProcessBlocksKeeps(cfg, l, st, s.sent, seen, p.bodies);
    BlocksRide(cfg, l, st, s.sent, r, seen, longer, |chain|, p.bodies, body);
    read := ProcessBlocks(cfg, seen, p.bodies).0;
    KnownConsecutive(cfg, s);
    ReadIsAtTip(m, longer, read);
  }

  /** What one such pass leaves of the followed entry: still riding, or, the block deep enough, stored. */
  lemma PassRides(cfg: Config, body: Bodies, s: State, chain: Chain, p: Pass, r: Ride)
    requires cfg.codec.Sound() && cfg.minConfirmations > 1 && Inv(cfg, s)
    requires GoodPass(cfg, body, s, chain, p) && AtTip(s.memory.value, chain)
    requires Rides(r, s.memory.value, |chain|, s.store.db) && MinedBy(r, body, p.chain.value)
    ensures var next, longer := DoBitcoin(cfg, s, p), p.chain.value;
            && next.memory.Some? && AtTip(next.memory.value, longer) && NoneDeep(cfg, next.memory.value, longer)
            && Rides(r, next.memory.value, |longer|, next.store.db)
            && (Sends(r, p.sending) && (|chain| < |longer| || s.memory.value.unconfirmed == []) ==>
                  Rides(r.(sent := true), next.memory.value, |longer|, next.store.db))
  {
    hide StoreOk, MemoryOk, ProcessBlocks, SaveTrees, Due, MatureBound, CleanPlan, Rides, Send, NoneDeep, MinedBy;
    hide AtTip, Observe, BodiesAre, NoRepeats;
    var longer, news := p.chain.value, NewBlocks(s.memory.value.known, p.chain.value) != [];
    var read := ReadRides(cfg, body, s, chain, p, r);
    SweepRides(cfg, s.ledger, s.store, s.sent, r, read, longer, p.plans);
    var (store, swept) := SaveMature(cfg, s.store, read, p.plans);
    SendRides(cfg, s.ledger, s.sent, r, swept.value, longer, store.db, news, p.sending);
    var left := Send(cfg, s.ledger, s.sent, swept.value, news, p.sending).1.value;
    SameTip(read, left, longer);
    SameDeep(cfg, swept.value, left, longer);
  }

  lemma SeenRides(r: Ride, m: Memory, seen: Memory, below: nat, db: set<Commitment>)
    requires Rides(r, m, below, db) && seen == m.(known := seen.known, unprocessed := seen.unprocessed)
    ensures Rides(r, seen, below, db)
  {
  }

  lemma SameTip(a: Memory, b: Memory, chain: Chain)
    requires AtTip(a, chain) && b.known == a.known && b.unprocessed == []
    ensures AtTip(b, chain)
  {
  }

  lemma SameDeep(cfg: Config, a: Memory, b: Memory, chain: Chain)
    requires NoneDeep(cfg, a, chain) && b.waiting == a.waiting
    ensures NoneDeep(cfg, b, chain)
  {
  }

  /** Any pass that fails nowhere, a first one or one over any reorg the list reaches over, ends at the node's tip. */
  lemma PassReachesTip(cfg: Config, s: State, p: Pass)
    requires cfg.codec.Sound() && cfg.minConfirmations > 1 && Inv(cfg, s) && PassPossible(s, p)
    requires CleanPass(cfg, s.memory.value, p) && !p.sending.SentThenStopped?
    ensures var next := DoBitcoin(cfg, s, p); next.memory.Some? && AtTip(next.memory.value, p.chain.value)
  {
    hide StoreOk, MemoryOk, ProcessBlocks, SaveTrees, Due, MatureBound, CleanPlan, CountTree, CountedAtClose;
    hide Shallow, AtTip;
    var l, st, m, chain := s.ledger, s.store, s.memory.value, p.chain.value;
    KnownConsecutive(cfg, s);
    var seen := Observe(m, chain);
    ObserveKeeps(cfg, l, st, s.sent, m, chain);
    AllBodiesRead(cfg, l, st, s.sent, seen, p.bodies);
    ProcessBlocksKeeps(cfg, l, st, s.sent, seen, p.bodies);
    var read := ProcessBlocks(cfg, seen, p.bodies).0;
    ReadIsAtTip(m, chain, read);
    hide Observe, Discovered;
    var due := Due(read.waiting, MatureBound(cfg, read.known));
    CleanSweep(cfg, l, st, s.sent, read, due, p.plans);
    SweepLeaves(cfg, st, read, due, p.plans);
    SameTip(read, DoBitcoin(cfg, s, p).memory.value, chain);
  }

  // --- a cycle given up --------------------------------------------------------------------------

  /** Reading blocks with nothing in flight takes nothing from pending. */
  lemma {:induction false} FreshBlocks(cfg: Config, l: Ledger, st: Store, sent: map<Txid, nat>, m: Memory,
                                       bodies: map<Hash, set<Txid>>)
    requires MemoryOk(cfg, l, st, sent, m) && m.unconfirmed == []
    ensures var read := ProcessBlocks(cfg, m, bodies).0; read.unconfirmed == [] && m.pending <= read.pending
    decreases |m.unprocessed|
  {
    hide MemoryOk, ProcessBlock;
    if m.unprocessed != [] {
      ProcessBlockKeeps(cfg, l, st, sent, m, bodies);
      PrefixesOf(cfg, l, st, sent, m);
      FreshBlock(cfg, m, bodies);
      var (next, progress) := ProcessBlock(cfg, m, bodies);
      if progress == Done {
        BodyReadsOnly(cfg, m, bodies);
        FreshBlocks(cfg, l, st, sent, next, bodies);
      }
    }
  }

  lemma BodyReadsOnly(cfg: Config, m: Memory, bodies: map<Hash, set<Txid>>)
    requires m.unprocessed != [] && ProcessBlock(cfg, m, bodies).1 == Done
    ensures |ProcessBlock(cfg, m, bodies).0.unprocessed| < |m.unprocessed|
  {
    hide Mined, Take, AddAll;
  }

  lemma FreshBlock(cfg: Config, m: Memory, bodies: map<Hash, set<Txid>>)
    requires m.unprocessed != [] && m.unconfirmed == [] && Distinct(m.pending)
    ensures var next := ProcessBlock(cfg, m, bodies).0; next.unconfirmed == [] && m.pending <= next.pending
  {
    var b := m.unprocessed[0];
    if b.height in m.waiting { AddAllIs(m.pending, m.waiting[b.height].commitments); }
  }

  /** A send given up leaves nothing in flight, every commitment where it was, and no transaction more. */
  lemma AbandonedClears(cfg: Config, l: Ledger, sent: map<Txid, nat>, m: Memory, newBlocks: bool, how: Sending)
    requires how.Abandoned? && m.pending != [] && (newBlocks || m.unconfirmed == [])
    ensures var (sent', left) := Send(cfg, l, sent, m, newBlocks, how);
            && sent' == sent && left.Some? && left.value.unconfirmed == []
            && left.value.pending == m.pending && left.value.waiting == m.waiting && left.value.idxs == m.idxs
            && left.value.known == m.known && left.value.unprocessed == m.unprocessed && left.value.cursor == m.cursor
  {
    hide CountTree, CountedAtClose;
  }

  /** With a transaction in flight, nothing owed and no new block found, a pass sends nothing, whatever fails in it. */
  lemma NoBumpWithoutBlock(cfg: Config, s: State, p: Pass)
    requires s.memory.Some? && p.chain.Some? && NewBlocks(s.memory.value.known, p.chain.value) == []
    requires s.memory.value.unconfirmed != [] && s.memory.value.unprocessed == []
    ensures var next := DoBitcoin(cfg, s, p);
            next.sent == s.sent
            && (next.memory.Some? ==> next.memory.value.unconfirmed == s.memory.value.unconfirmed
                                      && next.memory.value.pending == s.memory.value.pending)
  {
    hide SaveTrees, Due, MatureBound, Discovered, NewBlocks;
    var m := s.memory.value;
    var seen := Observe(m, p.chain.value);
    assert ProcessBlocks(cfg, seen, p.bodies) == (seen, Done);
    SweepLeaves(cfg, s.store, seen, Due(seen.waiting, MatureBound(cfg, seen.known)), p.plans);
  }

  /**
   * With nothing in flight, as after a send given up, and something pending, a pass that fails nowhere and may send
   * does, new block or not: one version, at its fee, over everything then pending.
   */
  lemma FreshCycleSends(cfg: Config, s: State, p: Pass)
    requires cfg.codec.Sound() && cfg.minConfirmations > 1 && Inv(cfg, s) && PassPossible(s, p)
    requires CleanPass(cfg, s.memory.value, p) && p.sending.Sent?
    requires s.memory.value.unconfirmed == [] && s.memory.value.pending != []
    ensures var next := DoBitcoin(cfg, s, p);
            && next.memory.Some? && |next.memory.value.unconfirmed| == 1
            && s.memory.value.pending <= next.memory.value.pending
            && var v := next.memory.value.unconfirmed[0];
               && v.txid == p.sending.txid && v.fee == p.sending.fee && v.over == next.memory.value.pending
               && v.n == |v.over| && v.tip == cfg.tipOf(v.over)
               && next.sent == s.sent[v.txid := v.records]
  {
    hide StoreOk, MemoryOk, ProcessBlocks, SaveTrees, Due, MatureBound, CleanPlan, CountTree, CountedAtClose;
    hide Shallow;
    var l, st, m, chain := s.ledger, s.store, s.memory.value, p.chain.value;
    var seen := Observe(m, chain);
    ObserveKeeps(cfg, l, st, s.sent, m, chain);
    AllBodiesRead(cfg, l, st, s.sent, seen, p.bodies);
    ProcessBlocksKeeps(cfg, l, st, s.sent, seen, p.bodies);
    FreshBlocks(cfg, l, st, s.sent, seen, p.bodies);
    var read := ProcessBlocks(cfg, seen, p.bodies).0;
    hide Observe, Discovered;
    var due := Due(read.waiting, MatureBound(cfg, read.known));
    CleanSweep(cfg, l, st, s.sent, read, due, p.plans);
    SweepLeaves(cfg, st, read, due, p.plans);
  }

  // --- a run -------------------------------------------------------------------------------------

  lemma OneAddedRides(l: Ledger, db: set<Commitment>, r: Ride, m: Memory, readable: bool, chain: Chain)
    requires Rides(r, m, |chain|, db) && AtTip(m, chain) && m.cursor < |l.journal|
    ensures var next := FillOne(l, db, m, readable);
            Rides(r, next, |chain|, db) && AtTip(next, chain) && next.waiting == m.waiting
  {
    hide Journal.Get, OnChain;
    assert forall c :: c in m.pending ==> c in FillOne(l, db, m, readable).pending;
  }

  lemma {:induction false} AddedRides(cfg: Config, l: Ledger, db: set<Commitment>, r: Ride, m: Memory, ok: nat,
                                      unreadable: set<nat>, chain: Chain)
    requires Rides(r, m, |chain|, db) && AtTip(m, chain)
    ensures var filled := Fill(cfg, l, db, m, ok, unreadable);
            Rides(r, filled, |chain|, db) && AtTip(filled, chain) && filled.waiting == m.waiting
    decreases ok
  {
    hide Rides, AtTip, FillOne;
    if !(|m.pending| >= cfg.maxPending || m.cursor >= |l.journal| || ok == 0) {
      var next := FillOne(l, db, m, m.cursor !in unreadable);
      OneAddedRides(l, db, r, m, m.cursor !in unreadable, chain);
      AddedRides(cfg, l, db, r, next, ok - 1, unreadable, chain);
    }
  }

  /**
   * Entries, counts and fills as they come, and passes that fail nowhere, over a chain that grows from one to another.
   */
  ghost predicate Smooth(cfg: Config, body: Bodies, s: State, chain: Chain, events: seq<Event>, final: State,
                         last: Chain)
    decreases |events|
  {
    if events == [] then final == s && last == chain
    else
      && Possible(s, events[0])
      && var next := After(cfg, s, events[0]);
         match events[0]
         case Accept(_, _) => Smooth(cfg, body, next, chain, events[1..], final, last)
         case WriteCount(_, _) => Smooth(cfg, body, next, chain, events[1..], final, last)
         case FillPass(_, _) => Smooth(cfg, body, next, chain, events[1..], final, last)
         case BitcoinPass(p) =>
           && p.chain.Some? && GoodPass(cfg, body, s, chain, p)
           && Smooth(cfg, body, next, p.chain.value, events[1..], final, last)
         case _ => false
  }

  lemma {:induction false} SmoothGrows(cfg: Config, body: Bodies, s: State, chain: Chain, events: seq<Event>,
                                       final: State, last: Chain)
    requires Smooth(cfg, body, s, chain, events, final, last)
    ensures chain <= last
    decreases |events|
  {
    hide Possible, After, CleanPass;
    if events != [] {
      var next := After(cfg, s, events[0]);
      match events[0]
      case BitcoinPass(p) => SmoothGrows(cfg, body, next, p.chain.value, events[1..], final, last);
      case FillPass(_, _) => SmoothGrows(cfg, body, next, chain, events[1..], final, last);
      case Accept(_, _) => SmoothGrows(cfg, body, next, chain, events[1..], final, last);
      case WriteCount(_, _) => SmoothGrows(cfg, body, next, chain, events[1..], final, last);
      case _ =>
    }
  }

  /** What is carried along: the followed entry rides, the stamper is at the node's tip, and the invariant stands. */
  ghost predicate Carried(cfg: Config, s: State, chain: Chain, r: Ride) {
    && Inv(cfg, s) && CountsHonest(s.ledger) && s.memory.Some? && AtTip(s.memory.value, chain)
    && Rides(r, s.memory.value, |chain|, s.store.db)
  }

  lemma {:induction false} SmoothRides(cfg: Config, body: Bodies, s: State, chain: Chain, events: seq<Event>,
                                       final: State, last: Chain, r: Ride)
    requires cfg.codec.Sound() && cfg.minConfirmations > 1 && Carried(cfg, s, chain, r)
    requires Smooth(cfg, body, s, chain, events, final, last)
    requires r.sent && r.height < |last| && r.txid in body(last[r.height])
    ensures Carried(cfg, final, last, r)
    ensures |chain| < |last| || NoneDeep(cfg, s.memory.value, chain) ==> NoneDeep(cfg, final.memory.value, last)
    decreases |events|
  {
    hide Inv, CountsHonest, AtTip, Rides, NoneDeep, GoodPass;
    SmoothGrows(cfg, body, s, chain, events, final, last);
    if events != [] {
      var next := After(cfg, s, events[0]);
      EventKeeps(cfg, s, events[0]);
      match events[0]
      case BitcoinPass(p) =>
        SmoothGrows(cfg, body, next, p.chain.value, events[1..], final, last);
        PassRides(cfg, body, s, chain, p, r);
        SmoothRides(cfg, body, next, p.chain.value, events[1..], final, last, r);
      case FillPass(ok, unreadable) =>
        AddedRides(cfg, s.ledger, s.store.db, r, s.memory.value, ok, unreadable, chain);
        if NoneDeep(cfg, s.memory.value, chain) { SameDeep(cfg, s.memory.value, next.memory.value, chain); }
        SmoothRides(cfg, body, next, chain, events[1..], final, last, r);
      case Accept(_, _) => SmoothRides(cfg, body, next, chain, events[1..], final, last, r);
      case WriteCount(_, _) => SmoothRides(cfg, body, next, chain, events[1..], final, last, r);
      case _ =>
    }
  }

  /** Where an entry scanned is, when no tree waits above the tip: it rides on the transaction about to be sent. */
  lemma ScannedRides(cfg: Config, s: State, chain: Chain, i: nat, r: Ride)
    requires Inv(cfg, s) && s.memory.Some? && i < s.memory.value.cursor && i < |s.ledger.journal|
    requires r.entry == s.ledger.journal[i] && !r.sent && |chain| <= r.height
    requires forall h :: h in s.memory.value.waiting ==> h < |chain|
    requires r.entry in s.memory.value.pending ==> forall v :: v in s.memory.value.unconfirmed ==> r.entry in v.over
    ensures Rides(r, s.memory.value, |chain|, s.store.db)
  {
    hide StoreOk, Linked, Unsaved, Prefixes;
  }

  /**
   * From any state that any run reaches with nothing owed: when a pass that fails nowhere sends a transaction, and
   * later passes that fail nowhere, over a growing chain, find it in a block under enough others, every entry scanned
   * before is in the database, whatever is accepted, filled, bumped and sent meanwhile. Versions already in flight must
   * be over the entry, as they are when there is none.
   */
  lemma StoredAtLast(cfg: Config, body: Bodies, first: State, before: seq<Event>, s: State, chain: Chain, p: Pass,
                     events: seq<Event>, final: State, last: Chain, i: nat, height: nat)
    requires cfg.codec.Sound() && cfg.minConfirmations > 1 && Initial(first) && Runs(cfg, first, before, s)
    requires s.memory.Some? && AtTip(s.memory.value, chain) && i < s.memory.value.cursor && i < |s.ledger.journal|
    requires forall h :: h in s.memory.value.waiting ==> h < |chain|
    requires var c, m := s.ledger.journal[i], s.memory.value;
             c in m.pending ==> forall v :: v in m.unconfirmed ==> c in v.over
    requires GoodPass(cfg, body, s, chain, p) && p.sending.Sent?
    requires |chain| < |p.chain.value| || s.memory.value.unconfirmed == []
    requires Smooth(cfg, body, DoBitcoin(cfg, s, p), p.chain.value, events, final, last)
    requires |p.chain.value| <= height && height + cfg.minConfirmations <= |last|
    requires p.sending.txid in body(last[height])
    ensures s.ledger.journal[i] in final.store.db
  {
    hide Inv, CountsHonest, AtTip, GoodPass, Initial, CleanPass, Smooth, DoBitcoin, Rides;
    InitialInv(cfg, first);
    InitialHonest(first);
    RunKeeps(cfg, first, before, s);
    var r := Ride(s.ledger.journal[i], p.sending.txid, height, false);
    GoodPassIsPossible(cfg, body, s, chain, p);
    ScannedRides(cfg, s, chain, i, r);
    PassRides(cfg, body, s, chain, p, r);
    EventKeeps(cfg, s, BitcoinPass(p));
    SmoothRides(cfg, body, DoBitcoin(cfg, s, p), p.chain.value, events, final, last, r.(sent := true));
    StoredByThen(cfg, final, last, r.(sent := true));
  }

  lemma InitialHonest(s: State)
    requires Initial(s)
    ensures CountsHonest(s.ledger)
  {
  }

  /** Riding on a block that is deep enough, with no tree waiting that is, is being stored. */
  lemma StoredByThen(cfg: Config, s: State, chain: Chain, r: Ride)
    requires s.memory.Some? && Rides(r, s.memory.value, |chain|, s.store.db) && NoneDeep(cfg, s.memory.value, chain)
    requires cfg.minConfirmations > 1 && r.height + cfg.minConfirmations <= |chain|
    ensures r.entry in s.store.db
  {
  }
}
