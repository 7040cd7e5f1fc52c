/**
 * What every step of the stamper keeps: nothing accepted is lost, the watermark is true and never goes
 * back, every in-flight version is a prefix of pending, a waiting tree is on the remembered chain or its
 * block is owed, and the receipts agree with the database.
 */
module StampingSafety {
  import opened Octets
  import opened Wrappers
  import opened KnownBlocks
  import opened ReceiptFile
  import opened Receipts
  import opened Stamping
  import Journal

  // --- the invariant -----------------------------------------------------------------------------

  /**
   * The watermark is true, the checkpoint is behind it and names this database, the receipts agree with the anchors.
   */
  ghost predicate StoreOk(cfg: Config, l: Ledger, st: Store, sent: map<Txid, nat>) {
    && |l.leaves| == |l.journal|
    && st.watermark <= |l.journal|
    && (forall i :: 0 <= i < st.watermark ==> l.journal[i] in st.db)
    && (st.checkpoint.Some? ==>
          st.checkpoint.value.idx <= st.watermark && st.generation.Some?
            && st.checkpoint.value.generation == st.generation)
    && (st.generation.None? ==> st.watermark == 0)
    && st.books.anchors == st.saved.Keys
    && (forall t :: t in st.saved ==> st.saved[t].txid == t && t in sent && sent[t] == st.saved[t].records)
    && Coherent(cfg.codec, st.books)
  }

  /** Pending, or in a tree waiting for depth. */
  ghost predicate Held(pending: seq<Commitment>, waiting: map<nat, Tree>, c: Commitment) {
    c in pending || exists h :: h in waiting && c in waiting[h].commitments
  }

  /** Every entry scanned is stored, or remembered under an index no higher and held in memory. */
  ghost predicate Scanned(journal: seq<Commitment>, db: set<Commitment>, watermark: nat,
                          idxs: map<Commitment, nat>, cursor: nat, pending: seq<Commitment>, waiting: map<nat, Tree>) {
    && cursor <= |journal|
    && (forall i :: 0 <= i < cursor ==> journal[i] in db || (journal[i] in idxs && idxs[journal[i]] <= i))
    && (forall c :: c in idxs ==> watermark <= idxs[c] < cursor && journal[idxs[c]] == c && Held(pending, waiting, c))
    && (cursor < watermark ==> pending == [] && waiting == map[])
  }

  /** A version's tip was built over the first n pending commitments. */
  ghost predicate PrefixOf(cfg: Config, pending: seq<Commitment>, v: Version) {
    0 < v.n <= |pending| && v.over == pending[..v.n] && v.tip == cfg.tipOf(v.over)
  }

  ghost predicate Prefixes(cfg: Config, pending: seq<Commitment>, unconfirmed: seq<Version>) {
    && Distinct(pending)
    && forall v :: v in unconfirmed ==> PrefixOf(cfg, pending, v)
  }

  /** A block that is, as far as the stamper has seen, the chain's at its height, or above what it has seen. */
  ghost predicate OnKnown(known: seq<Block>, height: nat, hash: Hash) {
    && known != [] && known[0].height <= height
    && (height > Tip(known) || (height - known[0].height < |known| && known[height - known[0].height].hash == hash))
  }

  ghost predicate OwedAt(unprocessed: seq<Block>, height: nat) {
    exists b :: b in unprocessed && b.height == height
  }

  ghost predicate Consecutive(known: seq<Block>) {
    forall k :: 0 <= k < |known| ==> known[k].height == known[0].height + k
  }

  /** Every waiting tree's block is the known chain's, or above its tip, or a block at its height is still owed. */
  ghost predicate Linked(known: seq<Block>, unprocessed: seq<Block>, waiting: map<nat, Tree>) {
    && Consecutive(known)
    && (forall b :: b in unprocessed ==> OnKnown(known, b.height, b.hash))
    && (forall h :: h in waiting ==>
          && waiting[h].height == h && known != [] && known[0].height <= h
          && (OnKnown(known, h, waiting[h].block) || OwedAt(unprocessed, h)))
  }

  /** Every transaction in memory is the wallet's and not yet saved, and no two trees share one. */
  ghost predicate Unsaved(saved: set<Txid>, sent: map<Txid, nat>, unconfirmed: seq<Version>, waiting: map<nat, Tree>) {
    && (forall v :: v in unconfirmed ==>
          && v.txid in sent && sent[v.txid] == v.records && v.txid !in saved
          && forall h :: h in waiting ==> waiting[h].txid != v.txid)
    && (forall h :: h in waiting ==>
          waiting[h].txid in sent && sent[waiting[h].txid] == waiting[h].records && waiting[h].txid !in saved)
    && (forall g, h :: g in waiting && h in waiting && g != h ==> waiting[g].txid != waiting[h].txid)
  }

  ghost predicate MemoryOk(cfg: Config, l: Ledger, st: Store, sent: map<Txid, nat>, m: Memory) {
    && st.generation.Some?
    && Scanned(l.journal, st.db, st.watermark, m.idxs, m.cursor, m.pending, m.waiting)
    && Prefixes(cfg, m.pending, m.unconfirmed)
    && Linked(m.known, m.unprocessed, m.waiting)
    && Unsaved(st.saved.Keys, sent, m.unconfirmed, m.waiting)
  }

  ghost predicate Inv(cfg: Config, s: State) {
    && StoreOk(cfg, s.ledger, s.store, s.sent)
    && (s.memory.Some? ==> MemoryOk(cfg, s.ledger, s.store, s.sent, s.memory.value))
  }

  // --- starts ------------------------------------------------------------------------------------

  /** After any stop the storage check accepts, and a scan from where it says skips only stored entries. */
  lemma StorageAccepted(cfg: Config, l: Ledger, st: Store, sent: map<Txid, nat>)
    requires StoreOk(cfg, l, st, sent) && |l.counts| <= Journal.RECORD_SIZE * |l.journal|
    ensures VerifyStorage(l, st).Success?
    ensures VerifyStorage(l, st).value <= st.watermark
    ensures forall i :: 0 <= i < VerifyStorage(l, st).value ==> l.journal[i] in st.db
  {
    hide Coherent;
  }

  lemma BeginKeeps(cfg: Config, s: State, newGeneration: Generation, order: seq<Txid>, faults: seq<SettleFault>)
    requires cfg.codec.Sound() && StoreOk(cfg, s.ledger, s.store, s.sent)
    requires |s.ledger.counts| <= Journal.RECORD_SIZE * |s.ledger.journal|
    requires Distinct(order) && forall t :: t in order ==> t in s.store.books.markers
    ensures var next := Begin(cfg, s, newGeneration, order, faults);
            Inv(cfg, next) && next.store.watermark == s.store.watermark
  {
    hide Coherent, SettleAll, VerifyStorage;
    StorageAccepted(cfg, s.ledger, s.store, s.sent);
    SettleAllKeepsCoherent(cfg.codec, s.store.books, order, faults);
  }

  // --- the fill pass -----------------------------------------------------------------------------

  lemma AddKeepsPrefixes(cfg: Config, pending: seq<Commitment>, c: Commitment, unconfirmed: seq<Version>)
    requires Prefixes(cfg, pending, unconfirmed)
    ensures Prefixes(cfg, Add(pending, c), unconfirmed)
  {
    forall v | v in unconfirmed ensures PrefixOf(cfg, Add(pending, c), v) {
      assert Add(pending, c)[..v.n] == pending[..v.n];
    }
  }

  /** Scanning one entry: a stored one is passed over, another becomes pending under its lowest index. */
  lemma ScanOne(journal: seq<Commitment>, db: set<Commitment>, watermark: nat, idxs: map<Commitment, nat>, cursor: nat,
                pending: seq<Commitment>, waiting: map<nat, Tree>)
    requires Scanned(journal, db, watermark, idxs, cursor, pending, waiting) && cursor < |journal|
    requires watermark <= |journal| && forall i :: 0 <= i < watermark ==> journal[i] in db
    ensures var c := journal[cursor];
            if c in db then Scanned(journal, db, watermark, idxs, cursor + 1, pending, waiting)
            else Scanned(journal, db, watermark, if c in idxs then idxs else idxs[c := cursor], cursor + 1,
                         Add(pending, c), waiting)
  {
    var c := journal[cursor];
    if c !in db {
      assert watermark <= cursor;
      forall d | d in idxs || d == c ensures Held(Add(pending, c), waiting, d) {
        if d != c { assert Held(pending, waiting, d); }
      }
    }
  }

  lemma FillOneKeeps(cfg: Config, l: Ledger, st: Store, sent: map<Txid, nat>, m: Memory, countReadable: bool)
    requires StoreOk(cfg, l, st, sent) && MemoryOk(cfg, l, st, sent, m) && m.cursor < |l.journal|
    ensures MemoryOk(cfg, l, st, sent, FillOne(l, st.db, m, countReadable))
  {
    hide Scanned, Linked, Unsaved, Coherent, Prefixes;
    ScanOne(l.journal, st.db, st.watermark, m.idxs, m.cursor, m.pending, m.waiting);
    AddKeepsPrefixes(cfg, m.pending, l.journal[m.cursor], m.unconfirmed);
  }

  lemma {:induction false} FillKeeps(cfg: Config, l: Ledger, st: Store, sent: map<Txid, nat>, m: Memory, ok: nat,
                                     unreadable: set<nat>)
    requires StoreOk(cfg, l, st, sent) && MemoryOk(cfg, l, st, sent, m)
    ensures MemoryOk(cfg, l, st, sent, Fill(cfg, l, st.db, m, ok, unreadable))
    decreases ok
  {
    hide StoreOk, MemoryOk, FillOne;
    if !(|m.pending| >= cfg.maxPending || m.cursor >= |l.journal| || ok == 0) {
      FillOneKeeps(cfg, l, st, sent, m, m.cursor !in unreadable);
      FillKeeps(cfg, l, st, sent, FillOne(l, st.db, m, m.cursor !in unreadable), ok - 1, unreadable);
    }
  }

  // --- discovery ---------------------------------------------------------------------------------

  /** A reorg that stays above the first remembered block, over a chain that is one chain. */
  ghost predicate Shallow(known: seq<Block>, chain: Chain) {
    Consistent(known, chain) && (known == [] || RollBack(known, chain) != [])
  }

  lemma {:induction false} BelowIs(blocks: seq<Block>, height: nat)
    ensures forall b :: b in Below(blocks, height) <==> b in blocks && b.height < height
  {
    if blocks != [] {
      BelowIs(blocks[1..], height);
      assert blocks == [blocks[0]] + blocks[1..];
    }
  }

  lemma QueueHolds(unprocessed: seq<Block>, news: seq<Block>)
    ensures forall b :: b in Queue(unprocessed, news)
                   <==> b in news || (b in unprocessed && (news == [] || b.height < news[0].height))
  {
    if news != [] { BelowIs(unprocessed, news[0].height); }
  }

  /** The remembered blocks after a discovery: consecutive, up to the tip, the new ones from the fork point up. */
  lemma DiscoveredConsecutive(known: seq<Block>, chain: Chain)
    requires Consecutive(known) && Shallow(known, chain)
    ensures var after, kept := Discovered(known, chain), RollBack(known, chain);
            && Consecutive(after) && after != [] && Tip(after) == |chain| - 1
            && (known != [] ==>
                  after[0] == known[0] && kept[|kept| - 1].height == |kept| - 1 + known[0].height < |chain|)
  {
    DiscoveredIsOnChain(known, chain);
    var kept, news, after := RollBack(known, chain), NewBlocks(known, chain), Discovered(known, chain);
    if known == [] {
      assert after == news;
    } else {
      assert kept[0] == known[0] && kept[|kept| - 1] == known[|kept| - 1];
      forall k | 0 <= k < |after| ensures after[k].height == known[0].height + k {
        assert after[k] == if k < |kept| then known[k] else news[k - |kept|];
      }
    }
  }

  /** A known block below the fork stays known; at or above it, its height is among the new blocks or above the tip. */
  lemma StillOnKnown(known: seq<Block>, chain: Chain, height: nat, hash: Hash)
    requires Consecutive(known) && Shallow(known, chain) && OnKnown(known, height, hash)
    ensures var news, after := NewBlocks(known, chain), Discovered(known, chain);
            if news == [] || height < news[0].height then OnKnown(after, height, hash)
            else OwedAt(news, height) || (height > Tip(after) && after != [] && after[0].height <= height)
  {
    hide Consistent, RollBack;
    DiscoveredConsecutive(known, chain);
    var kept, news, after := RollBack(known, chain), NewBlocks(known, chain), Discovered(known, chain);
    var fork := |kept| + known[0].height;
    if fork <= height <= |chain| - 1 {
      assert news[height - fork] in news && news[height - fork].height == height;
    } else if height < fork {
      assert after[height - known[0].height] == known[height - known[0].height];
    }
  }

  lemma NewsOnKnown(known: seq<Block>, chain: Chain, b: Block)
    requires Consecutive(known) && Shallow(known, chain) && b in NewBlocks(known, chain)
    ensures OnKnown(Discovered(known, chain), b.height, b.hash)
  {
    DiscoveredConsecutive(known, chain);
    var kept, news, after := RollBack(known, chain), NewBlocks(known, chain), Discovered(known, chain);
    var k :| 0 <= k < |news| && news[k] == b;
    assert after[|kept| + k] == b;
  }

  lemma WaitingStillLinked(m: Memory, chain: Chain, h: nat)
    requires Linked(m.known, m.unprocessed, m.waiting) && Shallow(m.known, chain) && h in m.waiting
    ensures var next := Observe(m, chain);
            OnKnown(next.known, h, m.waiting[h].block) || OwedAt(next.unprocessed, h)
  {
    hide Consistent, RollBack, Discovered, NewBlocks;
    var next, news := Observe(m, chain), NewBlocks(m.known, chain);
    QueueHolds(m.unprocessed, news);
    if OnKnown(m.known, h, m.waiting[h].block) {
      StillOnKnown(m.known, chain, h, m.waiting[h].block);
    } else {
      var b :| b in m.unprocessed && b.height == h;
      StillOnKnown(m.known, chain, h, b.hash);
    }
  }

  lemma ObserveKeeps(cfg: Config, l: Ledger, st: Store, sent: map<Txid, nat>, m: Memory, chain: Chain)
    requires MemoryOk(cfg, l, st, sent, m) && Shallow(m.known, chain)
    ensures MemoryOk(cfg, l, st, sent, Observe(m, chain))
  {
    hide Scanned, Unsaved, Prefixes;
    ObserveLinks(m, chain);
  }

  lemma ObserveLinks(m: Memory, chain: Chain)
    requires Linked(m.known, m.unprocessed, m.waiting) && Shallow(m.known, chain)
    ensures var next := Observe(m, chain); Linked(next.known, next.unprocessed, next.waiting)
  {
    hide Consistent, RollBack, OnKnown, OwedAt;
    var next, news := Observe(m, chain), NewBlocks(m.known, chain);
    DiscoveredConsecutive(m.known, chain);
    QueueHolds(m.unprocessed, news);
    forall b | b in next.unprocessed ensures OnKnown(next.known, b.height, b.hash) {
      if b in news {
        NewsOnKnown(m.known, chain, b);
      } else {
        StillOnKnown(m.known, chain, b.height, b.hash);
      }
    }
    forall h | h in m.waiting
      ensures OnKnown(next.known, h, m.waiting[h].block) || OwedAt(next.unprocessed, h) {
      WaitingStillLinked(m, chain, h);
    }
    assert m.waiting != map[] ==> exists h :: h in m.waiting;
  }

  // --- blocks ------------------------------------------------------------------------------------

  lemma {:induction false} AddAllIs(pending: seq<Commitment>, more: seq<Commitment>)
    requires Distinct(pending)
    ensures var r := AddAll(pending, more);
            && pending <= r && Distinct(r)
            && (forall c :: c in r <==> c in pending || c in more)
    decreases |more|
  {
    if more != [] {
      AddAllIs(Add(pending, more[0]), more[1..]);
      assert more == [more[0]] + more[1..];
    }
  }

  /** The commitments not yet among others, in order. */
  function Without(more: seq<Commitment>, there: seq<Commitment>): seq<Commitment> {
    if more == [] then []
    else (if more[0] in there then [] else [more[0]]) + Without(more[1..], there)
  }

  /** What goes back to pending goes to its end in its own order, less what is pending already. */
  lemma {:induction false} AddAllInOrder(pending: seq<Commitment>, more: seq<Commitment>)
    requires Distinct(more)
    ensures AddAll(pending, more) == pending + Without(more, pending)
    decreases |more|
  {
    if more != [] {
      hide Distinct;
      var c, rest := more[0], more[1..];
      DistinctRest(more);
      AddAllInOrder(Add(pending, c), rest);
      if c !in pending {
        WithoutOne(rest, pending, c);
        assert pending + [c] + Without(rest, pending) == pending + ([c] + Without(rest, pending));
      } else {
        assert [] + Without(rest, pending) == Without(rest, pending);
      }
    }
  }

  lemma DistinctRest<T>(s: seq<T>)
    requires s != [] && Distinct(s)
    ensures Distinct(s[1..]) && s[0] !in s[1..]
  {
  }

  lemma {:induction false} WithoutOne(more: seq<Commitment>, there: seq<Commitment>, c: Commitment)
    requires c !in more
    ensures Without(more, there + [c]) == Without(more, there)
    decreases |more|
  {
    if more != [] { WithoutOne(more[1..], there, c); }
  }

  lemma LongerKeepsPrefixes(cfg: Config, pending: seq<Commitment>, longer: seq<Commitment>, unconfirmed: seq<Version>)
    requires Prefixes(cfg, pending, unconfirmed) && pending <= longer && Distinct(longer)
    ensures Prefixes(cfg, longer, unconfirmed)
  {
    forall v | v in unconfirmed ensures PrefixOf(cfg, longer, v) {
      assert longer[..v.n] == pending[..v.n];
    }
  }

  lemma HeldAfterPutBack(pending: seq<Commitment>, waiting: map<nat, Tree>, height: nat, c: Commitment)
    requires Distinct(pending) && height in waiting && Held(pending, waiting, c)
    ensures Held(AddAll(pending, waiting[height].commitments), waiting - {height}, c)
  {
    AddAllIs(pending, waiting[height].commitments);
    if c !in pending {
      var h :| h in waiting && c in waiting[h].commitments;
      if h != height { assert h in waiting - {height}; }
    }
  }

  lemma PutBackKeepsScanned(l: Ledger, st: Store, m: Memory, height: nat)
    requires Scanned(l.journal, st.db, st.watermark, m.idxs, m.cursor, m.pending, m.waiting) && Distinct(m.pending)
    requires height in m.waiting
    ensures var next := PutBack(m, height);
            Scanned(l.journal, st.db, st.watermark, next.idxs, next.cursor, next.pending, next.waiting)
  {
    hide Held;
    var next := PutBack(m, height);
    forall c | c in m.idxs ensures Held(next.pending, next.waiting, c) {
      HeldAfterPutBack(m.pending, m.waiting, height, c);
    }
  }

  lemma PutBackKeeps(cfg: Config, l: Ledger, st: Store, sent: map<Txid, nat>, m: Memory, height: nat)
    requires MemoryOk(cfg, l, st, sent, m)
    ensures MemoryOk(cfg, l, st, sent, PutBack(m, height))
    ensures var back := PutBack(m, height);
            height !in back.waiting && back.unprocessed == m.unprocessed && back.unconfirmed == m.unconfirmed
            && back.known == m.known
  {
    if height in m.waiting {
      hide Scanned;
      var next := PutBack(m, height);
      AddAllIs(m.pending, m.waiting[height].commitments);
      PutBackKeepsScanned(l, st, m, height);
      LongerKeepsPrefixes(cfg, m.pending, next.pending, m.unconfirmed);
    }
  }

  lemma MinedIs(unconfirmed: seq<Version>, txids: set<Txid>)
    ensures var v := Mined(unconfirmed, txids); v.Some? ==> v.value in unconfirmed && v.value.txid in txids
  {
  }

  /** A block whose body was read leaves the queue; what then waits at its height came from it. */
  lemma DequeueKeepsLinked(known: seq<Block>, unprocessed: seq<Block>, waiting: map<nat, Tree>, tree: Option<Tree>)
    requires unprocessed != [] && Linked(known, unprocessed, waiting) && unprocessed[0].height !in waiting
    requires tree.Some? ==> tree.value.height == unprocessed[0].height && tree.value.block == unprocessed[0].hash
    ensures Linked(known, unprocessed[1..],
                   if tree.None? then waiting else waiting[unprocessed[0].height := tree.value])
  {
    hide OnKnown;
    var b := unprocessed[0];
    assert unprocessed == [b] + unprocessed[1..];
    assert OnKnown(known, b.height, b.hash);
    assert known != [] && known[0].height <= b.height by { OnKnownAbove(known, b.height, b.hash); }
    forall h | h in waiting && OwedAt(unprocessed, h) ensures OwedAt(unprocessed[1..], h) {
      var d :| d in unprocessed && d.height == h;
      assert d in unprocessed[1..];
    }
  }

  lemma OnKnownAbove(known: seq<Block>, height: nat, hash: Hash)
    requires OnKnown(known, height, hash)
    ensures known != [] && known[0].height <= height
  {
  }

  lemma HeldAfterMove(pending: seq<Commitment>, waiting: map<nat, Tree>, height: nat, tree: Tree, n: nat, c: Commitment)
    requires n <= |pending| && tree.commitments == pending[..n] && height !in waiting && Held(pending, waiting, c)
    ensures Held(pending[n..], waiting[height := tree], c)
  {
    var moved := waiting[height := tree];
    if c in pending {
      assert pending == pending[..n] + pending[n..];
      assert height in moved;
    } else {
      var h :| h in waiting && c in waiting[h].commitments;
      assert h in moved;
    }
  }

  lemma MoveKeepsScanned(l: Ledger, st: Store, m: Memory, b: Block, v: Version)
    requires Scanned(l.journal, st.db, st.watermark, m.idxs, m.cursor, m.pending, m.waiting)
    requires b.height !in m.waiting && 0 < v.n <= |m.pending|
    ensures var next := Move(m, b, v, m.pending[..v.n]);
            Scanned(l.journal, st.db, st.watermark, next.idxs, next.cursor, next.pending, next.waiting)
  {
    hide Held;
    var next := Move(m, b, v, m.pending[..v.n]);
    forall c | c in m.idxs ensures Held(next.pending, next.waiting, c) {
      HeldAfterMove(m.pending, m.waiting, b.height, next.waiting[b.height], v.n, c);
    }
  }

  /**
   * A version found in a block is over exactly the first n pending, so the tip rebuilt from them is its own:
   * the assertion at the rebuilt tip never fails, and the tree that waits holds exactly what the version did.
   */
  lemma TipAssertionHolds(cfg: Config, pending: seq<Commitment>, unconfirmed: seq<Version>, v: Version)
    requires Prefixes(cfg, pending, unconfirmed) && v in unconfirmed
    ensures 0 < v.n <= |pending| && Take(pending, v.n) == pending[..v.n] == v.over
    ensures cfg.tipOf(Take(pending, v.n)) == v.tip
  {
    assert PrefixOf(cfg, pending, v);
  }

  lemma MoveKeeps(cfg: Config, l: Ledger, st: Store, sent: map<Txid, nat>, m: Memory, v: Version)
    requires MemoryOk(cfg, l, st, sent, m) && m.unprocessed != [] && m.unprocessed[0].height !in m.waiting
    requires v in m.unconfirmed && 0 < v.n <= |m.pending|
    ensures var b := m.unprocessed[0];
            MemoryOk(cfg, l, st, sent, Move(m.(unprocessed := m.unprocessed[1..]), b, v, m.pending[..v.n]))
  {
    hide Scanned, Linked;
    var b := m.unprocessed[0];
    var read := m.(unprocessed := m.unprocessed[1..]);
    var next := Move(read, b, v, m.pending[..v.n]);
    MoveKeepsScanned(l, st, read, b, v);
    DequeueKeepsLinked(m.known, m.unprocessed, m.waiting, Some(next.waiting[b.height]));
    assert forall c :: c in next.pending ==> c in m.pending;
  }

  lemma DropKeeps(cfg: Config, l: Ledger, st: Store, sent: map<Txid, nat>, m: Memory)
    requires MemoryOk(cfg, l, st, sent, m) && m.unprocessed != [] && m.unprocessed[0].height !in m.waiting
    ensures MemoryOk(cfg, l, st, sent, m.(unprocessed := m.unprocessed[1..]))
  {
    hide Scanned, Unsaved, Linked, Prefixes;
    DequeueKeepsLinked(m.known, m.unprocessed, m.waiting, None);
  }

  lemma VersionFits(cfg: Config, l: Ledger, st: Store, sent: map<Txid, nat>, m: Memory, v: Version)
    requires MemoryOk(cfg, l, st, sent, m) && v in m.unconfirmed
    ensures 0 < v.n <= |m.pending| && Take(m.pending, v.n) == m.pending[..v.n]
    ensures cfg.tipOf(Take(m.pending, v.n)) == v.tip
  {
    hide Scanned, Unsaved, Linked, Prefixes;
    TipAssertionHolds(cfg, m.pending, m.unconfirmed, v);
  }

  lemma ProcessBlockKeeps(cfg: Config, l: Ledger, st: Store, sent: map<Txid, nat>, m: Memory,
                          bodies: map<Hash, set<Txid>>)
    requires MemoryOk(cfg, l, st, sent, m) && m.unprocessed != []
    ensures var (next, progress) := ProcessBlock(cfg, m, bodies);
            MemoryOk(cfg, l, st, sent, next) && progress != AssertionFailed && next.known == m.known
  {
    hide MemoryOk, PutBack;
    var b := m.unprocessed[0];
    var back := PutBack(m, b.height);
    PutBackKeeps(cfg, l, st, sent, m, b.height);
    if b.hash in bodies {
      var found := Mined(m.unconfirmed, bodies[b.hash]);
      MinedIs(m.unconfirmed, bodies[b.hash]);
      DropKeeps(cfg, l, st, sent, back);
      if found.Some? {
        VersionFits(cfg, l, st, sent, back, found.value);
        MoveKeeps(cfg, l, st, sent, back, found.value);
      }
    }
  }

  /** Reading the queue: the assertion never fails, and done means nothing is owed. */
  lemma {:induction false} ProcessBlocksKeeps(cfg: Config, l: Ledger, st: Store, sent: map<Txid, nat>, m: Memory,
                                              bodies: map<Hash, set<Txid>>)
    requires MemoryOk(cfg, l, st, sent, m)
    ensures var (next, progress) := ProcessBlocks(cfg, m, bodies);
            && MemoryOk(cfg, l, st, sent, next) && progress != AssertionFailed && next.known == m.known
            && (progress == Done ==> next.unprocessed == [])
    decreases |m.unprocessed|
  {
    hide MemoryOk;
    if m.unprocessed != [] {
      ProcessBlockKeeps(cfg, l, st, sent, m, bodies);
      var (next, progress) := ProcessBlock(cfg, m, bodies);
      if progress == Done { ProcessBlocksKeeps(cfg, l, st, sent, next, bodies); }
    }
  }

  // --- saving ------------------------------------------------------------------------------------

  /**
   * The watermark a save commits is true once its tree is stored, not below the one before, and as far as it can be:
   * at an entry still held and not in the tree, or where the scan is.
   */
  lemma WatermarkIsTrue(l: Ledger, st: Store, m: Memory, height: nat)
    requires Scanned(l.journal, st.db, st.watermark, m.idxs, m.cursor, m.pending, m.waiting) && height in m.waiting
    ensures var tree := m.waiting[height];
            var w := CheckpointAfter(m, tree);
            && st.watermark <= w <= m.cursor <= |l.journal|
            && (forall i :: 0 <= i < w ==> l.journal[i] in st.db || l.journal[i] in tree.commitments)
            && (w < m.cursor ==> l.journal[w] in m.idxs && l.journal[w] !in tree.commitments)
  {
    hide Held;
    var tree := m.waiting[height];
    var outstanding := Outstanding(m.idxs, tree.commitments);
    assert forall c :: c in m.idxs && c !in tree.commitments ==> m.idxs[c] in outstanding;
    assert forall i :: i in outstanding ==> st.watermark <= i < m.cursor;
    assert forall i :: 0 <= i < CheckpointAfter(m, tree) ==> i !in outstanding;
  }

  /** What is left in memory once a saved tree is released still covers everything scanned. */
  lemma ReleaseKeepsScanned(l: Ledger, st: Store, m: Memory, height: nat)
    requires Scanned(l.journal, st.db, st.watermark, m.idxs, m.cursor, m.pending, m.waiting) && height in m.waiting
    ensures var tree, left := m.waiting[height], Released(m, height);
            Scanned(l.journal, st.db + (set c | c in tree.commitments), CheckpointAfter(m, tree),
                    left.idxs, left.cursor, left.pending, left.waiting)
  {
    var tree, left := m.waiting[height], Released(m, height);
    WatermarkIsTrue(l, st, m, height);
    forall c | c in left.idxs ensures Held(left.pending, left.waiting, c) && CheckpointAfter(m, tree) <= m.idxs[c] {
      if c !in m.pending {
        var h :| h in m.waiting && c in m.waiting[h].commitments;
        assert h in left.waiting;
      }
      assert m.idxs[c] in Outstanding(m.idxs, tree.commitments);
    }
  }

  lemma LandedOk(cfg: Config, l: Ledger, st: Store, sent: map<Txid, nat>, m: Memory, height: nat, books: Books)
    requires StoreOk(cfg, l, st, sent) && MemoryOk(cfg, l, st, sent, m) && height in m.waiting
    requires Coherent(cfg.codec, books) && books.anchors == st.books.anchors + {m.waiting[height].txid}
    ensures var tree := m.waiting[height];
            var after := Landed(st, tree, CheckpointAfter(m, tree), books);
            StoreOk(cfg, l, after, sent) && st.watermark <= after.watermark
  {
    hide Coherent, Linked, Scanned, Prefixes;
    var tree := m.waiting[height];
    var after := Landed(st, tree, CheckpointAfter(m, tree), books);
    WatermarkIsTrue(l, st, m, height);
    assert after.saved.Keys == st.saved.Keys + {tree.txid};
    forall i | 0 <= i < after.watermark ensures l.journal[i] in after.db {
      assert l.journal[i] in st.db || l.journal[i] in tree.commitments;
    }
  }

  lemma ReleasedOk(cfg: Config, l: Ledger, st: Store, sent: map<Txid, nat>, m: Memory, height: nat, books: Books)
    requires MemoryOk(cfg, l, st, sent, m) && height in m.waiting
    ensures var tree := m.waiting[height];
            MemoryOk(cfg, l, Landed(st, tree, CheckpointAfter(m, tree), books), sent, Released(m, height))
  {
    hide Scanned, Prefixes;
    var tree, left := m.waiting[height], Released(m, height);
    var after := Landed(st, tree, CheckpointAfter(m, tree), books);
    ReleaseKeepsScanned(l, st, m, height);
    assert after.saved.Keys == st.saved.Keys + {tree.txid};
  }

  lemma NotYetSaved(cfg: Config, l: Ledger, st: Store, sent: map<Txid, nat>, m: Memory, height: nat)
    requires StoreOk(cfg, l, st, sent) && MemoryOk(cfg, l, st, sent, m) && height in m.waiting
    ensures m.waiting[height].txid !in st.books.anchors && Coherent(cfg.codec, st.books)
  {
    hide Coherent, Scanned, Linked, Prefixes;
  }

  /** The checkpoint file only ever gets the watermark the database just committed; memory does not depend on it. */
  lemma CheckpointOk(cfg: Config, l: Ledger, st: Store, sent: map<Txid, nat>, m: Memory)
    requires StoreOk(cfg, l, st, sent) && MemoryOk(cfg, l, st, sent, m)
    ensures var written := st.(checkpoint := Some(Checkpoint(st.watermark, st.generation)));
            StoreOk(cfg, l, written, sent) && MemoryOk(cfg, l, written, sent, m)
  {
    hide Coherent, Scanned, Linked, Prefixes, Unsaved;
  }

  lemma BooksOk(cfg: Config, l: Ledger, st: Store, sent: map<Txid, nat>, m: Memory, books: Books)
    requires StoreOk(cfg, l, st, sent) && MemoryOk(cfg, l, st, sent, m)
    requires Coherent(cfg.codec, books) && books.anchors == st.books.anchors
    ensures StoreOk(cfg, l, st.(books := books), sent) && MemoryOk(cfg, l, st.(books := books), sent, m)
  {
    hide Coherent, Scanned, Linked, Prefixes, Unsaved;
  }

  /** What one save leaves of memory: all of it, all but the tree, or (a stop) nothing. */
  ghost predicate LeftOk(m: Memory, height: nat, left: Option<Memory>)
    requires height in m.waiting
  {
    left.None? || left.value == m || left.value == Released(m, height)
  }

  lemma SaveTreeKeeps(cfg: Config, l: Ledger, st: Store, sent: map<Txid, nat>, m: Memory, height: nat, plan: SavePlan)
    requires cfg.codec.Sound() && StoreOk(cfg, l, st, sent) && MemoryOk(cfg, l, st, sent, m) && height in m.waiting
    ensures var (after, left) := SaveTree(cfg, st, m, height, plan);
            && StoreOk(cfg, l, after, sent) && (left.Some? ==> MemoryOk(cfg, l, after, sent, left.value))
            && st.watermark <= after.watermark && LeftOk(m, height, left)
            && (after.saved == st.saved || after.saved == st.saved[m.waiting[height].txid := m.waiting[height]])
  {
    hide StoreOk, MemoryOk, Coherent, Save, Listed, CheckpointAfter;
    var tree := m.waiting[height];
    var order := Listed(st.books, plan.order);
    var (books, end) := Save(cfg.codec, st.books, ReceiptOf(tree, plan.at), order, plan.script);
    NotYetSaved(cfg, l, st, sent, m, height);
    SaveKeepsCoherent(cfg.codec, st.books, ReceiptOf(tree, plan.at), order, plan.script);
    if tree.txid in books.anchors {
      var after := Landed(st, tree, CheckpointAfter(m, tree), books);
      LandedOk(cfg, l, st, sent, m, height, books);
      ReleasedOk(cfg, l, st, sent, m, height, books);
      CheckpointOk(cfg, l, after, sent, Released(m, height));
    } else {
      BooksOk(cfg, l, st, sent, m, books);
    }
  }

  /** Mined in the known chain's block at its height, with at least minConfirmations - 1 blocks known above it. */
  ghost predicate Deep(cfg: Config, known: seq<Block>, tree: Tree) {
    && known != [] && known[0].height <= tree.height
    && tree.height + cfg.minConfirmations <= Tip(known) + 1
    && tree.height - known[0].height < |known| && known[tree.height - known[0].height].hash == tree.block
  }

  /** A tree that is due, with nothing owed, is deep. */
  lemma DueIsDeep(cfg: Config, l: Ledger, st: Store, sent: map<Txid, nat>, m: Memory, height: nat)
    requires MemoryOk(cfg, l, st, sent, m) && m.unprocessed == [] && cfg.minConfirmations > 1
    requires height in m.waiting && height < MatureBound(cfg, m.known)
    ensures Deep(cfg, m.known, m.waiting[height]) && m.waiting[height].txid !in st.saved
  {
    hide Scanned, Prefixes;
  }

  /** Only what was saved before, or is deep in the given chain, is saved after. */
  ghost predicate SavesOnlyDeep(cfg: Config, known: seq<Block>, before: map<Txid, Tree>, after: map<Txid, Tree>) {
    && (forall t :: t in before ==> t in after && after[t] == before[t])
    && (forall t :: t in after && t !in before ==> Deep(cfg, known, after[t]))
  }

  lemma {:induction false} SaveTreesKeeps(cfg: Config, l: Ledger, st: Store, sent: map<Txid, nat>, m: Memory,
                                          due: seq<nat>, plans: seq<SavePlan>)
    requires cfg.codec.Sound() && cfg.minConfirmations > 1
    requires StoreOk(cfg, l, st, sent) && MemoryOk(cfg, l, st, sent, m) && m.unprocessed == []
    requires Distinct(due) && forall h :: h in due ==> h in m.waiting && h < MatureBound(cfg, m.known)
    ensures var (after, left) := SaveTrees(cfg, st, m, due, plans);
            && StoreOk(cfg, l, after, sent) && (left.Some? ==> MemoryOk(cfg, l, after, sent, left.value))
            && st.watermark <= after.watermark && SavesOnlyDeep(cfg, m.known, st.saved, after.saved)
    decreases |due|
  {
    hide StoreOk, MemoryOk, SaveTree, Deep, MatureBound;
    if due != [] && plans != [] {
      var (after, left) := SaveTree(cfg, st, m, due[0], plans[0]);
      SaveTreeKeeps(cfg, l, st, sent, m, due[0], plans[0]);
      DueIsDeep(cfg, l, st, sent, m, due[0]);
      assert due == [due[0]] + due[1..] && due[0] !in due[1..];
      if left.Some? {
        SaveTreesKeeps(cfg, l, after, sent, left.value, due[1..], plans[1..]);
      }
    }
  }

  // --- sending -----------------------------------------------------------------------------------

  /** A transaction id newly broadcast is no earlier transaction's. */
  ghost predicate NewTxid(sent: map<Txid, nat>, how: Sending) {
    (how.Sent? || how.SentThenStopped?) ==> how.txid !in sent
  }

  lemma SentOk(cfg: Config, l: Ledger, st: Store, sent: map<Txid, nat>, txid: Txid, records: nat)
    requires StoreOk(cfg, l, st, sent) && txid !in sent
    ensures StoreOk(cfg, l, st, sent[txid := records])
  {
    hide Coherent;
  }

  /** A new version is over all of pending, so a prefix of it like the versions before. */
  lemma VersionKeeps(cfg: Config, l: Ledger, st: Store, sent: map<Txid, nat>, m: Memory, txid: Txid, fee: nat,
                     records: nat)
    requires StoreOk(cfg, l, st, sent) && MemoryOk(cfg, l, st, sent, m) && txid !in sent && m.pending != []
    ensures var v := NewVersion(cfg, m, txid, fee, records);
            MemoryOk(cfg, l, st, sent[txid := records], m.(unconfirmed := m.unconfirmed + [v]))
  {
    hide Coherent, Scanned, Linked;
    var v := NewVersion(cfg, m, txid, fee, records);
    assert m.pending[..|m.pending|] == m.pending;
    assert PrefixOf(cfg, m.pending, v);
  }

  lemma CountsFree(cfg: Config, l: Ledger, st: Store, sent: map<Txid, nat>, m: Memory, counted: map<Commitment, nat>)
    requires MemoryOk(cfg, l, st, sent, m)
    ensures MemoryOk(cfg, l, st, sent, m.(counted := counted))
    ensures MemoryOk(cfg, l, st, sent, m.(counted := counted, unconfirmed := []))
  {
    hide Scanned, Linked;
  }

  lemma SendKeeps(cfg: Config, l: Ledger, st: Store, sent: map<Txid, nat>, m: Memory, newBlocks: bool, how: Sending)
    requires StoreOk(cfg, l, st, sent) && MemoryOk(cfg, l, st, sent, m) && NewTxid(sent, how)
    ensures var (sent', left) := Send(cfg, l, sent, m, newBlocks, how);
            StoreOk(cfg, l, st, sent') && (left.Some? ==> MemoryOk(cfg, l, st, sent', left.value))
  {
    hide StoreOk, MemoryOk, CountTree, CountedAtClose, NewVersion;
    if !((!newBlocks && m.unconfirmed != []) || how.NotNow? || m.pending == []) {
      var records := CountTree(l, m, m.pending, how.unreadable);
      var counted := CountedAtClose(l, m, m.pending, how.unreadable);
      CountsFree(cfg, l, st, sent, m, counted);
      if how.Sent? || how.SentThenStopped? {
        SentOk(cfg, l, st, sent, how.txid, records);
        if how.Sent? {
          VersionKeeps(cfg, l, st, sent, m, how.txid, how.fee, records);
          CountsFree(cfg, l, st, sent[how.txid := records],
                     m.(unconfirmed := m.unconfirmed + [NewVersion(cfg, m, how.txid, how.fee, records)]), counted);
        }
      }
    }
  }

  // --- passes ------------------------------------------------------------------------------------

  ghost predicate PassPossible(s: State, p: Pass) {
    && s.memory.Some?
    && (p.chain.Some? ==> Shallow(s.memory.value.known, p.chain.value))
    && NewTxid(s.sent, p.sending)
  }

  /**
   * One pass. Whatever fails in it, the invariant stands, the watermark does not go back, and every tree it
   * saves was mined in the block the known chain then holds at that height, deep enough, with no block owed.
   */
  lemma PassKeeps(cfg: Config, s: State, p: Pass)
    requires cfg.codec.Sound() && cfg.minConfirmations > 1 && Inv(cfg, s) && PassPossible(s, p)
    ensures var next := DoBitcoin(cfg, s, p);
            && Inv(cfg, next) && s.store.watermark <= next.store.watermark && next.ledger == s.ledger
            && (p.chain.None? ==> next == s)
            && (p.chain.Some? ==>
                  SavesOnlyDeep(cfg, Discovered(s.memory.value.known, p.chain.value), s.store.saved, next.store.saved))
  {
    hide StoreOk, MemoryOk, SaveTrees, Send, ProcessBlocks, Discovered, NewBlocks, MatureBound, Shallow, Queue, Deep;
    if p.chain.Some? {
      var l, st, m := s.ledger, s.store, s.memory.value;
      ObserveKeeps(cfg, l, st, s.sent, m, p.chain.value);
      ProcessBlocksKeeps(cfg, l, st, s.sent, Observe(m, p.chain.value), p.bodies);
      var (read, progress) := ProcessBlocks(cfg, Observe(m, p.chain.value), p.bodies);
      if progress == Done {
        SaveTreesKeeps(cfg, l, st, s.sent, read, Due(read.waiting, MatureBound(cfg, read.known)), p.plans);
        var (store, swept) := SaveMature(cfg, st, read, p.plans);
        if swept.Some? {
          SendKeeps(cfg, l, store, s.sent, swept.value, NewBlocks(m.known, p.chain.value) != [], p.sending);
        }
      }
    }
  }

  /** What is deep in what a discovery remembers is deep in the node's own chain. */
  lemma DeepOnNodesChain(cfg: Config, known: seq<Block>, chain: Chain, tree: Tree)
    requires Consecutive(known) && Shallow(known, chain) && Deep(cfg, Discovered(known, chain), tree)
    ensures tree.height + cfg.minConfirmations <= |chain| && OnChain(chain, Block(tree.height, tree.block))
  {
    DiscoveredConsecutive(known, chain);
    DiscoveredIsOnChain(known, chain);
    hide Discovered, RollBack, Consistent, Shallow, NewBlocks;
    var after := Discovered(known, chain);
    var b := after[tree.height - after[0].height];
    assert OnChain(chain, b) && b == Block(tree.height, tree.block);
  }

  lemma KnownConsecutive(cfg: Config, s: State)
    requires Inv(cfg, s) && s.memory.Some?
    ensures Consecutive(s.memory.value.known)
  {
    hide StoreOk, Scanned, Prefixes, Unsaved;
  }

  /** A tree newly saved is in the block the node itself holds at that height, under enough of the node's blocks. */
  lemma SavedIsOnNodesChain(cfg: Config, s: State, p: Pass, t: Txid)
    requires cfg.codec.Sound() && cfg.minConfirmations > 1 && Inv(cfg, s) && PassPossible(s, p)
    requires t in DoBitcoin(cfg, s, p).store.saved && t !in s.store.saved
    ensures p.chain.Some?
    ensures var tree, chain := DoBitcoin(cfg, s, p).store.saved[t], p.chain.value;
            tree.height + cfg.minConfirmations <= |chain| && OnChain(chain, Block(tree.height, tree.block))
  {
    PassKeeps(cfg, s, p);
    KnownConsecutive(cfg, s);
    hide Inv, DoBitcoin, Discovered, Shallow, Deep;
    DeepOnNodesChain(cfg, s.memory.value.known, p.chain.value, DoBitcoin(cfg, s, p).store.saved[t]);
  }

  // --- runs --------------------------------------------------------------------------------------

  datatype Event =
    | Accept(commitment: Commitment, leaves: nat)              // the aggregator's entry, synced
    | WriteCount(idx: nat, bytes: nat)                         // its count, as far as the write got
    | Start(generation: Generation, order: seq<Txid>, faults: seq<SettleFault>)
    | FillPass(ok: nat, unreadable: set<nat>)
    | BitcoinPass(pass: Pass)
    | Stop
    | LosePower(keep: nat, tail: Bytes, back: set<Txid>)
    | DropCheckpoint                                           // the operator's rescan

  ghost predicate Possible(s: State, e: Event) {
    match e
    case Accept(_, _) => true
    case WriteCount(idx, bytes) =>
      && idx < |s.ledger.leaves| && bytes <= Journal.RECORD_SIZE && Journal.Stored(s.ledger.leaves[idx]).Some?
      && Journal.Cell(s.ledger.counts, idx) == Zeros(Journal.RECORD_SIZE)
    case Start(_, order, _) => s.memory.None? && Lists(order, s.store.books)
    case FillPass(_, _) => s.memory.Some?
    case BitcoinPass(p) => PassPossible(s, p)
    case Stop => true
    case LosePower(keep, tail, _) => s.store.books.synced <= keep <= |s.store.books.file| && NEWLINE !in tail
    case DropCheckpoint => s.memory.None?
  }

  function Accepted(l: Ledger, c: Commitment, n: nat): Ledger {
    l.(journal := l.journal + [c], leaves := l.leaves + [n])
  }

  ghost function After(cfg: Config, s: State, e: Event): State
    requires Possible(s, e)
  {
    match e
    case Accept(c, n) => s.(ledger := Accepted(s.ledger, c, n))
    case WriteCount(idx, bytes) =>
      var data := Journal.Stored(s.ledger.leaves[idx]).value[..bytes];
      s.(ledger := s.ledger.(counts := Journal.PWrite(s.ledger.counts, idx * Journal.RECORD_SIZE, data)))
    case Start(generation, order, faults) => Begin(cfg, s, generation, order, faults)
    case FillPass(ok, unreadable) => s.(memory := Some(Fill(cfg, s.ledger, s.store.db, s.memory.value, ok, unreadable)))
    case BitcoinPass(p) => DoBitcoin(cfg, s, p)
    case Stop => s.(memory := None)
    case LosePower(keep, tail, back) =>
      s.(store := s.store.(books := PowerLoss(s.store.books, keep, tail, back)), memory := None)
    case DropCheckpoint => s.(store := s.store.(checkpoint := None))
  }

  /** The ledger as the journal's two files give it. */
  function LedgerOf(journal: Bytes, leaves: seq<nat>, counts: Bytes): Ledger {
    Ledger(Journal.Entries(journal), leaves, counts)
  }

  /**
   * What JournalWriter.Submit leaves of the files, however far its count got, is what the two events leave of the
   * ledger: the entry, then as much of its count.
   */
  lemma SubmitIsTwoEvents(cfg: Config, s: State, journal: Bytes, leaves: seq<nat>, counts: Bytes, padded: Bytes,
                          records: nat, countBytes: nat)
    requires s.ledger == LedgerOf(journal, leaves, counts) && |journal| % Journal.COMMITMENT_SIZE == 0
    requires |leaves| == Journal.EntryCount(journal) && Journal.Honest(counts, leaves)
    requires |padded| == Journal.COMMITMENT_SIZE && countBytes <= Journal.RECORD_SIZE && Journal.Stored(records).Some?
    ensures var accept, count := Accept(Journal.Strip(padded), records), WriteCount(|leaves|, countBytes);
            && Possible(s, accept) && Possible(After(cfg, s, accept), count)
            && After(cfg, After(cfg, s, accept), count).ledger
               == LedgerOf(journal + padded, leaves + [records],
                           Journal.PWrite(counts, |leaves| * Journal.RECORD_SIZE,
                                          Journal.Stored(records).value[..countBytes]))
  {
    Journal.AppendAddsOne(journal, padded);
    Journal.EntryKeepsHonest(counts, leaves, records);
  }

  ghost predicate Runs(cfg: Config, s: State, events: seq<Event>, final: State)
    decreases |events|
  {
    if events == [] then final == s
    else Possible(s, events[0]) && Runs(cfg, After(cfg, s, events[0]), events[1..], final)
  }

  /** A calendar just created, or one from before generations: nothing marked, receipted or remembered. */
  ghost predicate Initial(s: State) {
    && |s.ledger.leaves| == |s.ledger.journal| && Journal.Honest(s.ledger.counts, s.ledger.leaves)
    && s.store.watermark == 0 && s.store.checkpoint == None && s.store.saved == map[]
    && s.store.books == Books([], 0, map[], map[], {})
    && s.memory == None
  }

  lemma InitialInv(cfg: Config, s: State)
    requires Initial(s)
    ensures Inv(cfg, s)
  {
    assert Txids(cfg.codec, []) == [];
  }

  lemma AcceptKeeps(cfg: Config, s: State, c: Commitment, n: nat)
    requires Inv(cfg, s)
    ensures Inv(cfg, s.(ledger := Accepted(s.ledger, c, n)))
  {
    hide Coherent, Linked, Unsaved, Prefixes, Held;
  }

  /**
   * Neither the counts nor, while nothing runs, the receipts' unsynced part or the checkpoint hold the invariant up.
   */
  lemma CountsDoNotMatter(cfg: Config, s: State, counts: Bytes)
    requires Inv(cfg, s)
    ensures Inv(cfg, s.(ledger := s.ledger.(counts := counts)))
  {
    hide Coherent, Linked, Unsaved, Prefixes, Scanned;
  }

  lemma PowerLossKeeps(cfg: Config, s: State, keep: nat, tail: Bytes, back: set<Txid>)
    requires Inv(cfg, s) && s.store.books.synced <= keep <= |s.store.books.file| && NEWLINE !in tail
    ensures Inv(cfg, s.(store := s.store.(books := PowerLoss(s.store.books, keep, tail, back)), memory := None))
  {
    PowerLossKeepsCoherent(cfg.codec, s.store.books, keep, tail, back);
    hide Coherent, MemoryOk;
  }

  lemma DropCheckpointKeeps(cfg: Config, s: State)
    requires Inv(cfg, s) && s.memory.None?
    ensures Inv(cfg, s.(store := s.store.(checkpoint := None)))
  {
    hide Coherent;
  }

  lemma LedgerMatches(cfg: Config, s: State)
    requires Inv(cfg, s)
    ensures |s.ledger.leaves| == |s.ledger.journal|
  {
    hide Coherent, MemoryOk;
  }

  ghost predicate CountsHonest(l: Ledger) {
    Journal.Honest(l.counts, l.leaves)
  }

  lemma EventKeeps(cfg: Config, s: State, e: Event)
    requires cfg.codec.Sound() && cfg.minConfirmations > 1 && Possible(s, e)
    requires Inv(cfg, s) && CountsHonest(s.ledger)
    ensures var next := After(cfg, s, e);
            && Inv(cfg, next) && CountsHonest(next.ledger)
            && s.store.watermark <= next.store.watermark && s.ledger.journal <= next.ledger.journal
  {
    hide StoreOk, MemoryOk, DoBitcoin, Fill, VerifyStorage, SettleAll, SavesOnlyDeep;
    match e
    case Accept(c, n) =>
      AcceptKeeps(cfg, s, c, n);
      LedgerMatches(cfg, s);
      Journal.EntryKeepsHonest(s.ledger.counts, s.ledger.leaves, n);
    case WriteCount(idx, bytes) =>
      Journal.PutKeepsHonest(s.ledger.counts, s.ledger.leaves, idx, bytes);
      CountsDoNotMatter(cfg, s, After(cfg, s, e).ledger.counts);
    case Start(generation, order, faults) =>
      LedgerMatches(cfg, s);
      BeginKeeps(cfg, s, generation, order, faults);
    case FillPass(ok, unreadable) =>
      FillKeeps(cfg, s.ledger, s.store, s.sent, s.memory.value, ok, unreadable);
    case BitcoinPass(p) => PassKeeps(cfg, s, p);
    case Stop =>
    case LosePower(keep, tail, back) => PowerLossKeeps(cfg, s, keep, tail, back);
    case DropCheckpoint => DropCheckpointKeeps(cfg, s);
  }

  lemma {:induction false} RunKeeps(cfg: Config, s: State, events: seq<Event>, final: State)
    requires cfg.codec.Sound() && cfg.minConfirmations > 1 && Runs(cfg, s, events, final)
    requires Inv(cfg, s) && CountsHonest(s.ledger)
    ensures Inv(cfg, final) && CountsHonest(final.ledger)
    ensures s.store.watermark <= final.store.watermark && s.ledger.journal <= final.ledger.journal
    decreases |events|
  {
    hide Inv, After, Possible, CountsHonest;
    if events != [] {
      EventKeeps(cfg, s, events[0]);
      RunKeeps(cfg, After(cfg, s, events[0]), events[1..], final);
    }
  }

  /**
   * Nothing accepted is lost. After any run from a fresh calendar, with any reads, fetches, saves and writes
   * failing and any stops and restarts: every journal entry scanned is in the database, pending, or in a
   * waiting tree; every entry below the watermark is in the database; the storage check accepts, at or below
   * the watermark, so a restart skips only stored entries; every receipt on file names a saved anchor.
   */
  lemma NothingLost(cfg: Config, s: State, events: seq<Event>, final: State)
    requires cfg.codec.Sound() && cfg.minConfirmations > 1 && Initial(s) && Runs(cfg, s, events, final)
    ensures final.memory.Some? ==> var m := final.memory.value;
              m.cursor <= |final.ledger.journal|
              && forall i :: 0 <= i < m.cursor ==>
                   final.ledger.journal[i] in final.store.db || Held(m.pending, m.waiting, final.ledger.journal[i])
    ensures final.store.watermark <= |final.ledger.journal|
    ensures forall i :: 0 <= i < final.store.watermark ==> final.ledger.journal[i] in final.store.db
    ensures VerifyStorage(final.ledger, final.store).Success?
    ensures VerifyStorage(final.ledger, final.store).value <= final.store.watermark
    ensures forall t :: t in Txids(cfg.codec, final.store.books.file) ==> t in final.store.saved
  {
    hide Held, Prefixes, Linked, Unsaved;
    InitialInv(cfg, s);
    RunKeeps(cfg, s, events, final);
    StorageAccepted(cfg, final.ledger, final.store, final.sent);
  }

  /** After any run from a fresh calendar, no pass finds a tip other than the one its mined version was sent with. */
  lemma AssertionNeverFails(cfg: Config, s: State, events: seq<Event>, final: State, p: Pass)
    requires cfg.codec.Sound() && cfg.minConfirmations > 1 && Initial(s) && Runs(cfg, s, events, final)
    requires PassPossible(final, p) && p.chain.Some?
    ensures ProcessBlocks(cfg, Observe(final.memory.value, p.chain.value), p.bodies).1 != AssertionFailed
  {
    hide StoreOk, MemoryOk, ProcessBlocks, Observe, Shallow;
    InitialInv(cfg, s);
    RunKeeps(cfg, s, events, final);
    ObserveKeeps(cfg, final.ledger, final.store, final.sent, final.memory.value, p.chain.value);
    ProcessBlocksKeeps(cfg, final.ledger, final.store, final.sent, Observe(final.memory.value, p.chain.value),
                       p.bodies);
  }
}
