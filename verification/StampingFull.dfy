/**
 * When counts are read whole (otsserver/stamper.py: __count_tree_records): with journal commitments all different, a
 * tree closed over counts that were all written and could be read charges every leaf journalled under it, and over a
 * run of such closes the receipts, on file and owed, charge exactly the leaves of what was stored.
 */
module StampingFull {
  import opened Octets
  import opened Wrappers
  import opened KnownBlocks
  import opened ReceiptFile
  import opened Receipts
  import opened Stamping
  import opened StampingSafety
  import opened StampingReceipts
  import opened StampingAccounts
  import opened Billing
  import Journal

  // --- one tree ----------------------------------------------------------------------------------

  /** Every count remembered is still what the entry's cell reads. */
  ghost predicate Remembered(l: Ledger, idxs: map<Commitment, nat>, counted: map<Commitment, nat>) {
    forall c :: c in counted ==> c in idxs && Journal.Get(l.counts, idxs[c]) == Some(counted[c])
  }

  /** What one commitment adds to its tree's count at close. */
  function Summed(l: Ledger, m: Memory, c: Commitment, unreadable: set<nat>): nat {
    match CountAtClose(l, m, c, unreadable)
    case None => 0
    case Some(n) => n
  }

  lemma {:induction false} OfMissing(journal: seq<Commitment>, leaves: seq<nat>, c: Commitment)
    requires |leaves| == |journal| && c !in journal
    ensures Of(journal, leaves, c) == 0
    decreases |journal|
  {
    if journal != [] { OfMissing(journal[..|journal| - 1], leaves[..|journal| - 1], c); }
  }

  lemma {:induction false} OfOwn(journal: seq<Commitment>, leaves: seq<nat>, i: nat)
    requires |leaves| == |journal| && Distinct(journal) && i < |journal|
    ensures Of(journal, leaves, journal[i]) == leaves[i]
    decreases |journal|
  {
    var n := |journal| - 1;
    if i < n {
      OfOwn(journal[..n], leaves[..n], i);
    } else {
      OfMissing(journal[..n], leaves[..n], journal[n]);
    }
  }

  /** A tree's charge is all of its leaves exactly when each commitment's count at close is all of its own. */
  lemma {:induction false} CountTreeFullIff(l: Ledger, st: Store, m: Memory, cs: seq<Commitment>, unreadable: set<nat>)
    requires |l.leaves| == |l.journal| && CountsHonest(l) && MemoryBilled(l, m)
    requires Scanned(l.journal, st.db, st.watermark, m.idxs, m.cursor, m.pending, m.waiting)
    ensures CountTree(l, m, cs, unreadable) == OfAll(l.journal, l.leaves, cs)
            <==> forall c :: c in cs ==> Summed(l, m, c, unreadable) == Of(l.journal, l.leaves, c)
    decreases |cs|
  {
    hide CountsHonest, MemoryBilled, Scanned, CountAtClose, Of;
    if cs != [] {
      var front, last := cs[..|cs| - 1], cs[|cs| - 1];
      CountTreeLow(l, st, m, front, unreadable);
      CountAtCloseLow(l, st, m, last, unreadable);
      CountTreeFullIff(l, st, m, front, unreadable);
      assert CountTree(l, m, cs, unreadable) == CountTree(l, m, front, unreadable) + Summed(l, m, last, unreadable);
      assert OfAll(l.journal, l.leaves, cs) == OfAll(l.journal, l.leaves, front) + Of(l.journal, l.leaves, last);
      assert forall c :: c in cs <==> c in front || c == last by {
        assert cs == front + [last];
      }
      hide CountTree, OfAll, Summed;
    }
  }

  /** The entry's count was written whole and can be read. */
  ghost predicate Whole(l: Ledger, idx: nat, unreadable: set<nat>) {
    idx < |l.leaves| && Journal.Get(l.counts, idx) == Some(l.leaves[idx]) && idx !in unreadable
  }

  ghost predicate AllWhole(l: Ledger, idxs: map<Commitment, nat>, unreadable: set<nat>) {
    forall c :: c in idxs ==> Whole(l, idxs[c], unreadable)
  }

  /** With entries all different and their counts whole and readable, a tree charges every leaf under it. */
  lemma CountTreeFull(l: Ledger, st: Store, m: Memory, cs: seq<Commitment>, unreadable: set<nat>)
    requires |l.leaves| == |l.journal| && CountsHonest(l) && MemoryBilled(l, m) && Distinct(l.journal)
    requires Scanned(l.journal, st.db, st.watermark, m.idxs, m.cursor, m.pending, m.waiting)
    requires Remembered(l, m.idxs, m.counted) && AllWhole(l, m.idxs, unreadable) && forall c :: c in cs ==> c in m.idxs
    ensures CountTree(l, m, cs, unreadable) == OfAll(l.journal, l.leaves, cs)
  {
    hide CountsHonest, MemoryBilled, Of, Held;
    CountTreeFullIff(l, st, m, cs, unreadable);
    forall c | c in cs ensures Summed(l, m, c, unreadable) == Of(l.journal, l.leaves, c) {
      assert Whole(l, m.idxs[c], unreadable);
      OfOwn(l.journal, l.leaves, m.idxs[c]);
    }
  }

  // --- the invariant -----------------------------------------------------------------------------

  /** Every broadcast version and every waiting tree charges all its leaves. */
  ghost predicate MemoryFull(l: Ledger, m: Memory)
    requires |l.leaves| == |l.journal|
  {
    && Remembered(l, m.idxs, m.counted)
    && (forall v :: v in m.unconfirmed ==> v.records == OfAll(l.journal, l.leaves, v.over))
    && (forall h :: h in m.waiting ==> m.waiting[h].records == OfAll(l.journal, l.leaves, m.waiting[h].commitments))
  }

  /** The saved anchors charge the leaves of what was stored since `base`, all of it journalled. */
  ghost predicate StoreFull(l: Ledger, st: Store, sent: map<Txid, nat>, base: set<Commitment>)
    requires |l.leaves| == |l.journal|
  {
    && st.saved.Keys <= sent.Keys && base <= st.db && (forall c :: c in st.db ==> c in base || c in l.journal)
    && SumOver(st.saved.Keys, sent) == In(l.journal, l.leaves, st.db - base)
  }

  ghost predicate Full(s: State, base: set<Commitment>) {
    && |s.ledger.leaves| == |s.ledger.journal|
    && StoreFull(s.ledger, s.store, s.sent, base)
    && (s.memory.Some? ==> MemoryFull(s.ledger, s.memory.value))
  }

  // --- the fill pass and the blocks --------------------------------------------------------------

  lemma FillOneFull(l: Ledger, st: Store, m: Memory, countReadable: bool)
    requires Distinct(l.journal) && |l.leaves| == |l.journal| && MemoryFull(l, m) && m.cursor < |l.journal|
    requires Scanned(l.journal, st.db, st.watermark, m.idxs, m.cursor, m.pending, m.waiting)
    ensures MemoryFull(l, FillOne(l, st.db, m, countReadable))
  {
    hide Held, OfAll;
    assert forall i :: 0 <= i < m.cursor ==> l.journal[i] != l.journal[m.cursor];
  }

  lemma {:induction false} FillFull(cfg: Config, l: Ledger, st: Store, sent: map<Txid, nat>, m: Memory, ok: nat,
                                    unreadable: set<nat>)
    requires StoreOk(cfg, l, st, sent) && MemoryOk(cfg, l, st, sent, m) && Distinct(l.journal)
    requires |l.leaves| == |l.journal| && MemoryFull(l, m)
    ensures MemoryFull(l, Fill(cfg, l, st.db, m, ok, unreadable))
    decreases ok
  {
    hide StoreOk, MemoryOk, MemoryFull, FillOne;
    if !(|m.pending| >= cfg.maxPending || m.cursor >= |l.journal| || ok == 0) {
      ScannedOf(cfg, l, st, sent, m);
      FillOneKeeps(cfg, l, st, sent, m, m.cursor !in unreadable);
      FillOneFull(l, st, m, m.cursor !in unreadable);
      FillFull(cfg, l, st, sent, FillOne(l, st.db, m, m.cursor !in unreadable), ok - 1, unreadable);
    }
  }

  lemma ProcessBlockFull(cfg: Config, l: Ledger, st: Store, sent: map<Txid, nat>, m: Memory,
                         bodies: map<Hash, set<Txid>>)
    requires |l.leaves| == |l.journal| && MemoryFull(l, m) && MemoryOk(cfg, l, st, sent, m) && m.unprocessed != []
    ensures MemoryFull(l, ProcessBlock(cfg, m, bodies).0) && ProcessBlock(cfg, m, bodies).0.idxs == m.idxs
  {
    hide MemoryOk, OfAll, AddAll, Take, Mined;
    var b := m.unprocessed[0];
    var back := PutBack(m, b.height);
    PutBackKeeps(cfg, l, st, sent, m, b.height);
    if b.hash in bodies {
      var found := Mined(m.unconfirmed, bodies[b.hash]);
      MinedIs(m.unconfirmed, bodies[b.hash]);
      if found.Some? { VersionIsFront(cfg, l, st, sent, back, found.value); }
    }
  }

  lemma {:induction false} ProcessBlocksFull(cfg: Config, l: Ledger, st: Store, sent: map<Txid, nat>, m: Memory,
                                             bodies: map<Hash, set<Txid>>)
    requires |l.leaves| == |l.journal| && MemoryFull(l, m) && MemoryOk(cfg, l, st, sent, m)
    ensures MemoryFull(l, ProcessBlocks(cfg, m, bodies).0) && ProcessBlocks(cfg, m, bodies).0.idxs == m.idxs
    decreases |m.unprocessed|
  {
    hide MemoryOk, MemoryFull, ProcessBlock;
    if m.unprocessed != [] {
      ProcessBlockKeeps(cfg, l, st, sent, m, bodies);
      ProcessBlockFull(cfg, l, st, sent, m, bodies);
      Dequeues(cfg, m, bodies);
      var (next, progress) := ProcessBlock(cfg, m, bodies);
      if progress == Done { ProcessBlocksFull(cfg, l, st, sent, next, bodies); }
    }
  }

  // --- saves -------------------------------------------------------------------------------------

  /** A saved tree adds to the sum exactly the leaves under what it adds to the database. */
  lemma LandedFull(l: Ledger, st: Store, sent: map<Txid, nat>, m: Memory, height: nat, books: Books, mark: nat,
                   base: set<Commitment>)
    requires |l.leaves| == |l.journal| && StoreFull(l, st, sent, base) && MemoryExact(l, st, m) && MemoryFull(l, m)
    requires height in m.waiting
    requires var tree := m.waiting[height];
             tree.txid !in st.saved && tree.txid in sent && sent[tree.txid] == tree.records
    ensures StoreFull(l, Landed(st, m.waiting[height], mark, books), sent, base)
  {
    var tree := m.waiting[height];
    var after := Landed(st, tree, mark, books);
    assert after.saved.Keys == st.saved.Keys + {tree.txid};
    SumAdds(st.saved.Keys, tree.txid, sent);
    InAddsAll(l.journal, l.leaves, st.db - base, tree.commitments);
    assert after.db - base == (st.db - base) + (set c | c in tree.commitments);
    assert forall c :: c in l.journal[..m.cursor] ==> c in l.journal;
  }

  lemma SaveTreeFull(cfg: Config, l: Ledger, st: Store, sent: map<Txid, nat>, m: Memory, height: nat, plan: SavePlan,
                     base: set<Commitment>)
    requires cfg.codec.Sound() && StoreOk(cfg, l, st, sent) && MemoryOk(cfg, l, st, sent, m) && height in m.waiting
    requires |l.leaves| == |l.journal| && StoreFull(l, st, sent, base) && MemoryExact(l, st, m) && MemoryFull(l, m)
    ensures var (after, left) := SaveTree(cfg, st, m, height, plan);
            && StoreFull(l, after, sent, base)
            && (left.Some? ==> MemoryFull(l, left.value) && left.value.idxs.Keys <= m.idxs.Keys
                               && forall c :: c in left.value.idxs ==> left.value.idxs[c] == m.idxs[c])
  {
    hide StoreOk, MemoryOk, Coherent, Save, Listed, CheckpointAfter, MemoryExact, OfAll;
    TreeIsSent(cfg, l, st, sent, m, height);
    var tree := m.waiting[height];
    var order := Listed(st.books, plan.order);
    var books := Save(cfg.codec, st.books, ReceiptOf(tree, plan.at), order, plan.script).0;
    LandedFull(l, st, sent, m, height, books, CheckpointAfter(m, tree), base);
  }

  lemma {:induction false} SaveTreesFull(cfg: Config, l: Ledger, st: Store, sent: map<Txid, nat>, m: Memory,
                                         due: seq<nat>, plans: seq<SavePlan>, base: set<Commitment>)
    requires cfg.codec.Sound() && StoreOk(cfg, l, st, sent) && MemoryOk(cfg, l, st, sent, m)
    requires |l.leaves| == |l.journal| && StoreBilled(l, st, sent)
    requires StoreFull(l, st, sent, base) && MemoryExact(l, st, m) && MemoryFull(l, m)
    ensures var (after, left) := SaveTrees(cfg, st, m, due, plans);
            && StoreFull(l, after, sent, base)
            && (left.Some? ==> MemoryFull(l, left.value) && left.value.idxs.Keys <= m.idxs.Keys
                               && forall c :: c in left.value.idxs ==> left.value.idxs[c] == m.idxs[c])
    decreases |due|
  {
    hide StoreOk, MemoryOk, SaveTree, StoreBilled, StoreFull, MemoryExact, MemoryFull;
    if due != [] && plans != [] && due[0] in m.waiting {
      var (after, left) := SaveTree(cfg, st, m, due[0], plans[0]);
      SaveTreeKeeps(cfg, l, st, sent, m, due[0], plans[0]);
      SaveTreeExact(cfg, l, st, sent, m, due[0], plans[0]);
      SaveTreeFull(cfg, l, st, sent, m, due[0], plans[0], base);
      if left.Some? {
        SaveTreesFull(cfg, l, after, sent, left.value, due[1..], plans[1..], base);
      }
    }
  }

  // --- the send ----------------------------------------------------------------------------------

  /** Whatever the send closes over, it closes over whole. */
  ghost predicate ClosesWhole(l: Ledger, m: Memory, how: Sending) {
    !how.NotNow? ==> AllWhole(l, m.idxs, how.unreadable)
  }

  lemma PendingIndexed(l: Ledger, st: Store, m: Memory)
    requires |l.leaves| == |l.journal| && MemoryExact(l, st, m)
    requires Scanned(l.journal, st.db, st.watermark, m.idxs, m.cursor, m.pending, m.waiting)
    ensures forall c :: c in m.pending ==> c in m.idxs
  {
    hide Held, MemoryBilled;
    forall c | c in m.pending ensures c in m.idxs {
      var i :| 0 <= i < m.cursor && l.journal[i] == c;
    }
  }

  lemma CountedStillReads(l: Ledger, m: Memory, cs: seq<Commitment>, unreadable: set<nat>)
    requires Remembered(l, m.idxs, m.counted)
    ensures Remembered(l, m.idxs, CountedAtClose(l, m, cs, unreadable))
  {
  }

  lemma RememberedOf(l: Ledger, m: Memory)
    requires |l.leaves| == |l.journal| && MemoryFull(l, m)
    ensures Remembered(l, m.idxs, m.counted)
  {
    hide OfAll, Remembered;
  }

  /** Closing a tree, and sending it or giving up, leaves what is in flight charging all its leaves. */
  lemma LeftFull(l: Ledger, m: Memory, counted: map<Commitment, nat>, unconfirmed: seq<Version>)
    requires |l.leaves| == |l.journal| && MemoryFull(l, m) && Remembered(l, m.idxs, counted)
    requires forall v :: v in unconfirmed ==> v in m.unconfirmed || v.records == OfAll(l.journal, l.leaves, v.over)
    ensures MemoryFull(l, m.(counted := counted, unconfirmed := unconfirmed))
  {
    hide OfAll, Remembered;
  }

  /** What a close reads: every count of pending whole, and remembered as it reads. */
  lemma CloseReads(cfg: Config, l: Ledger, st: Store, sent: map<Txid, nat>, m: Memory, how: Sending)
    requires |l.leaves| == |l.journal| && CountsHonest(l) && Distinct(l.journal) && MemoryOk(cfg, l, st, sent, m)
    requires MemoryExact(l, st, m) && MemoryFull(l, m) && !how.NotNow? && AllWhole(l, m.idxs, how.unreadable)
    ensures CountTree(l, m, m.pending, how.unreadable) == OfAll(l.journal, l.leaves, m.pending)
    ensures Remembered(l, m.idxs, CountedAtClose(l, m, m.pending, how.unreadable))
  {
    hide MemoryOk, MemoryExact, CountsHonest, Scanned, Remembered, CountTree, CountedAtClose, OfAll, Distinct,
         MemoryBilled, AllWhole, MemoryFull;
    ScannedOf(cfg, l, st, sent, m);
    PendingIndexed(l, st, m);
    BilledOf(l, st, m);
    RememberedOf(l, m);
    CountTreeFull(l, st, m, m.pending, how.unreadable);
    CountedStillReads(l, m, m.pending, how.unreadable);
  }

  lemma SendFull(cfg: Config, l: Ledger, st: Store, sent: map<Txid, nat>, m: Memory, newBlocks: bool, how: Sending,
                 base: set<Commitment>)
    requires |l.leaves| == |l.journal| && CountsHonest(l) && Distinct(l.journal) && MemoryOk(cfg, l, st, sent, m)
    requires MemoryExact(l, st, m) && MemoryFull(l, m) && StoreFull(l, st, sent, base)
    requires NewTxid(sent, how) && ClosesWhole(l, m, how)
    ensures var (sent', left) := Send(cfg, l, sent, m, newBlocks, how);
            StoreFull(l, st, sent', base) && (left.Some? ==> MemoryFull(l, left.value))
  {
    if !((!newBlocks && m.unconfirmed != []) || how.NotNow? || m.pending == []) {
      hide MemoryOk, MemoryExact, CountsHonest, Remembered, CountTree, CountedAtClose, OfAll, StoreFull, Distinct,
           AllWhole, MemoryFull;
      CloseReads(cfg, l, st, sent, m, how);
      var records := CountTree(l, m, m.pending, how.unreadable);
      var counted := CountedAtClose(l, m, m.pending, how.unreadable);
      LeftFull(l, m, counted, m.unconfirmed);
      LeftFull(l, m, counted, []);
      if how.Sent? || how.SentThenStopped? {
        SentFull(l, st, sent, how.txid, records, base);
        LeftFull(l, m, counted, m.unconfirmed + [NewVersion(cfg, m, how.txid, how.fee, records)]);
      }
    }
  }

  lemma SentFull(l: Ledger, st: Store, sent: map<Txid, nat>, txid: Txid, records: nat, base: set<Commitment>)
    requires |l.leaves| == |l.journal| && StoreFull(l, st, sent, base) && txid !in sent
    ensures StoreFull(l, st, sent[txid := records], base)
  {
    SumAgrees(st.saved.Keys, sent, sent[txid := records]);
  }

  // --- passes and runs ---------------------------------------------------------------------------

  lemma ObserveFull(l: Ledger, m: Memory, chain: Chain)
    requires |l.leaves| == |l.journal| && MemoryFull(l, m)
    ensures MemoryFull(l, Observe(m, chain)) && Observe(m, chain).idxs == m.idxs
  {
    hide Discovered, Queue, NewBlocks, OfAll;
  }

  lemma PassFull(cfg: Config, s: State, p: Pass, base: set<Commitment>)
    requires cfg.codec.Sound() && cfg.minConfirmations > 1 && Inv(cfg, s) && PassPossible(s, p)
    requires StampingAccounts.Exact(s)
    requires Full(s, base) && ClosesWhole(s.ledger, s.memory.value, p.sending)
    ensures Full(DoBitcoin(cfg, s, p), base)
  {
    hide StoreOk, MemoryOk, SaveTrees, Send, ProcessBlocks, NewBlocks, MatureBound, Shallow, Observe,
         MemoryExact, MemoryFull, StoreBilled, StoreFull, CountsHonest, SavesOnlyDeep, Whole;
    if p.chain.Some? {
      var l, st, m := s.ledger, s.store, s.memory.value;
      var seen := Observe(m, p.chain.value);
      ObserveKeeps(cfg, l, st, s.sent, m, p.chain.value);
      ObserveExact(l, st, m, p.chain.value);
      ObserveFull(l, m, p.chain.value);
      ProcessBlocksKeeps(cfg, l, st, s.sent, seen, p.bodies);
      ProcessBlocksExact(cfg, l, st, s.sent, seen, p.bodies);
      ProcessBlocksFull(cfg, l, st, s.sent, seen, p.bodies);
      var (read, progress) := ProcessBlocks(cfg, seen, p.bodies);
      if progress == Done {
        var due := Due(read.waiting, MatureBound(cfg, read.known));
        SaveTreesKeeps(cfg, l, st, s.sent, read, due, p.plans);
        SaveTreesExact(cfg, l, st, s.sent, read, due, p.plans);
        SaveTreesFull(cfg, l, st, s.sent, read, due, p.plans, base);
        var (store, swept) := SaveMature(cfg, st, read, p.plans);
        if swept.Some? {
          SendFull(cfg, l, store, s.sent, swept.value, NewBlocks(m.known, p.chain.value) != [], p.sending, base);
        }
      }
    }
  }

  lemma OfNew(l: Ledger, c: Commitment, n: nat, d: Commitment)
    requires |l.leaves| == |l.journal| && d != c
    ensures Of(l.journal + [c], l.leaves + [n], d) == Of(l.journal, l.leaves, d)
  {
    assert (l.journal + [c])[..|l.journal|] == l.journal && (l.leaves + [n])[..|l.leaves|] == l.leaves;
  }

  lemma {:induction false} OfAllNew(l: Ledger, c: Commitment, n: nat, cs: seq<Commitment>)
    requires |l.leaves| == |l.journal| && c !in cs
    ensures OfAll(l.journal + [c], l.leaves + [n], cs) == OfAll(l.journal, l.leaves, cs)
    decreases |cs|
  {
    if cs != [] {
      OfAllNew(l, c, n, cs[..|cs| - 1]);
      OfNew(l, c, n, cs[|cs| - 1]);
    }
  }

  lemma VersionsJournalled(cfg: Config, l: Ledger, st: Store, sent: map<Txid, nat>, m: Memory)
    requires |l.leaves| == |l.journal| && MemoryOk(cfg, l, st, sent, m) && MemoryExact(l, st, m)
    ensures forall v, c :: v in m.unconfirmed && c in v.over ==> c in l.journal
    ensures forall h, c :: h in m.waiting && c in m.waiting[h].commitments ==> c in l.journal
  {
    hide Scanned, Linked, Unsaved, MemoryBilled;
    forall v, c | v in m.unconfirmed && c in v.over ensures c in l.journal {
      assert PrefixOf(cfg, m.pending, v);
      assert c in m.pending;
    }
    assert forall c :: c in l.journal[..m.cursor] ==> c in l.journal;
  }

  lemma AcceptFull(cfg: Config, s: State, c: Commitment, n: nat, base: set<Commitment>)
    requires Inv(cfg, s) && StampingAccounts.Exact(s) && Full(s, base) && c !in s.ledger.journal
    ensures Full(s.(ledger := Accepted(s.ledger, c, n)), base)
  {
    hide StoreOk, MemoryOk, MemoryExact, StoreBilled, CountsHonest, SumOver;
    var l := s.ledger;
    var next := Accepted(l, c, n);
    assert next.journal[..|l.journal|] == l.journal && next.leaves[..|l.leaves|] == l.leaves;
    if s.memory.Some? {
      var m := s.memory.value;
      VersionsJournalled(cfg, l, s.store, s.sent, m);
      MemoryGrows(l, m, c, n);
    }
  }

  lemma MemoryGrows(l: Ledger, m: Memory, c: Commitment, n: nat)
    requires |l.leaves| == |l.journal| && MemoryFull(l, m) && c !in l.journal
    requires forall v, d :: v in m.unconfirmed && d in v.over ==> d in l.journal
    requires forall h, d :: h in m.waiting && d in m.waiting[h].commitments ==> d in l.journal
    ensures MemoryFull(Accepted(l, c, n), m)
  {
    hide OfAll, Journal.Get;
    forall v | v in m.unconfirmed { OfAllNew(l, c, n, v.over); }
    forall h | h in m.waiting { OfAllNew(l, c, n, m.waiting[h].commitments); }
  }

  /** A count written into an empty cell changes no count that could be read. */
  lemma WriteKeepsReads(file: Bytes, idx: nat, data: Bytes, i: nat)
    requires Journal.Cell(file, idx) == Zeros(Journal.RECORD_SIZE) && |data| <= Journal.RECORD_SIZE
    requires Journal.Get(file, i).Some?
    ensures Journal.Get(Journal.PWrite(file, idx * Journal.RECORD_SIZE, data), i) == Journal.Get(file, i)
  {
    var after, size := Journal.PWrite(file, idx * Journal.RECORD_SIZE, data), Journal.RECORD_SIZE;
    if i == idx {
      assert file[i * size..(i + 1) * size] == Journal.Cell(file, i);
      Journal.ZeroCell();
      assert false;
    } else {
      assert after[i * size..(i + 1) * size] == file[i * size..(i + 1) * size];
    }
  }

  lemma WriteFull(cfg: Config, s: State, idx: nat, bytes: nat, base: set<Commitment>)
    requires Full(s, base) && Possible(s, WriteCount(idx, bytes))
    ensures Full(After(cfg, s, WriteCount(idx, bytes)), base)
  {
    var l := s.ledger;
    var data := Journal.Stored(l.leaves[idx]).value[..bytes];
    forall i: nat | Journal.Get(l.counts, i).Some?
      ensures Journal.Get(Journal.PWrite(l.counts, idx * Journal.RECORD_SIZE, data), i) == Journal.Get(l.counts, i) {
      WriteKeepsReads(l.counts, idx, data, i);
    }
    hide Journal.Get, Journal.PWrite, OfAll, In, SumOver;
  }

  lemma BeginFull(cfg: Config, s: State, generation: Generation, order: seq<Txid>, faults: seq<SettleFault>,
                  base: set<Commitment>)
    requires Full(s, base) && Distinct(order) && forall t :: t in order ==> t in s.store.books.markers
    ensures Full(Begin(cfg, s, generation, order, faults), base)
  {
    hide SettleAll, VerifyStorage, In, SumOver;
  }

  /** Every tree closed, whether sent or not, closes over counts written whole and readable. */
  ghost predicate CountsAreRead(s: State, e: Event)
    requires Possible(s, e)
  {
    e.BitcoinPass? ==> ClosesWhole(s.ledger, s.memory.value, e.pass.sending)
  }

  lemma EventFull(cfg: Config, s: State, e: Event, base: set<Commitment>)
    requires cfg.codec.Sound() && cfg.minConfirmations > 1 && Possible(s, e) && EntryIsNew(s, e) && CountsAreRead(s, e)
    requires Inv(cfg, s) && StampingAccounts.Exact(s) && Full(s, base)
    ensures Full(After(cfg, s, e), base)
  {
    hide StoreOk, MemoryOk, DoBitcoin, Fill, VerifyStorage, SettleAll, Begin, Shallow, In, SumOver, MemoryExact,
         MemoryFull, StoreBilled, ClosesWhole;
    match e
    case Accept(c, n) => AcceptFull(cfg, s, c, n, base);
    case WriteCount(idx, bytes) => WriteFull(cfg, s, idx, bytes, base);
    case Start(generation, order, faults) => BeginFull(cfg, s, generation, order, faults, base);
    case FillPass(ok, unreadable) => FillFull(cfg, s.ledger, s.store, s.sent, s.memory.value, ok, unreadable);
    case BitcoinPass(p) => PassFull(cfg, s, p, base);
    case _ =>
  }

  /** A run whose journal entries are all new and whose trees all close over whole counts. */
  ghost predicate FullyCounted(cfg: Config, s: State, events: seq<Event>, final: State)
    requires Runs(cfg, s, events, final)
    decreases |events|
  {
    events != [] ==>
      && EntryIsNew(s, events[0]) && CountsAreRead(s, events[0])
      && FullyCounted(cfg, After(cfg, s, events[0]), events[1..], final)
  }

  lemma {:induction false} RunFull(cfg: Config, s: State, events: seq<Event>, final: State, base: set<Commitment>)
    requires cfg.codec.Sound() && cfg.minConfirmations > 1 && Runs(cfg, s, events, final)
    requires FullyCounted(cfg, s, events, final)
    requires Inv(cfg, s) && StampingAccounts.Exact(s) && Full(s, base)
    ensures Full(final, base)
    decreases |events|
  {
    hide Inv, StampingAccounts.Exact, Full, After, Possible, CountsAreRead;
    if events != [] {
      HonestOf(s);
      EventKeeps(cfg, s, events[0]);
      EventExact(cfg, s, events[0]);
      EventFull(cfg, s, events[0], base);
      RunFull(cfg, After(cfg, s, events[0]), events[1..], final, base);
    }
  }

  lemma {:induction false} InNothing(journal: seq<Commitment>, leaves: seq<nat>)
    requires |leaves| == |journal|
    ensures In(journal, leaves, {}) == 0
    decreases |journal|
  {
    if journal != [] { InNothing(journal[..|journal| - 1], leaves[..|journal| - 1]); }
  }

  lemma InitialFull(s: State)
    requires Initial(s) && Distinct(s.ledger.journal)
    ensures Full(s, s.store.db)
  {
    InNothing(s.ledger.journal, s.ledger.leaves);
    assert s.store.db - s.store.db == {} && s.store.saved.Keys == {};
  }

  /**
   * Billing never undercounts either. Over any run, with any failing saves, reorgs, fee bumps, stops and restarts, in
   * which entries are all different and every tree closes over counts written whole and readable: the records on all
   * receipts on file, with those still owed by a marker, are exactly the leaves journalled under what was stored.
   */
  lemma ChargesAll(cfg: Config, s: State, events: seq<Event>, final: State)
    requires cfg.codec.Sound() && cfg.minConfirmations > 1 && Runs(cfg, s, events, final)
    requires FullyCounted(cfg, s, events, final)
    requires Initial(s) && Distinct(s.ledger.journal)
    ensures |final.ledger.leaves| == |final.ledger.journal|
    ensures Charged(OnFile(cfg.codec, final.store.books.file)) + StillOwed(cfg.codec, final.store.books)
         == In(final.ledger.journal, final.ledger.leaves, final.store.db - s.store.db)
  {
    InitialInv(cfg, s);
    InitialExact(s);
    InitialFull(s);
    InitialTold(cfg, s);
    RunKeeps(cfg, s, events, final);
    RunTold(cfg, s, events, final);
    RunFull(cfg, s, events, final, s.store.db);
    hide MemoryOk, Faithful, CountsHonest, MemoryFull, Coherent;
    FileAndOwedAreSaved(cfg.codec, final.store.books, WordOf(final.store.saved, final.sent));
  }
}
