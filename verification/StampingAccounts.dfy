/**
 * With journal commitments all different: every entry scanned is in exactly one place, exactly once, and
 * the receipts, on file and owed, never charge more records than were counted into the journal.
 */
module StampingAccounts {
  import opened Octets
  import opened Wrappers
  import opened KnownBlocks
  import opened ReceiptFile
  import opened Receipts
  import opened Stamping
  import opened StampingSafety
  import opened StampingReceipts
  import opened Billing
  import Journal

  // --- exactly one place -------------------------------------------------------------------------

  ghost predicate Apart(journal: seq<Commitment>, cursor: nat, db: set<Commitment>, pending: seq<Commitment>,
                        waiting: map<nat, Tree>) {
    && cursor <= |journal|
    && Distinct(pending)
    && (forall c :: c in pending ==> c !in db && c in journal[..cursor])
    && (forall h :: h in waiting ==> Distinct(waiting[h].commitments))
    && (forall h, c :: h in waiting && c in waiting[h].commitments ==>
          c !in db && c !in pending && c in journal[..cursor])
    && (forall g, h, c :: g in waiting && h in waiting && g != h && c in waiting[g].commitments ==>
          c !in waiting[h].commitments)
  }

  lemma ScanKeepsApart(journal: seq<Commitment>, cursor: nat, db: set<Commitment>, pending: seq<Commitment>,
                       waiting: map<nat, Tree>)
    requires Distinct(journal) && cursor < |journal| && Apart(journal, cursor, db, pending, waiting)
    ensures var c := journal[cursor];
            Apart(journal, cursor + 1, db, if c in db then pending else Add(pending, c), waiting)
  {
    var c := journal[cursor];
    assert journal[..cursor + 1] == journal[..cursor] + [c];
    assert c !in journal[..cursor];
  }

  lemma PutBackKeepsApart(journal: seq<Commitment>, cursor: nat, db: set<Commitment>, pending: seq<Commitment>,
                          waiting: map<nat, Tree>, height: nat)
    requires Apart(journal, cursor, db, pending, waiting) && height in waiting
    ensures Apart(journal, cursor, db, AddAll(pending, waiting[height].commitments), waiting - {height})
  {
    AddAllIs(pending, waiting[height].commitments);
  }

  lemma MoveKeepsApart(journal: seq<Commitment>, cursor: nat, db: set<Commitment>, pending: seq<Commitment>,
                       waiting: map<nat, Tree>, height: nat, tree: Tree, n: nat)
    requires Apart(journal, cursor, db, pending, waiting) && height !in waiting
    requires n <= |pending| && tree.commitments == pending[..n]
    ensures Apart(journal, cursor, db, pending[n..], waiting[height := tree])
  {
    assert forall c :: c in pending[..n] ==> c in pending && c !in pending[n..];
    assert forall c :: c in pending[n..] ==> c in pending;
  }

  lemma ReleaseKeepsApart(journal: seq<Commitment>, cursor: nat, db: set<Commitment>, pending: seq<Commitment>,
                          waiting: map<nat, Tree>, height: nat)
    requires Apart(journal, cursor, db, pending, waiting) && height in waiting
    ensures Apart(journal, cursor, db + (set c | c in waiting[height].commitments), pending, waiting - {height})
  {
  }

  // --- what was counted --------------------------------------------------------------------------

  /** The counted leaves journalled under a commitment. */
  function Of(journal: seq<Commitment>, leaves: seq<nat>, c: Commitment): nat
    requires |leaves| == |journal|
  {
    if journal == [] then 0
    else
      var n := |journal| - 1;
      Of(journal[..n], leaves[..n], c) + if journal[n] == c then leaves[n] else 0
  }

  function OfAll(journal: seq<Commitment>, leaves: seq<nat>, cs: seq<Commitment>): nat
    requires |leaves| == |journal|
  {
    if cs == [] then 0
    else OfAll(journal, leaves, cs[..|cs| - 1]) + Of(journal, leaves, cs[|cs| - 1])
  }

  /** The counted leaves journalled under any commitment of a set. */
  function In(journal: seq<Commitment>, leaves: seq<nat>, among: set<Commitment>): nat
    requires |leaves| == |journal|
  {
    if journal == [] then 0
    else
      var n := |journal| - 1;
      In(journal[..n], leaves[..n], among) + if journal[n] in among then leaves[n] else 0
  }

  function Total(leaves: seq<nat>): nat {
    if leaves == [] then 0 else Total(leaves[..|leaves| - 1]) + leaves[|leaves| - 1]
  }

  lemma {:induction false} InAdds(journal: seq<Commitment>, leaves: seq<nat>, among: set<Commitment>, c: Commitment)
    requires |leaves| == |journal| && c !in among
    ensures In(journal, leaves, among + {c}) == In(journal, leaves, among) + Of(journal, leaves, c)
    decreases |journal|
  {
    if journal != [] {
      InAdds(journal[..|journal| - 1], leaves[..|journal| - 1], among, c);
    }
  }

  lemma {:induction false} InAddsAll(journal: seq<Commitment>, leaves: seq<nat>, among: set<Commitment>,
                                     cs: seq<Commitment>)
    requires |leaves| == |journal| && Distinct(cs) && forall c :: c in cs ==> c !in among
    ensures In(journal, leaves, among + (set c | c in cs)) == In(journal, leaves, among) + OfAll(journal, leaves, cs)
    decreases |cs|
  {
    hide In, Of;
    if cs == [] {
      assert among + (set c | c in cs) == among;
    } else {
      var front, last := cs[..|cs| - 1], cs[|cs| - 1];
      LastIsNew(among, cs);
      hide Distinct;
      InAddsAll(journal, leaves, among, front);
      InAdds(journal, leaves, among + (set c | c in front), last);
    }
  }

  lemma LastIsNew(among: set<Commitment>, cs: seq<Commitment>)
    requires cs != [] && Distinct(cs) && forall c :: c in cs ==> c !in among
    ensures var front, last := cs[..|cs| - 1], cs[|cs| - 1];
            var before := among + (set c | c in front);
            && Distinct(front) && (forall c :: c in front ==> c !in among)
            && last !in before && among + (set c | c in cs) == before + {last}
  {
    assert cs == cs[..|cs| - 1] + [cs[|cs| - 1]];
  }

  lemma {:induction false} InAtMostTotal(journal: seq<Commitment>, leaves: seq<nat>, among: set<Commitment>)
    requires |leaves| == |journal|
    ensures In(journal, leaves, among) <= Total(leaves)
    decreases |journal|
  {
    if journal != [] {
      InAtMostTotal(journal[..|journal| - 1], leaves[..|journal| - 1], among);
    }
  }

  lemma {:induction false} EntryWithinOf(journal: seq<Commitment>, leaves: seq<nat>, i: nat)
    requires |leaves| == |journal| && i < |journal|
    ensures leaves[i] <= Of(journal, leaves, journal[i])
    decreases |journal|
  {
    if i < |journal| - 1 {
      EntryWithinOf(journal[..|journal| - 1], leaves[..|journal| - 1], i);
    }
  }

  lemma OfGrows(journal: seq<Commitment>, leaves: seq<nat>, more: Commitment, n: nat, c: Commitment)
    requires |leaves| == |journal|
    ensures Of(journal, leaves, c) <= Of(journal + [more], leaves + [n], c)
  {
    assert (journal + [more])[..|journal|] == journal && (leaves + [n])[..|leaves|] == leaves;
  }

  lemma {:induction false} OfAllGrows(journal: seq<Commitment>, leaves: seq<nat>, more: Commitment, n: nat,
                                      cs: seq<Commitment>)
    requires |leaves| == |journal|
    ensures OfAll(journal, leaves, cs) <= OfAll(journal + [more], leaves + [n], cs)
    decreases |cs|
  {
    if cs != [] {
      OfAllGrows(journal, leaves, more, n, cs[..|cs| - 1]);
      OfGrows(journal, leaves, more, n, cs[|cs| - 1]);
    }
  }

  lemma InGrows(journal: seq<Commitment>, leaves: seq<nat>, more: Commitment, n: nat, among: set<Commitment>)
    requires |leaves| == |journal|
    ensures In(journal, leaves, among) <= In(journal + [more], leaves + [n], among)
  {
    assert (journal + [more])[..|journal|] == journal && (leaves + [n])[..|leaves|] == leaves;
  }

  // --- the invariant -----------------------------------------------------------------------------

  /** No count remembered, broadcast or waiting exceeds what was journalled under its commitments. */
  ghost predicate MemoryBilled(l: Ledger, m: Memory)
    requires |l.leaves| == |l.journal|
  {
    && (forall c :: c in m.counted ==> m.counted[c] <= Of(l.journal, l.leaves, c))
    && (forall v :: v in m.unconfirmed ==> v.records <= OfAll(l.journal, l.leaves, v.over))
    && (forall h :: h in m.waiting ==> m.waiting[h].records <= OfAll(l.journal, l.leaves, m.waiting[h].commitments))
  }

  /** What the saved anchors charge is at most what was counted under the commitments stored. */
  ghost predicate StoreBilled(l: Ledger, st: Store, sent: map<Txid, nat>)
    requires |l.leaves| == |l.journal|
  {
    && st.saved.Keys <= sent.Keys
    && SumOver(st.saved.Keys, sent) <= In(l.journal, l.leaves, st.db)
  }

  ghost predicate MemoryExact(l: Ledger, st: Store, m: Memory)
    requires |l.leaves| == |l.journal|
  {
    Apart(l.journal, m.cursor, st.db, m.pending, m.waiting) && MemoryBilled(l, m)
  }

  ghost predicate Exact(s: State) {
    && Distinct(s.ledger.journal)
    && |s.ledger.leaves| == |s.ledger.journal|
    && CountsHonest(s.ledger)
    && StoreBilled(s.ledger, s.store, s.sent)
    && (s.memory.Some? ==> MemoryExact(s.ledger, s.store, s.memory.value))
  }

  // --- the fill pass -----------------------------------------------------------------------------

  /** A count read for an entry, whenever it is read, is at most what was journalled under its commitment. */
  lemma CountReadLow(l: Ledger, idx: nat)
    requires |l.leaves| == |l.journal| && CountsHonest(l)
    ensures Journal.Get(l.counts, idx).Some? ==>
              idx < |l.journal| && Journal.Get(l.counts, idx).value <= Of(l.journal, l.leaves, l.journal[idx])
  {
    if Journal.Get(l.counts, idx).Some? {
      Journal.GetNeverOvercounts(l.counts, l.leaves, idx);
      EntryWithinOf(l.journal, l.leaves, idx);
    }
  }

  lemma FillOneExact(l: Ledger, st: Store, m: Memory, countReadable: bool)
    requires Distinct(l.journal) && |l.leaves| == |l.journal| && CountsHonest(l)
    requires MemoryExact(l, st, m) && m.cursor < |l.journal|
    ensures MemoryExact(l, st, FillOne(l, st.db, m, countReadable))
  {
    hide Apart, CountsHonest;
    ScanKeepsApart(l.journal, m.cursor, st.db, m.pending, m.waiting);
    CountReadLow(l, m.cursor);
  }

  lemma {:induction false} FillExact(cfg: Config, l: Ledger, st: Store, m: Memory, ok: nat, unreadable: set<nat>)
    requires Distinct(l.journal) && |l.leaves| == |l.journal| && CountsHonest(l) && MemoryExact(l, st, m)
    ensures MemoryExact(l, st, Fill(cfg, l, st.db, m, ok, unreadable))
    decreases ok
  {
    hide MemoryExact, FillOne, CountsHonest;
    if !(|m.pending| >= cfg.maxPending || m.cursor >= |l.journal| || ok == 0) {
      FillOneExact(l, st, m, m.cursor !in unreadable);
      FillExact(cfg, l, st, FillOne(l, st.db, m, m.cursor !in unreadable), ok - 1, unreadable);
    }
  }

  // --- blocks ------------------------------------------------------------------------------------

  lemma PutBackExact(l: Ledger, st: Store, m: Memory, height: nat)
    requires |l.leaves| == |l.journal| && MemoryExact(l, st, m)
    ensures MemoryExact(l, st, PutBack(m, height))
  {
    hide Apart;
    if height in m.waiting {
      PutBackKeepsApart(l.journal, m.cursor, st.db, m.pending, m.waiting, height);
    }
  }

  lemma MoveExact(l: Ledger, st: Store, m: Memory, b: Block, v: Version)
    requires |l.leaves| == |l.journal| && MemoryExact(l, st, m) && b.height !in m.waiting
    requires v in m.unconfirmed && v.n <= |m.pending| && v.over == m.pending[..v.n]
    ensures MemoryExact(l, st, Move(m, b, v, m.pending[..v.n]))
  {
    hide Apart;
    var next := Move(m, b, v, m.pending[..v.n]);
    MoveKeepsApart(l.journal, m.cursor, st.db, m.pending, m.waiting, b.height, next.waiting[b.height], v.n);
  }

  lemma VersionIsFront(cfg: Config, l: Ledger, st: Store, sent: map<Txid, nat>, m: Memory, v: Version)
    requires MemoryOk(cfg, l, st, sent, m) && v in m.unconfirmed
    ensures v.n <= |m.pending| && Take(m.pending, v.n) == m.pending[..v.n] == v.over
  {
    hide Scanned, Unsaved, Linked, Prefixes;
    TipAssertionHolds(cfg, m.pending, m.unconfirmed, v);
  }

  lemma ProcessBlockExact(cfg: Config, l: Ledger, st: Store, sent: map<Txid, nat>, m: Memory,
                          bodies: map<Hash, set<Txid>>)
    requires |l.leaves| == |l.journal| && MemoryExact(l, st, m) && MemoryOk(cfg, l, st, sent, m) && m.unprocessed != []
    ensures MemoryExact(l, st, ProcessBlock(cfg, m, bodies).0)
  {
    hide MemoryOk, PutBack, MemoryExact;
    var b := m.unprocessed[0];
    var back := PutBack(m, b.height);
    PutBackKeeps(cfg, l, st, sent, m, b.height);
    PutBackExact(l, st, m, b.height);
    if b.hash in bodies {
      var found := Mined(m.unconfirmed, bodies[b.hash]);
      MinedIs(m.unconfirmed, bodies[b.hash]);
      QueueFree(l, st, back, m.unprocessed[1..]);
      if found.Some? {
        VersionIsFront(cfg, l, st, sent, back, found.value);
        MoveExact(l, st, back.(unprocessed := m.unprocessed[1..]), b, found.value);
      }
    }
  }

  /** The queue of owed blocks plays no part in where commitments are. */
  lemma QueueFree(l: Ledger, st: Store, m: Memory, unprocessed: seq<Block>)
    requires |l.leaves| == |l.journal| && MemoryExact(l, st, m)
    ensures MemoryExact(l, st, m.(unprocessed := unprocessed))
  {
    hide Apart;
  }

  lemma {:induction false} ProcessBlocksExact(cfg: Config, l: Ledger, st: Store, sent: map<Txid, nat>, m: Memory,
                                              bodies: map<Hash, set<Txid>>)
    requires |l.leaves| == |l.journal| && MemoryExact(l, st, m) && MemoryOk(cfg, l, st, sent, m)
    ensures MemoryExact(l, st, ProcessBlocks(cfg, m, bodies).0)
    decreases |m.unprocessed|
  {
    hide MemoryOk, MemoryExact, ProcessBlock;
    if m.unprocessed != [] {
      ProcessBlockKeeps(cfg, l, st, sent, m, bodies);
      ProcessBlockExact(cfg, l, st, sent, m, bodies);
      var (next, progress) := ProcessBlock(cfg, m, bodies);
      Dequeues(cfg, m, bodies);
      if progress == Done { ProcessBlocksExact(cfg, l, st, sent, next, bodies); }
    }
  }

  lemma Dequeues(cfg: Config, m: Memory, bodies: map<Hash, set<Txid>>)
    requires m.unprocessed != []
    ensures var (next, progress) := ProcessBlock(cfg, m, bodies);
            progress == Done ==> next.unprocessed == m.unprocessed[1..]
  {
  }

  // --- saving ------------------------------------------------------------------------------------

  /** A saved tree's charge is covered by its own commitments, none of them stored before. */
  lemma LandedBilled(l: Ledger, st: Store, sent: map<Txid, nat>, m: Memory, height: nat, books: Books,
                     watermark: nat)
    requires |l.leaves| == |l.journal| && StoreBilled(l, st, sent) && MemoryExact(l, st, m) && height in m.waiting
    requires var tree := m.waiting[height];
             tree.txid !in st.saved && tree.txid in sent && sent[tree.txid] == tree.records
    ensures StoreBilled(l, Landed(st, m.waiting[height], watermark, books), sent)
  {
    var tree := m.waiting[height];
    var after := Landed(st, tree, watermark, books);
    assert after.saved.Keys == st.saved.Keys + {tree.txid};
    SumAdds(st.saved.Keys, tree.txid, sent);
    InAddsAll(l.journal, l.leaves, st.db, tree.commitments);
  }

  lemma ReleasedExact(l: Ledger, st: Store, m: Memory, height: nat, books: Books, watermark: nat)
    requires |l.leaves| == |l.journal| && MemoryExact(l, st, m) && height in m.waiting
    ensures MemoryExact(l, Landed(st, m.waiting[height], watermark, books), Released(m, height))
  {
    hide Apart;
    ReleaseKeepsApart(l.journal, m.cursor, st.db, m.pending, m.waiting, height);
  }

  lemma TreeIsSent(cfg: Config, l: Ledger, st: Store, sent: map<Txid, nat>, m: Memory, height: nat)
    requires StoreOk(cfg, l, st, sent) && MemoryOk(cfg, l, st, sent, m) && height in m.waiting
    ensures var tree := m.waiting[height];
            tree.txid !in st.saved && tree.txid in sent && sent[tree.txid] == tree.records
            && st.books.anchors == st.saved.Keys && Coherent(cfg.codec, st.books)
  {
    hide Scanned, Prefixes, Linked, Coherent;
  }

  lemma SaveTreeExact(cfg: Config, l: Ledger, st: Store, sent: map<Txid, nat>, m: Memory, height: nat, plan: SavePlan)
    requires cfg.codec.Sound() && StoreOk(cfg, l, st, sent) && MemoryOk(cfg, l, st, sent, m) && height in m.waiting
    requires |l.leaves| == |l.journal| && StoreBilled(l, st, sent) && MemoryExact(l, st, m)
    ensures var (after, left) := SaveTree(cfg, st, m, height, plan);
            StoreBilled(l, after, sent) && (left.Some? ==> MemoryExact(l, after, left.value))
  {
    hide StoreOk, MemoryOk, Coherent, Save, Listed, CheckpointAfter, MemoryExact;
    var tree := m.waiting[height];
    var order := Listed(st.books, plan.order);
    var r := ReceiptOf(tree, plan.at);
    var (books, end) := Save(cfg.codec, st.books, r, order, plan.script);
    TreeIsSent(cfg, l, st, sent, m, height);
    SaveKeepsCoherent(cfg.codec, st.books, r, order, plan.script);
    var watermark := CheckpointAfter(m, tree);
    if tree.txid in books.anchors {
      LandedBilled(l, st, sent, m, height, books, watermark);
      ReleasedExact(l, st, m, height, books, watermark);
      ExactIgnoresMarks(l, Landed(st, tree, watermark, books), Released(m, height));
    } else {
      ExactIgnoresBooks(l, st, m, books);
    }
  }

  lemma ExactIgnoresMarks(l: Ledger, st: Store, m: Memory)
    requires |l.leaves| == |l.journal| && MemoryExact(l, st, m)
    ensures forall cp :: MemoryExact(l, st.(checkpoint := cp), m)
  {
    hide Apart;
  }

  lemma ExactIgnoresBooks(l: Ledger, st: Store, m: Memory, books: Books)
    requires |l.leaves| == |l.journal| && MemoryExact(l, st, m)
    ensures MemoryExact(l, st.(books := books), m)
  {
    hide Apart;
  }

  lemma {:induction false} SaveTreesExact(cfg: Config, l: Ledger, st: Store, sent: map<Txid, nat>, m: Memory,
                                          due: seq<nat>, plans: seq<SavePlan>)
    requires cfg.codec.Sound() && StoreOk(cfg, l, st, sent) && MemoryOk(cfg, l, st, sent, m)
    requires |l.leaves| == |l.journal| && StoreBilled(l, st, sent) && MemoryExact(l, st, m)
    ensures var (after, left) := SaveTrees(cfg, st, m, due, plans);
            StoreBilled(l, after, sent) && (left.Some? ==> MemoryExact(l, after, left.value))
    decreases |due|
  {
    hide StoreOk, MemoryOk, SaveTree, StoreBilled, MemoryExact;
    if due != [] && plans != [] && due[0] in m.waiting {
      var (after, left) := SaveTree(cfg, st, m, due[0], plans[0]);
      SaveTreeKeeps(cfg, l, st, sent, m, due[0], plans[0]);
      SaveTreeExact(cfg, l, st, sent, m, due[0], plans[0]);
      if left.Some? {
        SaveTreesExact(cfg, l, after, sent, left.value, due[1..], plans[1..]);
      }
    }
  }

  // --- sending -----------------------------------------------------------------------------------

  /** A late re-read at tree close is of the commitment's own entry. */
  lemma CountAtCloseLow(l: Ledger, st: Store, m: Memory, c: Commitment, unreadable: set<nat>)
    requires |l.leaves| == |l.journal| && CountsHonest(l) && MemoryBilled(l, m)
    requires Scanned(l.journal, st.db, st.watermark, m.idxs, m.cursor, m.pending, m.waiting)
    ensures var n := CountAtClose(l, m, c, unreadable); n.Some? ==> n.value <= Of(l.journal, l.leaves, c)
  {
    hide CountsHonest, Held;
    if c !in m.counted && c in m.idxs { CountReadLow(l, m.idxs[c]); }
  }

  lemma {:induction false} CountTreeLow(l: Ledger, st: Store, m: Memory, cs: seq<Commitment>, unreadable: set<nat>)
    requires |l.leaves| == |l.journal| && CountsHonest(l) && MemoryBilled(l, m)
    requires Scanned(l.journal, st.db, st.watermark, m.idxs, m.cursor, m.pending, m.waiting)
    ensures CountTree(l, m, cs, unreadable) <= OfAll(l.journal, l.leaves, cs)
    decreases |cs|
  {
    hide CountsHonest, MemoryBilled, Scanned, CountAtClose;
    if cs != [] {
      CountTreeLow(l, st, m, cs[..|cs| - 1], unreadable);
      CountAtCloseLow(l, st, m, cs[|cs| - 1], unreadable);
    }
  }

  lemma ClosedBilled(l: Ledger, st: Store, m: Memory, unreadable: set<nat>)
    requires |l.leaves| == |l.journal| && CountsHonest(l) && MemoryExact(l, st, m)
    requires Scanned(l.journal, st.db, st.watermark, m.idxs, m.cursor, m.pending, m.waiting)
    ensures MemoryExact(l, st, m.(counted := CountedAtClose(l, m, m.pending, unreadable)))
    ensures MemoryExact(l, st, m.(counted := CountedAtClose(l, m, m.pending, unreadable), unconfirmed := []))
  {
    hide CountsHonest, Scanned, Apart, CountAtClose;
    var counted := CountedAtClose(l, m, m.pending, unreadable);
    forall c | c in counted ensures counted[c] <= Of(l.journal, l.leaves, c) {
      CountAtCloseLow(l, st, m, c, unreadable);
    }
  }

  lemma VersionBilled(l: Ledger, st: Store, m: Memory, v: Version)
    requires |l.leaves| == |l.journal| && MemoryExact(l, st, m) && v.records <= OfAll(l.journal, l.leaves, v.over)
    ensures MemoryExact(l, st, m.(unconfirmed := m.unconfirmed + [v]))
  {
    hide Apart;
  }

  lemma SendExact(cfg: Config, l: Ledger, st: Store, sent: map<Txid, nat>, m: Memory, newBlocks: bool, how: Sending)
    requires |l.leaves| == |l.journal| && CountsHonest(l) && MemoryExact(l, st, m) && StoreBilled(l, st, sent)
    requires MemoryOk(cfg, l, st, sent, m) && NewTxid(sent, how)
    ensures var (sent', left) := Send(cfg, l, sent, m, newBlocks, how);
            StoreBilled(l, st, sent') && (left.Some? ==> MemoryExact(l, st, left.value))
  {
    if !((!newBlocks && m.unconfirmed != []) || how.NotNow? || m.pending == []) {
      ScannedOf(cfg, l, st, sent, m);
      hide MemoryOk, MemoryExact, CountsHonest, Scanned, StoreBilled, CountTree, CountedAtClose;
      var records := CountTree(l, m, m.pending, how.unreadable);
      var closed := m.(counted := CountedAtClose(l, m, m.pending, how.unreadable));
      ClosedBilled(l, st, m, how.unreadable);
      BilledOf(l, st, m);
      CountTreeLow(l, st, m, m.pending, how.unreadable);
      if how.Sent? { VersionBilled(l, st, closed, NewVersion(cfg, m, how.txid, how.fee, records)); }
      if how.Sent? || how.SentThenStopped? { SentBilled(l, st, sent, how.txid, records); }
    }
  }

  lemma ScannedOf(cfg: Config, l: Ledger, st: Store, sent: map<Txid, nat>, m: Memory)
    requires MemoryOk(cfg, l, st, sent, m)
    ensures Scanned(l.journal, st.db, st.watermark, m.idxs, m.cursor, m.pending, m.waiting)
  {
    hide Scanned, Linked, Unsaved, Prefixes;
  }

  lemma BilledOf(l: Ledger, st: Store, m: Memory)
    requires |l.leaves| == |l.journal| && MemoryExact(l, st, m)
    ensures MemoryBilled(l, m)
  {
    hide Apart;
  }

  lemma SentBilled(l: Ledger, st: Store, sent: map<Txid, nat>, txid: Txid, records: nat)
    requires |l.leaves| == |l.journal| && StoreBilled(l, st, sent) && txid !in sent
    ensures StoreBilled(l, st, sent[txid := records])
  {
    SumAgrees(st.saved.Keys, sent, sent[txid := records]);
  }

  // --- passes and runs ---------------------------------------------------------------------------

  lemma ObserveExact(l: Ledger, st: Store, m: Memory, chain: Chain)
    requires |l.leaves| == |l.journal| && MemoryExact(l, st, m)
    ensures MemoryExact(l, st, Observe(m, chain))
  {
    hide Apart, Discovered, Queue, NewBlocks;
  }

  lemma PassExact(cfg: Config, s: State, p: Pass)
    requires cfg.codec.Sound() && cfg.minConfirmations > 1 && Inv(cfg, s) && PassPossible(s, p) && Exact(s)
    ensures Exact(DoBitcoin(cfg, s, p))
  {
    hide StoreOk, MemoryOk, SaveTrees, Send, ProcessBlocks, NewBlocks, MatureBound, Shallow, Observe,
         MemoryExact, StoreBilled, CountsHonest, SavesOnlyDeep;
    if p.chain.Some? {
      var l, st, m := s.ledger, s.store, s.memory.value;
      var seen := Observe(m, p.chain.value);
      ObserveKeeps(cfg, l, st, s.sent, m, p.chain.value);
      ObserveExact(l, st, m, p.chain.value);
      ProcessBlocksKeeps(cfg, l, st, s.sent, seen, p.bodies);
      ProcessBlocksExact(cfg, l, st, s.sent, seen, p.bodies);
      var (read, progress) := ProcessBlocks(cfg, seen, p.bodies);
      if progress == Done {
        var due := Due(read.waiting, MatureBound(cfg, read.known));
        SaveTreesKeeps(cfg, l, st, s.sent, read, due, p.plans);
        SaveTreesExact(cfg, l, st, s.sent, read, due, p.plans);
        var (store, swept) := SaveMature(cfg, st, read, p.plans);
        if swept.Some? {
          SendExact(cfg, l, store, s.sent, swept.value, NewBlocks(m.known, p.chain.value) != [], p.sending);
        }
      }
    }
  }

  lemma AcceptExact(s: State, c: Commitment, n: nat)
    requires Exact(s) && c !in s.ledger.journal
    ensures Exact(s.(ledger := Accepted(s.ledger, c, n)))
  {
    var l := s.ledger;
    var next := Accepted(l, c, n);
    Journal.EntryKeepsHonest(l.counts, l.leaves, n);
    InGrows(l.journal, l.leaves, c, n, s.store.db);
    if s.memory.Some? {
      var m := s.memory.value;
      assert next.journal[..m.cursor] == l.journal[..m.cursor];
      forall d { OfGrows(l.journal, l.leaves, c, n, d); }
      forall cs { OfAllGrows(l.journal, l.leaves, c, n, cs); }
      hide Of, OfAll, In, CountsHonest;
      assert MemoryBilled(next, m);
    }
    hide In;
  }

  lemma BeginExact(cfg: Config, s: State, newGeneration: Generation, order: seq<Txid>, faults: seq<SettleFault>)
    requires cfg.codec.Sound() && Inv(cfg, s) && Exact(s)
    requires Distinct(order) && forall t :: t in order ==> t in s.store.books.markers
    ensures Exact(Begin(cfg, s, newGeneration, order, faults))
  {
    hide Inv, SettleAll, Coherent, VerifyStorage, CountsHonest, In, MemoryExact;
    StorageAcceptedFor(cfg, s);
    if Begin(cfg, s, newGeneration, order, faults).memory.Some? {
      EmptyExact(s.ledger, Begin(cfg, s, newGeneration, order, faults).store, VerifyStorage(s.ledger, s.store).value);
    }
  }

  lemma EmptyExact(l: Ledger, st: Store, cursor: nat)
    requires |l.leaves| == |l.journal| && cursor <= |l.journal|
    ensures MemoryExact(l, st, Empty(cursor))
  {
  }

  lemma StorageAcceptedFor(cfg: Config, s: State)
    requires Inv(cfg, s) && |s.ledger.leaves| == |s.ledger.journal| && CountsHonest(s.ledger)
    ensures VerifyStorage(s.ledger, s.store).Success?
    ensures VerifyStorage(s.ledger, s.store).value <= |s.ledger.journal|
    ensures Coherent(cfg.codec, s.store.books)
  {
    hide Coherent, VerifyStorage, MemoryOk;
    StorageAccepted(cfg, s.ledger, s.store, s.sent);
  }

  /** Journal entries are new, as their time prefix, nonce and hash make them. */
  ghost predicate EntryIsNew(s: State, e: Event) {
    e.Accept? ==> e.commitment !in s.ledger.journal
  }

  lemma EventExact(cfg: Config, s: State, e: Event)
    requires cfg.codec.Sound() && cfg.minConfirmations > 1 && Possible(s, e) && EntryIsNew(s, e)
    requires Inv(cfg, s) && Exact(s)
    ensures Exact(After(cfg, s, e))
  {
    hide StoreOk, MemoryOk, DoBitcoin, Fill, VerifyStorage, SettleAll, MemoryExact, Begin, Shallow, In;
    match e
    case Accept(c, n) => AcceptExact(s, c, n);
    case WriteCount(idx, bytes) =>
      Journal.PutKeepsHonest(s.ledger.counts, s.ledger.leaves, idx, bytes);
      CountsFreeExact(s, After(cfg, s, e).ledger.counts);
    case Start(generation, order, faults) => BeginExact(cfg, s, generation, order, faults);
    case FillPass(ok, unreadable) => FillExact(cfg, s.ledger, s.store, s.memory.value, ok, unreadable);
    case BitcoinPass(p) => PassExact(cfg, s, p);
    case Stop =>
    case LosePower(keep, tail, back) =>
    case DropCheckpoint =>
  }

  lemma CountsFreeExact(s: State, counts: Bytes)
    requires Exact(s) && Journal.Honest(counts, s.ledger.leaves)
    ensures Exact(s.(ledger := s.ledger.(counts := counts)))
  {
    hide Apart;
  }

  /** A run whose journal entries are all new. */
  ghost predicate NewEntries(cfg: Config, s: State, events: seq<Event>, final: State)
    requires Runs(cfg, s, events, final)
    decreases |events|
  {
    events != [] ==> EntryIsNew(s, events[0]) && NewEntries(cfg, After(cfg, s, events[0]), events[1..], final)
  }

  lemma {:induction false} RunExact(cfg: Config, s: State, events: seq<Event>, final: State)
    requires cfg.codec.Sound() && cfg.minConfirmations > 1 && Runs(cfg, s, events, final)
    requires NewEntries(cfg, s, events, final)
    requires Inv(cfg, s) && Exact(s)
    ensures Inv(cfg, final) && Exact(final)
    decreases |events|
  {
    hide Inv, Exact, After, Possible;
    if events != [] {
      HonestOf(s);
      EventKeeps(cfg, s, events[0]);
      EventExact(cfg, s, events[0]);
      RunExact(cfg, After(cfg, s, events[0]), events[1..], final);
    }
  }

  lemma HonestOf(s: State)
    requires Exact(s)
    ensures CountsHonest(s.ledger)
  {
    hide CountsHonest, StoreBilled, MemoryExact;
  }

  lemma InitialExact(s: State)
    requires Initial(s) && Distinct(s.ledger.journal)
    ensures Exact(s)
  {
    assert s.store.saved.Keys == {};
  }

  // --- the results -------------------------------------------------------------------------------

  /** Once in the tree waiting at a height, and in no other. */
  ghost predicate OnlyIn(waiting: map<nat, Tree>, height: nat, c: Commitment) {
    && height in waiting && multiset(waiting[height].commitments)[c] == 1
    && forall g :: g in waiting && g != height ==> c !in waiting[g].commitments
  }

  /** In the database alone, or once in pending alone, or once in one waiting tree alone. */
  ghost predicate OnePlace(db: set<Commitment>, pending: seq<Commitment>, waiting: map<nat, Tree>, c: Commitment) {
    || (c in db && !Held(pending, waiting, c))
    || (c !in db && multiset(pending)[c] == 1 && forall h :: h in waiting ==> c !in waiting[h].commitments)
    || (c !in db && c !in pending && exists h :: OnlyIn(waiting, h, c))
  }

  lemma {:induction false} DistinctOnce<T>(s: seq<T>, c: T)
    requires Distinct(s) && c in s
    ensures multiset(s)[c] == 1
  {
    var i :| 0 <= i < |s| && s[i] == c;
    assert s == s[..i] + [c] + s[i + 1..];
    assert c !in s[..i] && c !in s[i + 1..];
  }

  lemma ApartIsOnePlace(journal: seq<Commitment>, cursor: nat, db: set<Commitment>, pending: seq<Commitment>,
                        waiting: map<nat, Tree>, c: Commitment)
    requires Apart(journal, cursor, db, pending, waiting) && (c in db || Held(pending, waiting, c))
    ensures OnePlace(db, pending, waiting, c)
  {
    if c in pending {
      DistinctOnce(pending, c);
    } else if c !in db {
      var h :| h in waiting && c in waiting[h].commitments;
      DistinctOnce(waiting[h].commitments, c);
      assert OnlyIn(waiting, h, c);
    }
  }

  /**
   * What an entry journalled twice does: everything being in one place, scanning the next entry leaves it in one place
   * exactly when it is stored or no waiting tree holds it already.
   */
  lemma ScannedInOnePlaceIff(l: Ledger, db: set<Commitment>, m: Memory, readable: bool)
    requires m.cursor < |l.journal| && Apart(l.journal, m.cursor, db, m.pending, m.waiting)
    ensures var c, next := l.journal[m.cursor], FillOne(l, db, m, readable);
            OnePlace(db, next.pending, next.waiting, c)
            <==> c in db || forall h :: h in m.waiting ==> c !in m.waiting[h].commitments
  {
    var c, next := l.journal[m.cursor], FillOne(l, db, m, readable);
    if c !in db && (forall h :: h in m.waiting ==> c !in m.waiting[h].commitments) {
      assert Distinct(next.pending);
      DistinctOnce(next.pending, c);
    }
  }

  /**
   * With entries all different, over any run with any faults and restarts: every entry scanned is in exactly
   * one place, exactly once.
   */
  lemma ExactlyOnePlace(cfg: Config, s: State, events: seq<Event>, final: State, i: nat)
    requires cfg.codec.Sound() && cfg.minConfirmations > 1 && Runs(cfg, s, events, final)
    requires NewEntries(cfg, s, events, final)
    requires Initial(s) && Distinct(s.ledger.journal)
    requires final.memory.Some? && i < final.memory.value.cursor
    ensures i < |final.ledger.journal|
    ensures OnePlace(final.store.db, final.memory.value.pending, final.memory.value.waiting, final.ledger.journal[i])
  {
    InitialInv(cfg, s);
    InitialExact(s);
    RunExact(cfg, s, events, final);
    NothingLost(cfg, s, events, final);
    hide StoreOk, MemoryOk, StoreBilled, CountsHonest, MemoryBilled, Apart, OnePlace;
    var m := final.memory.value;
    ApartIsOnePlace(final.ledger.journal, m.cursor, final.store.db, m.pending, m.waiting, final.ledger.journal[i]);
  }

  /**
   * Billing never overcounts. With entries all different, over any run with torn count writes, late reads,
   * fee bumps, reorgs, failed saves and restarts: the records on all receipts on file, with those still owed
   * by a marker, are at most the counted leaves ever journalled.
   */
  lemma NeverOvercharges(cfg: Config, s: State, events: seq<Event>, final: State)
    requires cfg.codec.Sound() && cfg.minConfirmations > 1 && Runs(cfg, s, events, final)
    requires NewEntries(cfg, s, events, final)
    requires Initial(s) && Distinct(s.ledger.journal)
    ensures Charged(OnFile(cfg.codec, final.store.books.file)) + StillOwed(cfg.codec, final.store.books)
            <= Total(final.ledger.leaves)
  {
    InitialInv(cfg, s);
    InitialExact(s);
    RunExact(cfg, s, events, final);
    InitialTold(cfg, s);
    RunTold(cfg, s, events, final);
    hide MemoryOk, Faithful, CountsHonest, MemoryExact, Coherent;
    FileAndOwedAreSaved(cfg.codec, final.store.books, WordOf(final.store.saved, final.sent));
    InAtMostTotal(final.ledger.journal, final.ledger.leaves, final.store.db);
  }
}
