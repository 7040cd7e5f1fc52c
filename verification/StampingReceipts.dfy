/**
 * What the receipts tell (otsserver/stamper.py: __save_confirmed_timestamp_tx, settle_pending_receipt): over any
 * run, whatever fails in it, a receipt on file or owed is its own saved tree's, field by field.
 */
module StampingReceipts {
  import opened Octets
  import opened Wrappers
  import opened KnownBlocks
  import opened ReceiptFile
  import opened Receipts
  import opened Stamping
  import opened StampingSafety
  import opened Billing
  import Journal

  /** What the saved trees and the transactions sent make every receipt say. */
  function WordOf(saved: map<Txid, Tree>, sent: map<Txid, nat>): Word {
    Word(sent, map t | t in saved :: ReceiptOf(saved[t], 0))
  }

  ghost predicate Told(cfg: Config, st: Store, sent: map<Txid, nat>) {
    Faithful(cfg.codec, st.books, WordOf(st.saved, sent))
  }

  /** A new transaction changes nothing said of the others. */
  lemma SentTold(cfg: Config, st: Store, sent: map<Txid, nat>, txid: Txid, records: nat)
    requires Told(cfg, st, sent) && txid !in sent
    ensures Told(cfg, st, sent[txid := records])
  {
    hide OnFile;
    var before, after := WordOf(st.saved, sent), WordOf(st.saved, sent[txid := records]);
    assert forall r :: before.Is(r) ==> after.Is(r);
  }

  lemma SendTold(cfg: Config, l: Ledger, st: Store, sent: map<Txid, nat>, m: Memory, newBlocks: bool, how: Sending)
    requires Told(cfg, st, sent) && NewTxid(sent, how)
    ensures Told(cfg, st, Send(cfg, l, sent, m, newBlocks, how).0)
  {
    hide Told, CountTree, CountedAtClose, NewVersion;
    if how.Sent? || how.SentThenStopped? {
      SentTold(cfg, st, sent, how.txid, CountTree(l, m, m.pending, how.unreadable));
    }
  }

  lemma TreeUnsaved(cfg: Config, l: Ledger, st: Store, sent: map<Txid, nat>, m: Memory, height: nat, at: nat)
    requires StoreOk(cfg, l, st, sent) && MemoryOk(cfg, l, st, sent, m) && height in m.waiting
    ensures var r := ReceiptOf(m.waiting[height], at);
            WordOf(st.saved, sent).Is(r) && r.txid !in st.books.anchors && Coherent(cfg.codec, st.books)
  {
    hide Scanned, Prefixes, Linked, Coherent;
  }

  lemma SavedSays(saved: map<Txid, Tree>, sent: map<Txid, nat>, tree: Tree, at: nat)
    ensures WordOf(saved[tree.txid := tree], sent) == WordOf(saved, sent).With(ReceiptOf(tree, at))
  {
  }

  lemma SaveTreeTold(cfg: Config, l: Ledger, st: Store, sent: map<Txid, nat>, m: Memory, height: nat, plan: SavePlan)
    requires cfg.codec.Sound() && StoreOk(cfg, l, st, sent) && MemoryOk(cfg, l, st, sent, m) && height in m.waiting
    requires Told(cfg, st, sent)
    ensures Told(cfg, SaveTree(cfg, st, m, height, plan).0, sent)
  {
    hide StoreOk, MemoryOk, Coherent, Save, Listed, CheckpointAfter, Faithful, WordOf, ReceiptOf;
    var tree := m.waiting[height];
    var r := ReceiptOf(tree, plan.at);
    TreeUnsaved(cfg, l, st, sent, m, height, plan.at);
    SaveFaithful(cfg.codec, st.books, r, Listed(st.books, plan.order), plan.script, WordOf(st.saved, sent));
    SavedSays(st.saved, sent, tree, plan.at);
    ReceiptNames(tree, plan.at);
  }

  lemma ReceiptNames(tree: Tree, at: nat)
    ensures ReceiptOf(tree, at).txid == tree.txid
  {
  }

  lemma {:induction false} SaveTreesTold(cfg: Config, l: Ledger, st: Store, sent: map<Txid, nat>, m: Memory,
                                         due: seq<nat>, plans: seq<SavePlan>)
    requires cfg.codec.Sound() && StoreOk(cfg, l, st, sent) && MemoryOk(cfg, l, st, sent, m) && Told(cfg, st, sent)
    ensures Told(cfg, SaveTrees(cfg, st, m, due, plans).0, sent)
    decreases |due|
  {
    hide StoreOk, MemoryOk, SaveTree, Told;
    if due != [] && plans != [] && due[0] in m.waiting {
      var (after, left) := SaveTree(cfg, st, m, due[0], plans[0]);
      SaveTreeKeeps(cfg, l, st, sent, m, due[0], plans[0]);
      SaveTreeTold(cfg, l, st, sent, m, due[0], plans[0]);
      if left.Some? {
        SaveTreesTold(cfg, l, after, sent, left.value, due[1..], plans[1..]);
      }
    }
  }

  lemma PassTold(cfg: Config, s: State, p: Pass)
    requires cfg.codec.Sound() && Inv(cfg, s) && PassPossible(s, p) && Told(cfg, s.store, s.sent)
    ensures var next := DoBitcoin(cfg, s, p); Told(cfg, next.store, next.sent)
  {
    hide StoreOk, MemoryOk, SaveTrees, Send, ProcessBlocks, NewBlocks, MatureBound, Shallow, Observe, Told;
    if p.chain.Some? {
      var l, st, m := s.ledger, s.store, s.memory.value;
      ObserveKeeps(cfg, l, st, s.sent, m, p.chain.value);
      ProcessBlocksKeeps(cfg, l, st, s.sent, Observe(m, p.chain.value), p.bodies);
      var (read, progress) := ProcessBlocks(cfg, Observe(m, p.chain.value), p.bodies);
      if progress == Done {
        SaveTreesTold(cfg, l, st, s.sent, read, Due(read.waiting, MatureBound(cfg, read.known)), p.plans);
        var (store, swept) := SaveMature(cfg, st, read, p.plans);
        if swept.Some? {
          SendTold(cfg, l, store, s.sent, swept.value, NewBlocks(m.known, p.chain.value) != [], p.sending);
        }
      }
    }
  }

  lemma BooksCoherent(cfg: Config, s: State)
    requires Inv(cfg, s)
    ensures Coherent(cfg.codec, s.store.books)
  {
    hide Coherent, MemoryOk;
  }

  lemma EventTold(cfg: Config, s: State, e: Event)
    requires cfg.codec.Sound() && Possible(s, e) && Inv(cfg, s) && Told(cfg, s.store, s.sent)
    ensures var next := After(cfg, s, e); Told(cfg, next.store, next.sent)
  {
    hide Inv, DoBitcoin, Fill, VerifyStorage, SettleAll, Faithful, PassPossible;
    var word := WordOf(s.store.saved, s.sent);
    match e
    case Start(_, order, faults) =>
      BooksCoherent(cfg, s);
      SettleAllFaithful(cfg.codec, s.store.books, order, faults, word);
    case BitcoinPass(p) => PassTold(cfg, s, p);
    case LosePower(keep, tail, back) => PowerLossFaithful(cfg.codec, s.store.books, keep, tail, back, word);
    case _ =>
  }

  lemma {:induction false} RunTold(cfg: Config, s: State, events: seq<Event>, final: State)
    requires cfg.codec.Sound() && cfg.minConfirmations > 1 && Runs(cfg, s, events, final)
    requires Inv(cfg, s) && CountsHonest(s.ledger) && Told(cfg, s.store, s.sent)
    ensures Told(cfg, final.store, final.sent)
    decreases |events|
  {
    hide Inv, Told, After, Possible, CountsHonest;
    if events != [] {
      EventKeeps(cfg, s, events[0]);
      EventTold(cfg, s, events[0]);
      RunTold(cfg, After(cfg, s, events[0]), events[1..], final);
    }
  }

  lemma InitialTold(cfg: Config, s: State)
    requires Initial(s)
    ensures Told(cfg, s.store, s.sent)
  {
    assert OnFile(cfg.codec, []) == [];
  }

  // --- where a tree comes from -------------------------------------------------------------------

  /** Some pass sent that transaction at that fee. */
  ghost predicate SentAt(events: seq<Event>, txid: Txid, fee: nat) {
    exists e :: e in events && e.BitcoinPass? && e.pass.sending.Sent? && e.pass.sending.txid == txid
                && e.pass.sending.fee == fee
  }

  /** Some pass read that block and found the transaction in it. */
  ghost predicate FoundIn(events: seq<Event>, txid: Txid, block: Hash) {
    exists e :: e in events && e.BitcoinPass? && block in e.pass.bodies && txid in e.pass.bodies[block]
  }

  ghost predicate TreeFrom(events: seq<Event>, tree: Tree) {
    SentAt(events, tree.txid, tree.fee) && FoundIn(events, tree.txid, tree.block)
  }

  ghost predicate MemoryFrom(events: seq<Event>, m: Memory) {
    && (forall v :: v in m.unconfirmed ==> SentAt(events, v.txid, v.fee))
    && (forall h :: h in m.waiting ==> TreeFrom(events, m.waiting[h]))
  }

  ghost predicate SavedFrom(events: seq<Event>, saved: map<Txid, Tree>) {
    forall t :: t in saved ==> TreeFrom(events, saved[t])
  }

  ghost predicate From(events: seq<Event>, s: State) {
    SavedFrom(events, s.store.saved) && (s.memory.Some? ==> MemoryFrom(events, s.memory.value))
  }

  lemma FromGrows(events: seq<Event>, more: Event, s: State)
    requires From(events, s)
    ensures From(events + [more], s)
  {
    assert forall e :: e in events ==> e in events + [more];
  }

  lemma ProcessBlockFrom(cfg: Config, events: seq<Event>, m: Memory, p: Pass)
    requires MemoryFrom(events, m) && m.unprocessed != [] && BitcoinPass(p) in events
    ensures MemoryFrom(events, ProcessBlock(cfg, m, p.bodies).0)
  {
    hide AddAll, Take, SentAt;
    var b := m.unprocessed[0];
    if b.hash in p.bodies { MinedIs(m.unconfirmed, p.bodies[b.hash]); }
  }

  lemma {:induction false} ProcessBlocksFrom(cfg: Config, events: seq<Event>, m: Memory, p: Pass)
    requires MemoryFrom(events, m) && BitcoinPass(p) in events
    ensures MemoryFrom(events, ProcessBlocks(cfg, m, p.bodies).0)
    decreases |m.unprocessed|
  {
    hide MemoryFrom, ProcessBlock;
    if m.unprocessed != [] {
      ProcessBlockFrom(cfg, events, m, p);
      var (next, progress) := ProcessBlock(cfg, m, p.bodies);
      Shortens(cfg, m, p.bodies);
      if progress == Done { ProcessBlocksFrom(cfg, events, next, p); }
    }
  }

  lemma Shortens(cfg: Config, m: Memory, bodies: map<Hash, set<Txid>>)
    requires m.unprocessed != []
    ensures var (next, progress) := ProcessBlock(cfg, m, bodies);
            progress == Done ==> |next.unprocessed| < |m.unprocessed|
  {
    hide AddAll, Take, Mined;
  }

  lemma {:induction false} SaveTreesFrom(cfg: Config, events: seq<Event>, st: Store, m: Memory, due: seq<nat>,
                                         plans: seq<SavePlan>)
    requires MemoryFrom(events, m) && SavedFrom(events, st.saved)
    ensures var (after, left) := SaveTrees(cfg, st, m, due, plans);
            SavedFrom(events, after.saved) && (left.Some? ==> MemoryFrom(events, left.value))
    decreases |due|
  {
    hide Save, Listed, CheckpointAfter, SentAt, FoundIn;
    if due != [] && plans != [] && due[0] in m.waiting {
      var (after, left) := SaveTree(cfg, st, m, due[0], plans[0]);
      if left.Some? { SaveTreesFrom(cfg, events, after, left.value, due[1..], plans[1..]); }
    }
  }

  lemma SendFrom(cfg: Config, events: seq<Event>, l: Ledger, sent: map<Txid, nat>, m: Memory, newBlocks: bool, p: Pass)
    requires MemoryFrom(events, m) && BitcoinPass(p) in events
    ensures var left := Send(cfg, l, sent, m, newBlocks, p.sending).1; left.Some? ==> MemoryFrom(events, left.value)
  {
    hide CountTree, CountedAtClose, TreeFrom;
    if p.sending.Sent? { assert SentAt(events, p.sending.txid, p.sending.fee); }
  }

  lemma PassFrom(cfg: Config, events: seq<Event>, s: State, p: Pass)
    requires From(events, s) && s.memory.Some? && BitcoinPass(p) in events
    ensures From(events, DoBitcoin(cfg, s, p))
  {
    hide MemoryFrom, SavedFrom, ProcessBlocks, SaveTrees, Send, NewBlocks, Due, MatureBound;
    if p.chain.Some? {
      var m := s.memory.value;
      ObserveFrom(events, m, p.chain.value);
      ProcessBlocksFrom(cfg, events, Observe(m, p.chain.value), p);
      var (read, progress) := ProcessBlocks(cfg, Observe(m, p.chain.value), p.bodies);
      if progress == Done {
        SaveTreesFrom(cfg, events, s.store, read, Due(read.waiting, MatureBound(cfg, read.known)), p.plans);
        var (store, swept) := SaveMature(cfg, s.store, read, p.plans);
        if swept.Some? {
          SendFrom(cfg, events, s.ledger, s.sent, swept.value, NewBlocks(m.known, p.chain.value) != [], p);
        }
      }
    }
  }

  lemma ObserveFrom(events: seq<Event>, m: Memory, chain: Chain)
    requires MemoryFrom(events, m)
    ensures MemoryFrom(events, Observe(m, chain))
  {
    hide Discovered, Queue, NewBlocks, TreeFrom, SentAt;
  }

  lemma {:induction false} FillFrom(cfg: Config, events: seq<Event>, l: Ledger, db: set<Commitment>, m: Memory, ok: nat,
                                    unreadable: set<nat>)
    requires MemoryFrom(events, m)
    ensures MemoryFrom(events, Fill(cfg, l, db, m, ok, unreadable))
    decreases ok
  {
    hide TreeFrom, SentAt, Journal.Get;
    if !(|m.pending| >= cfg.maxPending || m.cursor >= |l.journal| || ok == 0) {
      FillFrom(cfg, events, l, db, FillOne(l, db, m, m.cursor !in unreadable), ok - 1, unreadable);
    }
  }

  lemma EventFrom(cfg: Config, events: seq<Event>, s: State, e: Event)
    requires Possible(s, e) && From(events, s)
    ensures From(events + [e], After(cfg, s, e))
  {
    hide DoBitcoin, Fill, VerifyStorage, SettleAll, Shallow, SavedFrom;
    FromGrows(events, e, s);
    match e
    case FillPass(ok, unreadable) =>
      FillFrom(cfg, events + [e], s.ledger, s.store.db, s.memory.value, ok, unreadable);
    case BitcoinPass(p) => PassFrom(cfg, events + [e], s, p);
    case _ =>
  }

  lemma {:induction false} RunFrom(cfg: Config, earlier: seq<Event>, s: State, events: seq<Event>, final: State)
    requires Runs(cfg, s, events, final) && From(earlier, s)
    ensures From(earlier + events, final)
    decreases |events|
  {
    hide From, After, Possible;
    if events == [] {
      assert earlier + events == earlier;
    } else {
      EventFrom(cfg, earlier, s, events[0]);
      assert earlier + [events[0]] + events[1..] == earlier + events;
      RunFrom(cfg, earlier + [events[0]], After(cfg, s, events[0]), events[1..], final);
    }
  }

  // --- the results -------------------------------------------------------------------------------

  /** A receipt of a saved tree: everything but the time it was issued at is the tree's. */
  ghost predicate Tells(r: Receipt, tree: Tree) {
    && r.txid == tree.txid && r.fee == tree.fee && r.commitments == |tree.commitments|
    && r.height == tree.height && r.records == tree.records
  }

  /**
   * After any run from a fresh calendar, with any torn appends, stops and restarts: every receipt on file is of a saved
   * tree and says that tree's fee, number of commitments, block height and records, as does every marker of one;
   * and the fee is what a pass sent that transaction at, and a pass found it in the tree's block.
   */
  lemma ReceiptsTell(cfg: Config, s: State, events: seq<Event>, final: State)
    requires cfg.codec.Sound() && cfg.minConfirmations > 1 && Initial(s) && Runs(cfg, s, events, final)
    ensures var books, saved := final.store.books, final.store.saved;
            && (forall r :: r in OnFile(cfg.codec, books.file) ==> r.txid in saved && Tells(r, saved[r.txid]))
            && (forall t :: t in books.markers && t in saved ==> Tells(books.markers[t], saved[t]))
            && (forall r :: r in OnFile(cfg.codec, books.file) ==> TreeFrom(events, saved[r.txid]))
  {
    RunFrom(cfg, [], s, events, final);
    assert [] + events == events;
    hide TreeFrom;
    InitialInv(cfg, s);
    InitialTold(cfg, s);
    RunKeeps(cfg, s, events, final);
    RunTold(cfg, s, events, final);
    NothingLost(cfg, s, events, final);
    BooksCoherent(cfg, final);
    ToldIs(cfg, final);
  }

  lemma ToldIs(cfg: Config, s: State)
    requires Told(cfg, s.store, s.sent) && Coherent(cfg.codec, s.store.books)
    requires forall t :: t in Txids(cfg.codec, s.store.books.file) ==> t in s.store.saved
    ensures var books, saved := s.store.books, s.store.saved;
            && (forall r :: r in OnFile(cfg.codec, books.file) ==> r.txid in saved && Tells(r, saved[r.txid]))
            && (forall t :: t in books.markers && t in saved ==> Tells(books.markers[t], saved[t]))
  {
    var books, word := s.store.books, WordOf(s.store.saved, s.sent);
    ParsedNames(cfg.codec, Lines(books.file));
    forall r | r in OnFile(cfg.codec, books.file) ensures r.txid in s.store.saved && word.Is(r) {
      var i :| 0 <= i < |OnFile(cfg.codec, books.file)| && OnFile(cfg.codec, books.file)[i] == r;
      assert Names(cfg.codec, Lines(books.file))[i] in Txids(cfg.codec, books.file);
    }
  }
}
