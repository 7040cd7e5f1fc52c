/**
 * Which starts are refused (otsserver/calendar.py: verify_storage_generation, __check_journal, __check_counts), for any
 * files at all: copies from different moments, another database, another journal, a checkpoint from anywhere.
 */
module StorageStart {
  import opened Octets
  import opened Wrappers
  import opened ReceiptFile
  import opened Receipts
  import opened Stamping
  import opened StampingSafety
  import Journal

  /** The sidecar counts no entry the journal does not hold; a partial last count names its entry. */
  ghost predicate CountsFit(l: Ledger) {
    |l.counts| <= 4 * |l.journal|
  }

  /** The database is the one the checkpoint names, and has committed at least what it says. */
  ghost predicate OwnDatabase(st: Store, cp: Checkpoint) {
    cp.generation.Some? && st.generation == cp.generation && cp.idx <= st.watermark
  }

  /** The journal reaches the checkpoint, and its first entry and the one just below are stored. */
  ghost predicate OwnJournal(l: Ledger, st: Store, cp: Checkpoint) {
    cp.idx > 0 ==> cp.idx <= |l.journal| && l.journal[cp.idx - 1] in st.db && l.journal[0] in st.db
  }

  /** The checkpoint, if there is one, is this database's and this journal's. */
  ghost predicate OwnCheckpoint(l: Ledger, st: Store) {
    st.checkpoint.Some? ==> OwnDatabase(st, st.checkpoint.value) && OwnJournal(l, st, st.checkpoint.value)
  }

  /** The check accepts exactly then; the scan starts at the checkpoint, or at 0 without one. */
  lemma StartsIff(l: Ledger, st: Store)
    ensures VerifyStorage(l, st).Success? <==> CountsFit(l) && OwnCheckpoint(l, st)
    ensures VerifyStorage(l, st).Success? ==>
              VerifyStorage(l, st).value == if st.checkpoint.Some? then st.checkpoint.value.idx else 0
  {
    RoundedUp(|l.counts|, |l.journal|);
  }

  lemma RoundedUp(bytes: nat, entries: nat)
    ensures (bytes + Journal.RECORD_SIZE - 1) / Journal.RECORD_SIZE > entries <==> bytes > Journal.RECORD_SIZE * entries
  {
  }

  /** What each refusal says of the files. */
  lemma RefusalMeans(l: Ledger, st: Store)
    requires VerifyStorage(l, st).Failure?
    ensures match VerifyStorage(l, st).error
            case CountsAhead => !CountsFit(l)
            case IndexAlone => st.checkpoint.Some? && st.checkpoint.value.generation.None?
            case NoGeneration => st.checkpoint.Some? && st.checkpoint.value.generation.Some? && st.generation.None?
            case OtherGeneration =>
              && st.checkpoint.Some? && st.checkpoint.value.generation.Some? && st.generation.Some?
              && st.checkpoint.value.generation != st.generation
            case AboveWatermark =>
              && st.checkpoint.Some? && st.checkpoint.value.generation == st.generation
              && st.checkpoint.value.idx > st.watermark
            case JournalShort => st.checkpoint.Some? && st.checkpoint.value.idx > |l.journal|
            case JournalDiffers =>
              && st.checkpoint.Some? && 0 < st.checkpoint.value.idx <= |l.journal|
              && (l.journal[0] !in st.db || l.journal[st.checkpoint.value.idx - 1] !in st.db)
  {
    RoundedUp(|l.counts|, |l.journal|);
  }

  /**
   * A start: refused, it changes nothing and nothing runs; accepted, the scan begins at the checkpoint with memory
   * empty, and a database without a generation has the new one and a watermark of 0.
   */
  lemma BeginsIff(cfg: Config, s: State, newGeneration: Generation, order: seq<Txid>, faults: seq<SettleFault>)
    requires Distinct(order) && forall t :: t in order ==> t in s.store.books.markers
    ensures var next := Begin(cfg, s, newGeneration, order, faults);
            var check := VerifyStorage(s.ledger, s.store);
            && next.ledger == s.ledger && next.sent == s.sent
            && next.store.db == s.store.db && next.store.checkpoint == s.store.checkpoint
            && next.store.saved == s.store.saved
            && (check.Failure? ==> next.store == s.store && next.memory == None)
            && (check.Success? && s.store.generation.Some? ==>
                  next.store.generation == s.store.generation && next.store.watermark == s.store.watermark)
            && (check.Success? && s.store.generation.None? ==>
                  next.store.generation == Some(newGeneration) && next.store.watermark == 0)
            && (next.memory.Some? ==> check.Success? && next.memory == Some(Empty(check.value)))
            && (check.Success? ==>
                  var (books, end) := SettleAll(cfg.codec, s.store.books, order, faults);
                  next.store.books == books && (end == Finished ==> next.memory.Some?))
  {
    hide SettleAll, VerifyStorage;
  }

  /** So a database of another lineage beside a kept checkpoint is refused, whatever it holds. */
  lemma OtherLineageRefused(cfg: Config, s: State, newGeneration: Generation, order: seq<Txid>,
                            faults: seq<SettleFault>)
    requires Distinct(order) && forall t :: t in order ==> t in s.store.books.markers
    requires s.store.checkpoint.Some? && s.store.checkpoint.value.generation != s.store.generation
    ensures Begin(cfg, s, newGeneration, order, faults).memory == None
    ensures Begin(cfg, s, newGeneration, order, faults).store == s.store
  {
    hide Begin;
    StartsIff(s.ledger, s.store);
    BeginsIff(cfg, s, newGeneration, order, faults);
  }

  /** Where a scan would begin over this ledger and this database, everything below is stored. */
  ghost predicate SkipsOnlyStored(l: Ledger, st: Store) {
    var start := VerifyStorage(l, st);
    start.Success? ==> start.value <= |l.journal| && forall i :: 0 <= i < start.value ==> l.journal[i] in st.db
  }

  lemma CopiesFit(cfg: Config, sent: map<Txid, nat>, mine: Ledger, theirs: Ledger, st: Store,
                  checkpoint: Option<Checkpoint>)
    requires StoreOk(cfg, theirs, st, sent) && (mine.journal <= theirs.journal || theirs.journal <= mine.journal)
    ensures SkipsOnlyStored(mine, st.(checkpoint := checkpoint))
  {
    hide Coherent;
    StartsIff(mine, st.(checkpoint := checkpoint));
  }

  /**
   * Copies from different moments. Take any two moments of a run, the journal and its counts of one, the database of
   * the other, and any checkpoint whatever: the next start refuses, or all below where its scan begins is stored.
   */
  lemma MixedCopiesSafe(cfg: Config, first: State, before: seq<Event>, a: State, between: seq<Event>, b: State,
                        checkpoint: Option<Checkpoint>)
    requires cfg.codec.Sound() && cfg.minConfirmations > 1
    requires Initial(first) && Runs(cfg, first, before, a) && Runs(cfg, a, between, b)
    ensures SkipsOnlyStored(b.ledger, a.store.(checkpoint := checkpoint))
    ensures SkipsOnlyStored(a.ledger, b.store.(checkpoint := checkpoint))
  {
    hide StoreOk, MemoryOk, Runs, VerifyStorage;
    InitialInv(cfg, first);
    RunKeeps(cfg, first, before, a);
    RunKeeps(cfg, a, between, b);
    CopiesFit(cfg, a.sent, b.ledger, a.ledger, a.store, checkpoint);
    CopiesFit(cfg, b.sent, a.ledger, b.ledger, b.store, checkpoint);
  }
}
