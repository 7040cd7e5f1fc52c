/**
 * The stamper's commitment life cycle (otsserver/stamper.py, class Stamper; otsserver/calendar.py,
 * Calendar.verify_storage_generation): journal entry, pending, broadcast tree, tree waiting for depth,
 * database. What the disk holds, what memory holds, and one function per step, each taking what the
 * environment does during it: which reads fail, which bodies are missing, where a save raises or stops.
 */
module Stamping {
  import opened Octets
  import opened Wrappers
  import opened KnownBlocks
  import opened ReceiptFile
  import opened Receipts
  import Journal

  type Commitment = Bytes
  type Generation = Bytes

  /** A broadcast version of the in-flight transaction; `over` is the leaves its tip was built over. */
  datatype Version = Version(txid: Txid, tip: Bytes, n: nat, fee: nat, records: nat, over: seq<Commitment>)

  /** A mined tree waiting for depth; `block` is the block its attestation path leads to. */
  datatype Tree = Tree(txid: Txid, commitments: seq<Commitment>, fee: nat, height: nat, records: nat, block: Hash)

  datatype Checkpoint = Checkpoint(idx: nat, generation: Option<Generation>)

  /** `tipOf` is make_merkle_tree over the sha256 of each commitment. */
  datatype Config = Config(codec: Codec, tipOf: seq<Commitment> -> Bytes, minConfirmations: nat, maxPending: nat)

  /** What was accepted: the journal's entries, what each truly aggregates, and the count sidecar. */
  datatype Ledger = Ledger(journal: seq<Commitment>, leaves: seq<nat>, counts: Bytes)

  /**
   * What the stamper stores: the database with its marks, the checkpoint file, the receipts, the trees saved by anchor.
   */
  datatype Store = Store(
    db: set<Commitment>,
    watermark: nat,
    generation: Option<Generation>,
    checkpoint: Option<Checkpoint>,
    books: Books,
    saved: map<Txid, Tree>)

  /** What the stamper remembers while it runs. */
  datatype Memory = Memory(
    pending: seq<Commitment>,
    unconfirmed: seq<Version>,
    waiting: map<nat, Tree>,
    idxs: map<Commitment, nat>,
    counted: map<Commitment, nat>,
    cursor: nat,
    known: seq<Block>,
    unprocessed: seq<Block>)

  /**
   * The wallet's history is every transaction broadcast, with the records its tree closed over. A stop
   * leaves everything but memory.
   */
  datatype State = State(ledger: Ledger, store: Store, sent: map<Txid, nat>, memory: Option<Memory>)

  // --- starting ----------------------------------------------------------------------------------

  datatype Refusal =
    | CountsAhead | IndexAlone | NoGeneration | OtherGeneration | AboveWatermark | JournalShort | JournalDiffers

  /** Calendar.__check_counts, verify_storage_generation and __check_journal: where the scan may start. */
  function VerifyStorage(l: Ledger, st: Store): Result<nat, Refusal> {
    if (|l.counts| + Journal.RECORD_SIZE - 1) / Journal.RECORD_SIZE > |l.journal| then Failure(CountsAhead)
    else if st.checkpoint.None? then Success(0)
    else
      var cp := st.checkpoint.value;
      if cp.generation.None? then Failure(IndexAlone)
      else if st.generation.None? then Failure(NoGeneration)
      else if cp.generation != st.generation then Failure(OtherGeneration)
      else if cp.idx > st.watermark then Failure(AboveWatermark)
      else if cp.idx == 0 then Success(0)
      else if |l.journal| < cp.idx then Failure(JournalShort)
      else if l.journal[cp.idx - 1] !in st.db || l.journal[0] !in st.db then Failure(JournalDiffers)
      else Success(cp.idx)
  }

  function Empty(cursor: nat): Memory {
    Memory([], [], map[], map[], map[], cursor, [], [])
  }

  /** A start: the storage check, the markers settled, memory empty, the scan at the checkpoint. */
  function Begin(cfg: Config, s: State, newGeneration: Generation, order: seq<Txid>, faults: seq<SettleFault>): State
    requires Distinct(order) && forall t :: t in order ==> t in s.store.books.markers
  {
    match VerifyStorage(s.ledger, s.store)
    case Failure(_) => s.(memory := None)
    case Success(idx) =>
      var adopted :=
        if s.store.generation.None? then s.store.(generation := Some(newGeneration), watermark := 0) else s.store;
      var (books, end) := SettleAll(cfg.codec, s.store.books, order, faults);
      s.(store := adopted.(books := books), memory := if end == Finished then Some(Empty(idx)) else None)
  }

  // --- the fill pass -----------------------------------------------------------------------------

  function Add(pending: seq<Commitment>, c: Commitment): seq<Commitment> {
    if c in pending then pending else pending + [c]
  }

  function FillOne(l: Ledger, db: set<Commitment>, m: Memory, countReadable: bool): Memory
    requires m.cursor < |l.journal|
  {
    var c := l.journal[m.cursor];
    if c in db then m.(cursor := m.cursor + 1)
    else
      var count := if countReadable then Journal.Get(l.counts, m.cursor) else None;
      m.(pending := Add(m.pending, c),
         idxs := if c in m.idxs then m.idxs else m.idxs[c := m.cursor],
         counted := if count.Some? then m.counted[c := count.value] else m.counted,
         cursor := m.cursor + 1)
  }

  /** Reads entries until enough are pending, the journal ends, or a read fails (`ok` has run out). */
  function Fill(cfg: Config, l: Ledger, db: set<Commitment>, m: Memory, ok: nat, unreadable: set<nat>): Memory
    decreases ok
  {
    if |m.pending| >= cfg.maxPending || m.cursor >= |l.journal| || ok == 0 then m
    else Fill(cfg, l, db, FillOne(l, db, m, m.cursor !in unreadable), ok - 1, unreadable)
  }

  // --- blocks ------------------------------------------------------------------------------------

  function Below(blocks: seq<Block>, height: nat): seq<Block> {
    if blocks == [] then []
    else (if blocks[0].height < height then [blocks[0]] else []) + Below(blocks[1..], height)
  }

  /** The headers one discovery returns become blocks owed; those they replace are dropped unread. */
  function Queue(unprocessed: seq<Block>, news: seq<Block>): seq<Block> {
    (if news != [] then Below(unprocessed, news[0].height) else unprocessed) + news
  }

  function Observe(m: Memory, chain: Chain): Memory {
    m.(known := Discovered(m.known, chain), unprocessed := Queue(m.unprocessed, NewBlocks(m.known, chain)))
  }

  function AddAll(pending: seq<Commitment>, more: seq<Commitment>): seq<Commitment>
    decreases |more|
  {
    if more == [] then pending else AddAll(Add(pending, more[0]), more[1..])
  }

  /** A tree at the height of a block about to be read was replaced by a reorg: its commitments go back. */
  function PutBack(m: Memory, height: nat): Memory {
    if height !in m.waiting then m
    else m.(pending := AddAll(m.pending, m.waiting[height].commitments), waiting := m.waiting - {height})
  }

  function Take<T>(s: seq<T>, n: nat): seq<T> {
    if n <= |s| then s[..n] else s
  }

  /** The newest version whose transaction is in the block. */
  function Mined(unconfirmed: seq<Version>, txids: set<Txid>): Option<Version> {
    if unconfirmed == [] then None
    else if unconfirmed[|unconfirmed| - 1].txid in txids then Some(unconfirmed[|unconfirmed| - 1])
    else Mined(unconfirmed[..|unconfirmed| - 1], txids)
  }

  datatype Progress = Done | Owed | AssertionFailed

  /** The mined version's commitments leave the front of pending for a tree at the block's height. */
  function Move(m: Memory, b: Block, v: Version, commitments: seq<Commitment>): Memory
    requires |commitments| <= |m.pending|
  {
    m.(pending := m.pending[|commitments|..], unconfirmed := [],
       waiting := m.waiting[b.height := Tree(v.txid, commitments, v.fee, b.height, v.records, b.hash)])
  }

  /** One queued block: the tree it replaces put back, its body read, a mined version moved to waiting. */
  function ProcessBlock(cfg: Config, m: Memory, bodies: map<Hash, set<Txid>>): (Memory, Progress)
    requires m.unprocessed != []
  {
    var b := m.unprocessed[0];
    var back := PutBack(m, b.height);
    if b.hash !in bodies then (back, Owed)
    else
      var read := back.(unprocessed := m.unprocessed[1..]);
      match Mined(m.unconfirmed, bodies[b.hash])
      case None => (read, Done)
      case Some(v) =>
        var commitments := Take(read.pending, v.n);
        if cfg.tipOf(commitments) != v.tip then (back, AssertionFailed)
        else (Move(read, b, v, commitments), Done)
  }

  function ProcessBlocks(cfg: Config, m: Memory, bodies: map<Hash, set<Txid>>): (Memory, Progress)
    decreases |m.unprocessed|
  {
    if m.unprocessed == [] then (m, Done)
    else
      var (next, progress) := ProcessBlock(cfg, m, bodies);
      if progress != Done then (next, progress)
      else ProcessBlocks(cfg, next, bodies)
  }

  // --- saving mature trees -----------------------------------------------------------------------

  /** Journal indexes still outstanding once a tree is saved. */
  function Outstanding(idxs: map<Commitment, nat>, saved: seq<Commitment>): set<nat> {
    set c | c in idxs && c !in saved :: idxs[c]
  }

  /** The lowest outstanding index, or the cursor when nothing is outstanding. */
  function Lowest(outstanding: set<nat>, cursor: nat, from: nat): (r: nat)
    requires from <= cursor
    ensures from <= r <= cursor
    ensures forall i :: from <= i < r ==> i !in outstanding
    ensures r < cursor ==> r in outstanding
    decreases cursor - from
  {
    if from == cursor || from in outstanding then from else Lowest(outstanding, cursor, from + 1)
  }

  function CheckpointAfter(m: Memory, tree: Tree): nat {
    Lowest(Outstanding(m.idxs, tree.commitments), m.cursor, 0)
  }

  /** How one tree's save goes: the markers listed, the receipt's time, each step, the checkpoint write. */
  datatype SavePlan = SavePlan(at: nat, order: seq<Txid>, script: SaveScript, checkpoint: Step)

  function ReceiptOf(tree: Tree, at: nat): Receipt {
    Receipt(tree.txid, tree.fee, |tree.commitments|, tree.height, at, tree.records)
  }

  /** The order a directory listing gives; a plan made for another moment lists what is there. */
  function Listed(b: Books, order: seq<Txid>): (r: seq<Txid>)
    ensures forall t :: t in r ==> t in b.markers
    ensures Distinct(r)
  {
    if order == [] then []
    else
      var rest := Listed(b, order[1..]);
      if order[0] in b.markers && order[0] !in rest then [order[0]] + rest else rest
  }

  /** The store once a tree's batch landed: its commitments, the watermark, the tree by its anchor. */
  function Landed(st: Store, tree: Tree, watermark: nat, books: Books): Store {
    st.(books := books, db := st.db + (set c | c in tree.commitments), watermark := watermark,
        saved := st.saved[tree.txid := tree])
  }

  /** Memory once a tree's save has returned: the tree, its counts and its indexes released. */
  function Released(m: Memory, height: nat): Memory
    requires height in m.waiting
  {
    var stored := set c | c in m.waiting[height].commitments;
    m.(waiting := m.waiting - {height}, counted := m.counted - stored, idxs := m.idxs - stored)
  }

  /** One due tree: saved and released, kept for the next pass, or cut by a stop. */
  function SaveTree(cfg: Config, st: Store, m: Memory, height: nat, plan: SavePlan): (Store, Option<Memory>)
    requires height in m.waiting
  {
    var tree := m.waiting[height];
    var watermark := CheckpointAfter(m, tree);
    var (books, end) := Save(cfg.codec, st.books, ReceiptOf(tree, plan.at), Listed(st.books, plan.order), plan.script);
    var after := if tree.txid in books.anchors then Landed(st, tree, watermark, books) else st.(books := books);
    match end
    case Stopped => (after, None)
    case Kept => (after, Some(m))
    case Saved =>
      (if Lands(plan.checkpoint) then after.(checkpoint := Some(Checkpoint(watermark, st.generation))) else after,
       if plan.checkpoint.Stops? then None else Some(Released(m, height)))
  }

  /** Waiting heights below a bound, lowest first. */
  function Due(waiting: map<nat, Tree>, bound: nat): (r: seq<nat>)
    ensures forall h :: h in r <==> h in waiting && h < bound
    ensures Distinct(r)
  {
    if bound == 0 then [] else Due(waiting, bound - 1) + if bound - 1 in waiting then [bound - 1] else []
  }

  /** Every due tree in turn, whatever happened to the one before; plans running out is a stop. */
  function SaveTrees(cfg: Config, st: Store, m: Memory, due: seq<nat>, plans: seq<SavePlan>): (Store, Option<Memory>)
    decreases |due|
  {
    if due == [] then (st, Some(m))
    else if plans == [] || due[0] !in m.waiting then (st, None)
    else
      var (after, left) := SaveTree(cfg, st, m, due[0], plans[0]);
      if left.None? then (after, None) else SaveTrees(cfg, after, left.value, due[1..], plans[1..])
  }

  function Tip(known: seq<Block>): nat {
    if known == [] then 0 else known[|known| - 1].height
  }

  /** Heights at most this are deep enough, as a bound on heights (0 when none is). */
  function MatureBound(cfg: Config, known: seq<Block>): nat {
    if Tip(known) + 2 <= cfg.minConfirmations then 0 else Tip(known) + 2 - cfg.minConfirmations
  }

  function SaveMature(cfg: Config, st: Store, m: Memory, plans: seq<SavePlan>): (Store, Option<Memory>) {
    SaveTrees(cfg, st, m, Due(m.waiting, MatureBound(cfg, m.known)), plans)
  }

  // --- sending -----------------------------------------------------------------------------------

  /** One commitment's count at tree close: the one read by the scan, or a late read, or a hole. */
  function CountAtClose(l: Ledger, m: Memory, c: Commitment, unreadable: set<nat>): Option<nat> {
    if c in m.counted then Some(m.counted[c])
    else if c in m.idxs && m.idxs[c] !in unreadable then Journal.Get(l.counts, m.idxs[c])
    else None
  }

  /** __count_tree_records: what the tree's receipt will charge; a hole sums as nothing. */
  function CountTree(l: Ledger, m: Memory, cs: seq<Commitment>, unreadable: set<nat>): nat {
    if cs == [] then 0
    else
      var rest := CountTree(l, m, cs[..|cs| - 1], unreadable);
      match CountAtClose(l, m, cs[|cs| - 1], unreadable)
      case None => rest
      case Some(n) => rest + n
  }

  /** The counts remembered after a tree close. */
  function CountedAtClose(l: Ledger, m: Memory, cs: seq<Commitment>, unreadable: set<nat>): map<Commitment, nat> {
    m.counted + (map c | c in cs && CountAtClose(l, m, c, unreadable).Some? :: CountAtClose(l, m, c, unreadable).value)
  }

  /** What becomes of a send: the clock or the node says no, the cycle is dead, or a version goes out. */
  datatype Sending =
    | NotNow                                   // the departure clock, no output, no signature
    | Refused(unreadable: set<nat>)            // the tree closed, nothing was sent
    | Abandoned(unreadable: set<nat>)          // the in-flight input is no longer confirmed
    | Sent(txid: Txid, fee: nat, unreadable: set<nat>)
    | SentThenStopped(txid: Txid, fee: nat, unreadable: set<nat>)

  function NewVersion(cfg: Config, m: Memory, txid: Txid, fee: nat, records: nat): Version {
    Version(txid, cfg.tipOf(m.pending), |m.pending|, fee, records, m.pending)
  }

  function Send(cfg: Config, l: Ledger, sent: map<Txid, nat>, m: Memory, newBlocks: bool, how: Sending)
    : (map<Txid, nat>, Option<Memory>)
  {
    if (!newBlocks && m.unconfirmed != []) || how.NotNow? || m.pending == [] then (sent, Some(m))
    else
      var records := CountTree(l, m, m.pending, how.unreadable);
      var closed := m.(counted := CountedAtClose(l, m, m.pending, how.unreadable));
      match how
      case Refused(_) => (sent, Some(closed))
      case Abandoned(_) => (sent, Some(closed.(unconfirmed := [])))
      case Sent(txid, fee, _) =>
        (sent[txid := records], Some(closed.(unconfirmed := m.unconfirmed + [NewVersion(cfg, m, txid, fee, records)])))
      case SentThenStopped(txid, _, _) => (sent[txid := records], None)
  }

  // --- one pass ----------------------------------------------------------------------------------

  /** What one pass meets: the node's chain (None: a discovery that raises), its bodies, the saves, the send. */
  datatype Pass = Pass(chain: Option<Chain>, bodies: map<Hash, set<Txid>>, plans: seq<SavePlan>, sending: Sending)

  function DoBitcoin(cfg: Config, s: State, p: Pass): State
    requires s.memory.Some?
  {
    if p.chain.None? then s
    else
      var m := s.memory.value;
      var (read, progress) := ProcessBlocks(cfg, Observe(m, p.chain.value), p.bodies);
      if progress != Done then s.(memory := Some(read))
      else
        var (store, swept) := SaveMature(cfg, s.store, read, p.plans);
        if swept.None? then s.(store := store, memory := None)
        else
          var (sent, left) :=
            Send(cfg, s.ledger, s.sent, swept.value, NewBlocks(m.known, p.chain.value) != [], p.sending);
          s.(store := store, sent := sent, memory := left)
  }
}
