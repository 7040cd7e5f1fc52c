/**
 * Anchor receipts (otsserver/stamper.py: settle_pending_receipt, __settle_marker,
 * __save_confirmed_timestamp_tx): the marker written before a save, the line appended after it, and the
 * settling of markers left by a stop. Every step can raise or be the last one before a stop; a power
 * loss also takes back what was not yet synced.
 */
module Receipts {
  import opened Octets
  import opened ReceiptFile
  import opened Wrappers

  /**
   * The disk: the receipts file and how much of it is synced, the markers by their anchor's txid, the
   * markers whose removal is not yet durable, and the anchors the database holds.
   */
  datatype Books = Books(
    file: Bytes,
    synced: nat,
    markers: map<Txid, Receipt>,
    unlinked: map<Txid, Receipt>,
    anchors: set<Txid>)

  ghost predicate Distinct<T>(s: seq<T>) {
    forall i, j :: 0 <= i < j < |s| ==> s[i] != s[j]
  }

  /** What holds of the disk at every moment a stop can come. */
  ghost predicate Coherent(c: Codec, b: Books) {
    && b.synced <= |b.file|
    && Distinct(Txids(c, b.file))
    && (forall t :: t in Txids(c, b.file) ==> t in b.anchors)
    && (forall t :: t in b.anchors ==> t in b.markers || t in Txids(c, b.file[..b.synced]))
    && (forall t :: t in b.markers ==> b.markers[t].txid == t)
    && (forall t :: t in b.unlinked ==>
          b.unlinked[t].txid == t && (t in b.anchors ==> t in Txids(c, b.file[..b.synced])))
  }

  // --- the steps ---------------------------------------------------------------------------------

  /** One append: the incomplete tail dropped, then `written` bytes of the line; synced only when it succeeds. */
  function Append(c: Codec, b: Books, r: Receipt, written: nat, ok: bool): Books
    requires written <= |c.encode(r)| + 1 && (ok ==> written == |c.encode(r)| + 1)
  {
    var file := Appended(b.file, c.encode(r), written);
    var keep := CompleteLength(b.file);
    b.(file := file, synced := if ok then |file| else if keep < |b.file| then keep else b.synced)
  }

  /**
   * How far a failing append gets: before any effect, past the tail's truncation but not its sync, or into the line.
   */
  datatype Reach = Untouched | TailDropped | Partly(written: nat)

  function AppendCut(c: Codec, b: Books, r: Receipt, reach: Reach): Books {
    match reach
    case Untouched => b
    case TailDropped =>
      var keep := CompleteLength(b.file);
      b.(file := b.file[..keep], synced := if keep < b.synced then keep else b.synced)
    case Partly(w) => Append(c, b, r, if w <= |c.encode(r)| then w else |c.encode(r)| + 1, false)
  }

  function Unlink(b: Books, t: Txid): Books
    requires t in b.markers
  {
    b.(markers := b.markers - {t}, unlinked := b.unlinked[t := b.markers[t]])
  }

  /** How far the settling of one marker gets: it may raise, or be cut short by a stop, at each step. */
  datatype SettleFault = Clean | BeforeAnyWrite | InAppend(reach: Reach) | AtUnlink

  datatype Settled = Removed | Left | AheadOfDatabase

  function Settle(c: Codec, b: Books, t: Txid, f: SettleFault): (Books, Settled)
    requires t in b.markers
  {
    var r := b.markers[t];
    var onFile := t in Txids(c, b.file);
    if f == BeforeAnyWrite then (b, Left)
    else if t in b.anchors && !onFile && f.InAppend? then (AppendCut(c, b, r, f.reach), Left)
    else if t !in b.anchors && onFile then (b, AheadOfDatabase)
    else
      var owed := if t !in b.anchors then b
                  else if onFile then b.(synced := |b.file|)
                  else Append(c, b, r, |c.encode(r)| + 1, true);
      if f == AtUnlink then (owed, Left) else (Unlink(owed, t), Removed)
  }

  datatype SettleEnd = Finished | Cut | Contradiction

  /** settle_pending_receipt over the markers in directory order; running out of faults is the stop. */
  function SettleAll(c: Codec, b: Books, order: seq<Txid>, faults: seq<SettleFault>): (Books, SettleEnd)
    requires forall t :: t in order ==> t in b.markers
    requires Distinct(order)
    decreases |order|
  {
    if order == [] then (b, Finished)
    else if faults == [] then (b, Cut)
    else
      var (after, end) := Settle(c, b, order[0], faults[0]);
      if end == AheadOfDatabase then (after, Contradiction)
      else
        assert forall t :: t in order[1..] ==> t in after.markers by {
          assert forall i :: 1 <= i < |order| ==> order[i] != order[0];
        }
        SettleAll(c, after, order[1..], faults[1..])
  }

  datatype Step = Go | Raises(landed: bool) | Stops(landed: bool)

  predicate Lands(s: Step) {
    s.Go? || s.landed
  }

  datatype AppendStep = Wrote | AppendRaises(reach: Reach) | AppendStops(reach: Reach)

  datatype SaveScript = SaveScript(settle: seq<SettleFault>, marker: Step, batch: Step, append: AppendStep,
                                   unlink: Step)

  datatype SaveEnd = Saved | Kept | Stopped

  function WriteMarker(b: Books, r: Receipt): Books {
    b.(markers := b.markers[r.txid := r], unlinked := b.unlinked - {r.txid})
  }

  /** __save_confirmed_timestamp_tx: earlier markers, this marker, the batch, the line, the marker away. */
  function Save(c: Codec, b: Books, r: Receipt, order: seq<Txid>, s: SaveScript): (Books, SaveEnd)
    requires Distinct(order) && forall t :: t in order ==> t in b.markers
  {
    var (settled, end) := SettleAll(c, b, order, s.settle);
    if end == Cut then (settled, Stopped)
    else if end == Contradiction then (settled, Kept)
    else
      var marked := if Lands(s.marker) then WriteMarker(settled, r) else settled;
      if s.marker.Raises? then (marked, Kept)
      else if s.marker.Stops? then (marked, Stopped)
      else if s.batch.Raises? then (marked, Kept) // a save that raises has not landed
      else
        var saved := if Lands(s.batch) then marked.(anchors := marked.anchors + {r.txid}) else marked;
        if s.batch.Stops? then (saved, Stopped) else WriteReceipt(c, saved, r, s)
  }

  /** After the batch: the line, then this anchor's marker away. */
  function WriteReceipt(c: Codec, b: Books, r: Receipt, s: SaveScript): (Books, SaveEnd)
    requires r.txid in b.markers
  {
    match s.append
    case AppendRaises(reach) => (AppendCut(c, b, r, reach), Saved)
    case AppendStops(reach) => (AppendCut(c, b, r, reach), Stopped)
    case Wrote =>
      var lined := Append(c, b, r, |c.encode(r)| + 1, true);
      (if Lands(s.unlink) then Unlink(lined, r.txid) else lined, if s.unlink.Stops? then Stopped else Saved)
  }

  /**
   * A power loss: any part of the file not synced goes, a truncation not synced may come undone (whatever is then at
   * the end holds no whole line), and any removal not synced may be undone.
   */
  function PowerLoss(b: Books, keep: nat, tail: Bytes, back: set<Txid>): Books
    requires keep <= |b.file|
  {
    b.(file := b.file[..keep] + tail,
       synced := if b.synced < keep then b.synced else keep,
       markers := b.markers + (map t | t in b.unlinked && t in back :: b.unlinked[t]),
       unlinked := b.unlinked - back)
  }

  // --- what the steps keep -----------------------------------------------------------------------

  lemma TxidsOfAppended(c: Codec, file: Bytes, r: Receipt, written: nat)
    requires c.Sound() && written <= |c.encode(r)| + 1
    ensures Txids(c, Appended(file, c.encode(r), written))
         == Txids(c, file) + if written == |c.encode(r)| + 1 then [r.txid] else []
  {
    AppendedLines(file, c.encode(r), written);
    NamesConcat(c, Lines(file), if written == |c.encode(r)| + 1 then [c.encode(r)] else []);
    if written == |c.encode(r)| + 1 {
      assert Names(c, [c.encode(r)]) == [r.txid] + Names(c, []);
    }
  }

  /** What is in a truncated file was in the file. */
  lemma TxidsOfPrefix(c: Codec, file: Bytes, n: nat)
    requires n <= |file|
    ensures Txids(c, file[..n]) <= Txids(c, file)
  {
    LinesOfPrefix(file, n);
    var a := Lines(file[..n]);
    NamesConcat(c, a, Lines(file)[|a|..]);
    assert Lines(file) == a + Lines(file)[|a|..];
  }

  /** An append, finished or not, loses nothing that was synced. */
  lemma AppendKeepsSynced(c: Codec, b: Books, r: Receipt, written: nat, ok: bool)
    requires c.Sound() && b.synced <= |b.file|
    requires written <= |c.encode(r)| + 1 && (ok ==> written == |c.encode(r)| + 1)
    ensures var after := Append(c, b, r, written, ok);
            && after.synced <= |after.file|
            && Txids(c, b.file[..b.synced]) <= Txids(c, after.file[..after.synced])
            && (ok ==> after.file[..after.synced] == after.file)
  {
    var after := Append(c, b, r, written, ok);
    var keep := CompleteLength(b.file);
    LinesAreComplete(b.file);
    TxidsOfPrefix(c, b.file, b.synced);
    TxidsOfAppended(c, b.file, r, written);
    if ok {
      assert after.file[..after.synced] == after.file;
    } else if keep < |b.file| {
      assert after.file[..keep] == b.file[..keep];
    } else {
      assert after.file[..b.synced] == b.file[..b.synced];
    }
  }

  /** Appending the receipt a standing marker owes keeps the disk coherent, however far it gets. */
  lemma AppendKeepsCoherent(c: Codec, b: Books, r: Receipt, written: nat, ok: bool)
    requires c.Sound() && Coherent(c, b)
    requires r.txid in b.anchors && r.txid in b.markers && r.txid !in Txids(c, b.file)
    requires written <= |c.encode(r)| + 1 && (ok ==> written == |c.encode(r)| + 1)
    ensures Coherent(c, Append(c, b, r, written, ok))
  {
    var after := Append(c, b, r, written, ok);
    TxidsOfAppended(c, b.file, r, written);
    AppendKeepsSynced(c, b, r, written, ok);
  }

  /** Dropping the tail loses no line, synced or not. */
  lemma TailDropKeepsLines(c: Codec, b: Books, r: Receipt)
    requires b.synced <= |b.file|
    ensures var after := AppendCut(c, b, r, TailDropped);
            && after.synced <= |after.file| && Lines(after.file) == Lines(b.file)
            && Txids(c, after.file[..after.synced]) == Txids(c, b.file[..b.synced])
  {
    hide FirstNewline, LastNewline;
    var keep := CompleteLength(b.file);
    LinesAreComplete(b.file);
    if keep < b.synced {
      TailHasNoLine(b.file, b.synced);
      assert b.file[..keep][..keep] == b.file[..keep];
    } else {
      assert b.file[..keep][..b.synced] == b.file[..b.synced];
    }
  }

  lemma TailHasNoLine(file: Bytes, n: nat)
    requires CompleteLength(file) <= n <= |file|
    ensures Lines(file[..n]) == Lines(file[..CompleteLength(file)])
  {
    var keep := CompleteLength(file);
    LinesAreComplete(file);
    assert file[..n] == file[..keep] + file[keep..n];
    ClearHasNoLine(file[keep..n]);
    LinesConcat(file[..keep], file[keep..n]);
  }

  lemma AppendCutKeepsCoherent(c: Codec, b: Books, r: Receipt, reach: Reach)
    requires c.Sound() && Coherent(c, b)
    requires r.txid in b.anchors && r.txid in b.markers && r.txid !in Txids(c, b.file)
    ensures Coherent(c, AppendCut(c, b, r, reach))
  {
    match reach
    case Untouched =>
    case TailDropped => TailDropKeepsLines(c, b, r);
    case Partly(w) => AppendKeepsCoherent(c, b, r, if w <= |c.encode(r)| then w else |c.encode(r)| + 1, false);
  }

  /** A marker goes only when its receipt is synced on file or nothing is owed for it. */
  lemma UnlinkKeepsCoherent(c: Codec, b: Books, t: Txid)
    requires Coherent(c, b) && t in b.markers
    requires t in b.anchors ==> t in Txids(c, b.file[..b.synced])
    ensures Coherent(c, Unlink(b, t))
  {
  }

  /** A marker whose receipt is already on file: the file is synced before the marker goes. */
  lemma SyncKeepsCoherent(c: Codec, b: Books, t: Txid)
    requires Coherent(c, b) && t in b.markers && t in Txids(c, b.file)
    ensures Coherent(c, b.(synced := |b.file|)) && Coherent(c, Unlink(b.(synced := |b.file|), t))
  {
    TxidsOfPrefix(c, b.file, b.synced);
    assert b.file[..|b.file|] == b.file;
    UnlinkKeepsCoherent(c, b.(synced := |b.file|), t);
  }

  /** A marker whose receipt is owed and not on file: the line first, whole and synced, then the marker. */
  lemma AppendThenUnlinkKeepsCoherent(c: Codec, b: Books, r: Receipt)
    requires c.Sound() && Coherent(c, b)
    requires r.txid in b.anchors && r.txid in b.markers && r.txid !in Txids(c, b.file)
    ensures var lined := Append(c, b, r, |c.encode(r)| + 1, true);
            && Coherent(c, lined) && Coherent(c, Unlink(lined, r.txid))
            && r.txid in Txids(c, lined.file[..lined.synced])
  {
    var whole := |c.encode(r)| + 1;
    AppendKeepsCoherent(c, b, r, whole, true);
    AppendKeepsSynced(c, b, r, whole, true);
    TxidsOfAppended(c, b.file, r, whole);
    UnlinkKeepsCoherent(c, Append(c, b, r, whole, true), r.txid);
  }

  lemma MarkersNamed(c: Codec, b: Books, t: Txid)
    requires Coherent(c, b)
    ensures t in b.markers ==> b.markers[t].txid == t
    ensures t in Txids(c, b.file) ==> t in b.anchors
    ensures b.synced <= |b.file|
  {
  }

  lemma SettleKeepsCoherent(c: Codec, b: Books, t: Txid, f: SettleFault)
    requires c.Sound() && Coherent(c, b) && t in b.markers
    ensures var (after, end) := Settle(c, b, t, f);
            && Coherent(c, after)
            && end != AheadOfDatabase
            && after.anchors == b.anchors
            && (end == Removed <==> t !in after.markers)
  {
    hide Coherent, Txids, CompleteLength, Appended;
    MarkersNamed(c, b, t);
    var r := b.markers[t];
    if t !in b.anchors {
      UnlinkKeepsCoherent(c, b, t);
    } else if t in Txids(c, b.file) {
      SyncKeepsCoherent(c, b, t);
    } else {
      AppendCutKeepsCoherent(c, b, r, if f.InAppend? then f.reach else Untouched);
      AppendThenUnlinkKeepsCoherent(c, b, r);
    }
  }

  lemma SettleMarkers(c: Codec, b: Books, t: Txid, f: SettleFault)
    requires t in b.markers
    ensures forall u :: u in b.markers && u != t ==> u in Settle(c, b, t, f).0.markers
  {
    hide Appended, Lines, Txids;
  }

  /** Settling, cut anywhere, keeps the disk coherent and never meets a receipt ahead of the database. */
  lemma {:induction false} SettleAllKeepsCoherent(c: Codec, b: Books, order: seq<Txid>, faults: seq<SettleFault>)
    requires c.Sound() && Coherent(c, b)
    requires Distinct(order) && forall t :: t in order ==> t in b.markers
    ensures var (after, end) := SettleAll(c, b, order, faults);
            Coherent(c, after) && end != Contradiction && after.anchors == b.anchors
    decreases |order|
  {
    if order != [] && faults != [] {
      SettleKeepsCoherent(c, b, order[0], faults[0]);
      var after := Settle(c, b, order[0], faults[0]).0;
      assert forall i :: 1 <= i < |order| ==> order[i] != order[0];
      SettleAllKeepsCoherent(c, after, order[1..], faults[1..]);
    }
  }

  /** A save, cut anywhere or raising anywhere, keeps the disk coherent; it returns only when it landed. */
  lemma SaveKeepsCoherent(c: Codec, b: Books, r: Receipt, order: seq<Txid>, s: SaveScript)
    requires c.Sound() && Coherent(c, b) && r.txid !in b.anchors
    requires Distinct(order) && forall t :: t in order ==> t in b.markers
    ensures var (after, end) := Save(c, b, r, order, s);
            && Coherent(c, after)
            && b.anchors <= after.anchors <= b.anchors + {r.txid}
            && (end == Saved ==> r.txid in after.anchors)
            && (end == Kept ==> r.txid !in after.anchors)
  {
    SettleAllKeepsCoherent(c, b, order, s.settle);
    var (settled, end) := SettleAll(c, b, order, s.settle);
    if end == Finished && Lands(s.marker) {
      var marked := WriteMarker(settled, r);
      assert Coherent(c, marked);
      if s.marker.Go? && !s.batch.Raises? && Lands(s.batch) {
        var saved := marked.(anchors := marked.anchors + {r.txid});
        assert Coherent(c, saved);
        if s.batch.Go? { ReceiptKeepsCoherent(c, saved, r, s); }
      }
    }
  }

  lemma ReceiptKeepsCoherent(c: Codec, b: Books, r: Receipt, s: SaveScript)
    requires c.Sound() && Coherent(c, b)
    requires r.txid in b.anchors && r.txid in b.markers && r.txid !in Txids(c, b.file)
    ensures var (after, end) := WriteReceipt(c, b, r, s);
            Coherent(c, after) && after.anchors == b.anchors && end != Kept
  {
    hide Coherent;
    match s.append
    case AppendRaises(reach) => AppendCutKeepsCoherent(c, b, r, reach);
    case AppendStops(reach) => AppendCutKeepsCoherent(c, b, r, reach);
    case Wrote => AppendThenUnlinkKeepsCoherent(c, b, r);
  }

  lemma PowerLossKeepsCoherent(c: Codec, b: Books, keep: nat, tail: Bytes, back: set<Txid>)
    requires Coherent(c, b) && b.synced <= keep <= |b.file| && NEWLINE !in tail
    ensures Coherent(c, PowerLoss(b, keep, tail, back))
  {
    hide Lines;
    TxidsOfPrefix(c, b.file, keep);
    TailAddsNone(b.file[..keep], tail);
    SyncedStays(b.file, b.synced, keep, tail);
  }

  lemma SyncedStays(file: Bytes, synced: nat, keep: nat, tail: Bytes)
    requires synced <= keep <= |file|
    ensures (file[..keep] + tail)[..synced] == file[..synced]
  {
  }

  // --- whole runs --------------------------------------------------------------------------------

  datatype BookEvent =
    | Start(order: seq<Txid>, faults: seq<SettleFault>)
    | SaveAnchor(receipt: Receipt, order: seq<Txid>, script: SaveScript)
    | LosePower(keep: nat, tail: Bytes, back: set<Txid>)

  /** `order` is the directory listing of the markers on file. */
  ghost predicate Lists(order: seq<Txid>, b: Books) {
    Distinct(order) && forall t :: t in order <==> t in b.markers
  }

  /** An anchor's own save is attempted only until it lands: its tree is then retired. */
  ghost predicate BookPossible(b: Books, e: BookEvent) {
    match e
    case Start(order, _) => Lists(order, b)
    case SaveAnchor(r, order, _) => Lists(order, b) && r.txid !in b.anchors
    case LosePower(keep, tail, _) => b.synced <= keep <= |b.file| && NEWLINE !in tail
  }

  ghost function BookAfter(c: Codec, b: Books, e: BookEvent): Books
    requires BookPossible(b, e)
  {
    match e
    case Start(order, faults) => SettleAll(c, b, order, faults).0
    case SaveAnchor(r, order, script) => Save(c, b, r, order, script).0
    case LosePower(keep, tail, back) => PowerLoss(b, keep, tail, back)
  }

  ghost predicate Reaches(c: Codec, b: Books, events: seq<BookEvent>, final: Books)
    decreases |events|
  {
    if events == [] then final == b
    else BookPossible(b, events[0]) && Reaches(c, BookAfter(c, b, events[0]), events[1..], final)
  }

  lemma {:induction false} RunsKeepCoherent(c: Codec, b: Books, events: seq<BookEvent>, final: Books)
    requires c.Sound() && Coherent(c, b) && Reaches(c, b, events, final)
    ensures Coherent(c, final) && b.anchors <= final.anchors
    decreases |events|
  {
    if events != [] {
      match events[0] {
        case Start(order, faults) => SettleAllKeepsCoherent(c, b, order, faults);
        case SaveAnchor(r, order, script) => SaveKeepsCoherent(c, b, r, order, script);
        case LosePower(keep, tail, back) => PowerLossKeepsCoherent(c, b, keep, tail, back);
      }
      RunsKeepCoherent(c, BookAfter(c, b, events[0]), events[1..], final);
    }
  }

  lemma {:induction false} CleanSettleClears(c: Codec, b: Books, order: seq<Txid>, faults: seq<SettleFault>)
    requires c.Sound() && Coherent(c, b) && Lists(order, b)
    requires |faults| >= |order| && forall i :: 0 <= i < |order| ==> faults[i] == Clean
    ensures var (after, end) := SettleAll(c, b, order, faults);
            end == Finished && after.markers.Keys == {}
    decreases |order|
  {
    if order != [] {
      SettleKeepsCoherent(c, b, order[0], faults[0]);
      var after := Settle(c, b, order[0], faults[0]).0;
      assert forall i :: 1 <= i < |order| ==> order[i] != order[0];
      assert Lists(order[1..], after);
      CleanSettleClears(c, after, order[1..], faults[1..]);
    }
  }

  /** One receipt line for every anchor in the database, none for any other, none twice, all of them synced. */
  ghost predicate Exact(c: Codec, b: Books, anchors: set<Txid>) {
    && b.synced <= |b.file|
    && Distinct(Txids(c, b.file[..b.synced]))
    && (forall t :: t in Txids(c, b.file) <==> t in anchors)
    && (forall t :: t in Txids(c, b.file[..b.synced]) <==> t in anchors)
  }

  lemma NoMarkerIsExact(c: Codec, b: Books)
    requires Coherent(c, b) && b.markers.Keys == {}
    ensures Exact(c, b, b.anchors)
  {
    TxidsOfPrefix(c, b.file, b.synced);
    assert forall t :: t !in b.markers;
  }

  /**
   * Exactly once. After any run of starts, saves and power losses, each cut or failing anywhere, one
   * fault-free settle leaves the receipts exact and no marker standing.
   */
  lemma ExactlyOnce(c: Codec, b: Books, events: seq<BookEvent>, reached: Books, order: seq<Txid>,
                    faults: seq<SettleFault>)
    requires c.Sound() && Coherent(c, b) && Reaches(c, b, events, reached)
    requires Lists(order, reached)
    requires |faults| >= |order| && forall i :: 0 <= i < |order| ==> faults[i] == Clean
    ensures var final := SettleAll(c, reached, order, faults).0;
            Exact(c, final, reached.anchors) && final.markers.Keys == {}
  {
    RunsKeepCoherent(c, b, events, reached);
    SettleAllKeepsCoherent(c, reached, order, faults);
    CleanSettleClears(c, reached, order, faults);
    NoMarkerIsExact(c, SettleAll(c, reached, order, faults).0);
  }

  // --- the stamper's own code over these files -----------------------------------------------------

  class ReceiptBook {
    const codec: Codec
    var file: Bytes
    var synced: nat
    var markers: map<Txid, Receipt>
    var unlinked: map<Txid, Receipt>
    var anchors: set<Txid>

    constructor (codec: Codec, b: Books)
      ensures this.codec == codec && Disk() == b
    {
      this.codec := codec;
      file, synced, markers, unlinked, anchors := b.file, b.synced, b.markers, b.unlinked, b.anchors;
    }

    function Disk(): Books
      reads this
    {
      Books(file, synced, markers, unlinked, anchors)
    }

    /** _append_anchor_receipt: drop the tail, write the line, sync; `fails` is how far it gets before an error. */
    method AppendAnchorReceipt(r: Receipt, fails: Option<Reach>)
      requires synced <= |file|
      modifies this`file, this`synced
      ensures Disk() == if fails.Some? then AppendCut(codec, old(Disk()), r, fails.value)
                        else Append(codec, old(Disk()), r, |codec.encode(r)| + 1, true)
    {
      var line := codec.encode(r) + [NEWLINE];
      if fails == Some(Untouched) { return; }
      var keep := RecoverTail(file);
      assert file[..|file|] == file;
      var torn := keep < |file|;
      if torn {
        file := file[..keep];
        if keep < synced { synced := keep; }
      }
      assert file == old(file)[..keep];
      if fails == Some(TailDropped) { return; }
      if torn { synced := keep; }
      if fails.None? {
        file := file + line;
        synced := |file|;
      } else {
        file := file + line[..if fails.value.written < |line| then fails.value.written else |line|];
      }
      assert line[..|line|] == line;
    }

    /** __settle_marker: false when it raised, which leaves the marker for the next time. */
    method SettleMarker(t: Txid, f: SettleFault) returns (end: Settled)
      requires synced <= |file| && t in markers
      modifies this
      ensures (Disk(), end) == Settle(codec, old(Disk()), t, f)
    {
      if f == BeforeAnyWrite { return Left; }
      var r := markers[t];
      var onFile := ReceiptOnFile(codec, file, t);
      if t in anchors {
        if onFile {
          synced := |file|;
        } else {
          AppendAnchorReceipt(r, if f.InAppend? then Some(f.reach) else None);
          if f.InAppend? { return Left; }
        }
      } else if onFile {
        return AheadOfDatabase;
      }
      if f == AtUnlink { return Left; }
      unlinked := unlinked[t := r];
      markers := markers - {t};
      return Removed;
    }

    /** settle_pending_receipt: each marker on its own; one that cannot be settled never stops the others. */
    method SettlePendingReceipt(order: seq<Txid>, faults: seq<SettleFault>) returns (end: SettleEnd)
      requires codec.Sound() && Coherent(codec, Disk())
      requires Distinct(order) && forall t :: t in order ==> t in markers
      modifies this
      ensures (Disk(), end) == SettleAll(codec, old(Disk()), order, faults)
    {
      hide Coherent, Settle;
      var i := 0;
      ghost var start := Disk();
      while i < |order|
        invariant 0 <= i <= |order|
        invariant i <= |faults| && Coherent(codec, Disk())
        invariant forall t :: t in order[i..] ==> t in markers
        invariant SettleAll(codec, start, order, faults) == SettleAll(codec, Disk(), order[i..], faults[i..])
      {
        if i == |faults| { return Cut; }
        ghost var before := Disk();
        SettleKeepsCoherent(codec, before, order[i], faults[i]);
        MarkersNamed(codec, before, order[i]);
        SettleMarkers(codec, before, order[i], faults[i]);
        assert forall j :: i < j < |order| ==> order[j] in order[i..];
        var one := SettleMarker(order[i], faults[i]);
        assert order[i..][1..] == order[i + 1..] && faults[i..][1..] == faults[i + 1..];
        i := i + 1;
      }
      return Finished;
    }

    /** __save_confirmed_timestamp_tx: marker before the save, line after it, and no save without its marker. */
    method SaveConfirmed(r: Receipt, order: seq<Txid>, s: SaveScript) returns (end: SaveEnd)
      requires codec.Sound() && Coherent(codec, Disk()) && r.txid !in anchors
      requires Distinct(order) && forall t :: t in order ==> t in markers
      modifies this
      ensures (Disk(), end) == Save(codec, old(Disk()), r, order, s)
      ensures Coherent(codec, Disk())
    {
      hide Coherent;
      SaveKeepsCoherent(codec, Disk(), r, order, s);
      SettleAllKeepsCoherent(codec, Disk(), order, s.settle);
      MarkersNamed(codec, SettleAll(codec, Disk(), order, s.settle).0, r.txid);
      var settled := SettlePendingReceipt(order, s.settle);
      if settled == Cut { return Stopped; }
      if Lands(s.marker) {
        markers := markers[r.txid := r];
        unlinked := unlinked - {r.txid};
      }
      if s.marker.Raises? { return Kept; }
      if s.marker.Stops? { return Stopped; }
      if s.batch.Raises? { return Kept; }
      if Lands(s.batch) { anchors := anchors + {r.txid}; }
      if s.batch.Stops? { return Stopped; }
      match s.append {
        case AppendRaises(reach) => AppendAnchorReceipt(r, Some(reach)); return Saved;
        case AppendStops(reach) => AppendAnchorReceipt(r, Some(reach)); return Stopped;
        case Wrote => AppendAnchorReceipt(r, None);
      }
      if Lands(s.unlink) {
        unlinked := unlinked[r.txid := markers[r.txid]];
        markers := markers - {r.txid};
      }
      return if s.unlink.Stops? then Stopped else Saved;
    }
  }
}
