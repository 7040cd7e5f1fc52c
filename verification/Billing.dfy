/**
 * What the receipts charge (otsserver/stamper.py: __count_tree_records, __save_confirmed_timestamp_tx): the
 * records on file and owed, taken together, are exactly the records of the saved anchors.
 */
module Billing {
  import opened Octets
  import opened ReceiptFile
  import opened Receipts
  import opened Wrappers

  /** The receipts a reader finds on file, in order. */
  function Parsed(codec: Codec, lines: seq<Bytes>): seq<Receipt> {
    if lines == [] then []
    else
      var parsed := codec.parse(lines[0]);
      (if parsed.Some? then [parsed.value] else []) + Parsed(codec, lines[1..])
  }

  function OnFile(codec: Codec, file: Bytes): seq<Receipt> {
    Parsed(codec, Lines(file))
  }

  lemma {:induction false} ParsedNames(codec: Codec, lines: seq<Bytes>)
    ensures |Parsed(codec, lines)| == |Names(codec, lines)|
    ensures forall i :: 0 <= i < |Parsed(codec, lines)| ==> Parsed(codec, lines)[i].txid == Names(codec, lines)[i]
  {
    if lines != [] {
      ParsedNames(codec, lines[1..]);
    }
  }

  lemma {:induction false} ParsedConcat(codec: Codec, a: seq<Bytes>, b: seq<Bytes>)
    ensures Parsed(codec, a + b) == Parsed(codec, a) + Parsed(codec, b)
  {
    if a == [] {
      assert a + b == b;
    } else {
      assert (a + b)[1..] == a[1..] + b;
      ParsedConcat(codec, a[1..], b);
    }
  }

  function Plain(r: Receipt): Receipt {
    r.(at := 0)
  }

  /** What receipts are to say: the records each transaction closed over, and all but the time for a saved anchor. */
  datatype Word = Word(sent: map<Txid, nat>, saved: map<Txid, Receipt>) {
    predicate Is(r: Receipt) {
      r.txid in sent && r.records == sent[r.txid] && (r.txid in saved ==> Plain(r) == saved[r.txid])
    }

    function With(r: Receipt): Word {
      Word(sent, saved[r.txid := Plain(r)])
    }
  }

  /** Every receipt anywhere on the disk says what it is to say. */
  ghost predicate Faithful(c: Codec, b: Books, word: Word) {
    && (forall r :: r in OnFile(c, b.file) ==> word.Is(r))
    && (forall t :: t in b.markers ==> word.Is(b.markers[t]))
    && (forall t :: t in b.unlinked ==> word.Is(b.unlinked[t]))
  }

  lemma AppendFaithful(c: Codec, b: Books, r: Receipt, written: nat, ok: bool, word: Word)
    requires c.Sound() && Faithful(c, b, word) && word.Is(r)
    requires written <= |c.encode(r)| + 1 && (ok ==> written == |c.encode(r)| + 1)
    ensures Faithful(c, Append(c, b, r, written, ok), word)
  {
    hide Word.Is;
    var more := if written == |c.encode(r)| + 1 then [c.encode(r)] else [];
    AppendedLines(b.file, c.encode(r), written);
    ParsedConcat(c, Lines(b.file), more);
    if more != [] {
      assert Parsed(c, more) == [r] + Parsed(c, []);
    }
  }

  lemma AppendCutFaithful(c: Codec, b: Books, r: Receipt, reach: Reach, word: Word)
    requires c.Sound() && Faithful(c, b, word) && word.Is(r)
    ensures Faithful(c, AppendCut(c, b, r, reach), word)
  {
    hide Word.Is;
    match reach
    case Untouched =>
    case TailDropped => LinesAreComplete(b.file);
    case Partly(w) => AppendFaithful(c, b, r, if w <= |c.encode(r)| then w else |c.encode(r)| + 1, false, word);
  }

  lemma SettleFaithful(c: Codec, b: Books, t: Txid, f: SettleFault, word: Word)
    requires c.Sound() && t in b.markers && Faithful(c, b, word)
    ensures Faithful(c, Settle(c, b, t, f).0, word)
  {
    hide Faithful, Appended, AppendCut, Word.Is;
    var r := b.markers[t];
    var whole := |c.encode(r)| + 1;
    MarkerFaithful(c, b, t, word);
    AppendCutFaithful(c, b, r, if f.InAppend? then f.reach else Untouched, word);
    AppendFaithful(c, b, r, whole, true, word);
    UnlinkFaithful(c, b.(synced := |b.file|), t, word);
    UnlinkFaithful(c, b, t, word);
    UnlinkFaithful(c, Append(c, b, r, whole, true), t, word);
  }

  lemma MarkerFaithful(c: Codec, b: Books, t: Txid, word: Word)
    requires Faithful(c, b, word) && t in b.markers
    ensures word.Is(b.markers[t]) && Faithful(c, b.(synced := |b.file|), word)
  {
  }

  lemma UnlinkFaithful(c: Codec, b: Books, t: Txid, word: Word)
    requires Faithful(c, b, word) && t in b.markers
    ensures Faithful(c, Unlink(b, t), word)
  {
  }

  lemma {:induction false} SettleAllFaithful(c: Codec, b: Books, order: seq<Txid>, faults: seq<SettleFault>, word: Word)
    requires c.Sound() && Coherent(c, b) && Faithful(c, b, word)
    requires Distinct(order) && forall t :: t in order ==> t in b.markers
    ensures Faithful(c, SettleAll(c, b, order, faults).0, word)
    decreases |order|
  {
    hide Coherent, Faithful;
    if order != [] && faults != [] {
      SettleKeepsCoherent(c, b, order[0], faults[0]);
      SettleFaithful(c, b, order[0], faults[0], word);
      var after := Settle(c, b, order[0], faults[0]).0;
      assert forall i :: 1 <= i < |order| ==> order[i] != order[0];
      SettleAllFaithful(c, after, order[1..], faults[1..], word);
    }
  }

  /** An anchor saved under its own marker is described by whatever names it. */
  lemma SavedFaithful(c: Codec, b: Books, r: Receipt, word: Word)
    requires Coherent(c, b) && Faithful(c, b, word) && word.Is(r) && r.txid !in b.anchors
    requires r.txid in b.markers && b.markers[r.txid] == r && r.txid !in b.unlinked
    ensures Faithful(c, b.(anchors := b.anchors + {r.txid}), word.With(r))
  {
    ParsedNames(c, Lines(b.file));
    forall q | q in OnFile(c, b.file) ensures word.With(r).Is(q) {
      assert word.Is(q) && q.txid in Txids(c, b.file);
    }
  }

  /** A save leaves every receipt saying what it is to say, the new anchor's among them once it is saved. */
  lemma SaveFaithful(c: Codec, b: Books, r: Receipt, order: seq<Txid>, s: SaveScript, word: Word)
    requires c.Sound() && Coherent(c, b) && Faithful(c, b, word) && word.Is(r) && r.txid !in b.anchors
    requires Distinct(order) && forall t :: t in order ==> t in b.markers
    ensures var after := Save(c, b, r, order, s).0;
            Faithful(c, after, if r.txid in after.anchors then word.With(r) else word)
  {
    hide Coherent, Faithful, SettleAll, WriteReceipt, Word.Is;
    SaveKeepsCoherent(c, b, r, order, s);
    SettleAllKeepsCoherent(c, b, order, s.settle);
    SettleAllFaithful(c, b, order, s.settle, word);
    var (settled, end) := SettleAll(c, b, order, s.settle);
    if end == Finished && Lands(s.marker) {
      var marked := WriteMarker(settled, r);
      MarkedFaithful(c, settled, r, word);
      if s.marker.Go? && !s.batch.Raises? && Lands(s.batch) {
        SavedFaithful(c, marked, r, word);
        if s.batch.Go? {
          IsItsOwn(word, r);
          WriteReceiptFaithful(c, marked.(anchors := marked.anchors + {r.txid}), r, s, word.With(r));
        }
      }
    }
  }

  lemma MarkedFaithful(c: Codec, b: Books, r: Receipt, word: Word)
    requires Coherent(c, b) && Faithful(c, b, word) && word.Is(r) && r.txid !in b.anchors
    ensures Faithful(c, WriteMarker(b, r), word) && Coherent(c, WriteMarker(b, r))
  {
  }

  lemma IsItsOwn(word: Word, r: Receipt)
    requires word.Is(r)
    ensures word.With(r).Is(r)
  {
  }

  lemma WriteReceiptFaithful(c: Codec, b: Books, r: Receipt, s: SaveScript, word: Word)
    requires c.Sound() && Faithful(c, b, word) && r.txid in b.markers && word.Is(r)
    ensures Faithful(c, WriteReceipt(c, b, r, s).0, word) && WriteReceipt(c, b, r, s).0.anchors == b.anchors
  {
    hide Word.Is;
    AppendCutFaithful(c, b, r, if s.append.Wrote? then Untouched else s.append.reach, word);
    AppendFaithful(c, b, r, |c.encode(r)| + 1, true, word);
  }

  lemma PowerLossFaithful(c: Codec, b: Books, keep: nat, tail: Bytes, back: set<Txid>, word: Word)
    requires Faithful(c, b, word) && keep <= |b.file| && NEWLINE !in tail
    ensures Faithful(c, PowerLoss(b, keep, tail, back), word)
  {
    TailAddsNone(b.file[..keep], tail);
    LinesOfPrefix(b.file, keep);
    var a := Lines(b.file[..keep]);
    assert Lines(b.file) == a + Lines(b.file)[|a|..];
    ParsedConcat(c, a, Lines(b.file)[|a|..]);
  }

  // --- sums --------------------------------------------------------------------------------------

  ghost function SumOver(keys: set<Txid>, f: map<Txid, nat>): nat
    requires keys <= f.Keys
  {
    if keys == {} then 0
    else
      var t :| t in keys;
      f[t] + SumOver(keys - {t}, f)
  }

  lemma {:induction false} SumAdds(keys: set<Txid>, t: Txid, f: map<Txid, nat>)
    requires keys <= f.Keys && t in f && t !in keys
    ensures SumOver(keys + {t}, f) == SumOver(keys, f) + f[t]
    decreases |keys|
  {
    var all := keys + {t};
    var u :| u in all && SumOver(all, f) == f[u] + SumOver(all - {u}, f);
    if u == t {
      assert all - {u} == keys;
    } else {
      assert all - {u} == (keys - {u}) + {t};
      SumAdds(keys - {u}, t, f);
      SumAdds(keys - {u}, u, f);
      assert (keys - {u}) + {u} == keys;
    }
  }

  lemma {:induction false} SumAgrees(keys: set<Txid>, f: map<Txid, nat>, g: map<Txid, nat>)
    requires keys <= f.Keys && keys <= g.Keys && forall t :: t in keys ==> f[t] == g[t]
    ensures SumOver(keys, f) == SumOver(keys, g)
    decreases |keys|
  {
    if keys != {} {
      var t :| t in keys;
      SumAgrees(keys - {t}, f, g);
      SumAdds(keys - {t}, t, f);
      SumAdds(keys - {t}, t, g);
      assert (keys - {t}) + {t} == keys;
    }
  }

  lemma {:induction false} SumSplits(a: set<Txid>, b: set<Txid>, f: map<Txid, nat>)
    requires a + b <= f.Keys && a !! b
    ensures SumOver(a + b, f) == SumOver(a, f) + SumOver(b, f)
    decreases |b|
  {
    if b == {} {
      assert a + b == a;
    } else {
      var t :| t in b;
      SumSplits(a, b - {t}, f);
      assert (a + (b - {t})) + {t} == a + b && (b - {t}) + {t} == b;
      SumAdds(a + (b - {t}), t, f);
      SumAdds(b - {t}, t, f);
    }
  }

  function Charged(receipts: seq<Receipt>): nat {
    if receipts == [] then 0 else Charged(receipts[..|receipts| - 1]) + receipts[|receipts| - 1].records
  }

  function TxidSet(receipts: seq<Receipt>): set<Txid> {
    set r | r in receipts :: r.txid
  }

  lemma {:induction false} ChargedIsSum(receipts: seq<Receipt>, sent: map<Txid, nat>)
    requires forall i, j :: 0 <= i < j < |receipts| ==> receipts[i].txid != receipts[j].txid
    requires forall r :: r in receipts ==> r.txid in sent && r.records == sent[r.txid]
    ensures TxidSet(receipts) <= sent.Keys && Charged(receipts) == SumOver(TxidSet(receipts), sent)
    decreases |receipts|
  {
    if receipts == [] {
      assert TxidSet(receipts) == {};
    } else {
      var front, last := receipts[..|receipts| - 1], receipts[|receipts| - 1];
      ChargedIsSum(front, sent);
      assert receipts == front + [last];
      assert TxidSet(receipts) == TxidSet(front) + {last.txid};
      assert last.txid !in TxidSet(front);
      SumAdds(TxidSet(front), last.txid, sent);
    }
  }

  /** Saved, not yet on file: its marker owes it. */
  ghost function OwedTxids(c: Codec, b: Books): set<Txid> {
    set t | t in b.markers && t in b.anchors && t !in Txids(c, b.file)
  }

  ghost function StillOwed(c: Codec, b: Books): nat {
    SumOver(OwedTxids(c, b), map t | t in b.markers :: b.markers[t].records)
  }

  /** On file and owed together are the saved anchors, each once. */
  lemma FileAndOwedAreSaved(c: Codec, b: Books, word: Word)
    requires Coherent(c, b) && Faithful(c, b, word) && b.anchors <= word.sent.Keys
    ensures Charged(OnFile(c, b.file)) + StillOwed(c, b) == SumOver(b.anchors, word.sent)
  {
    var sent := word.sent;
    var receipts := OnFile(c, b.file);
    ParsedNames(c, Lines(b.file));
    ChargedIsSum(receipts, sent);
    var filed, owed := TxidSet(receipts), OwedTxids(c, b);
    SumAgrees(owed, map t | t in b.markers :: b.markers[t].records, sent);
    FiledOrOwed(c, b);
    SumSplits(filed, owed, sent);
  }

  lemma FiledOrOwed(c: Codec, b: Books)
    requires Coherent(c, b)
    ensures TxidSet(OnFile(c, b.file)) + OwedTxids(c, b) == b.anchors
    ensures TxidSet(OnFile(c, b.file)) !! OwedTxids(c, b)
  {
    var receipts, names := OnFile(c, b.file), Txids(c, b.file);
    ParsedNames(c, Lines(b.file));
    TxidsOfPrefix(c, b.file, b.synced);
    forall t ensures t in TxidSet(receipts) <==> t in names {
      if t in names {
        var i :| 0 <= i < |names| && names[i] == t;
        assert receipts[i].txid == t;
      }
    }
  }
}
