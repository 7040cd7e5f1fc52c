/**
 * What the database answers when asked whether it holds something (otsserver/calendar.py: __contains__;
 * otsserver/stamper.py: anchor_probe): the stamper's model remembers the commitments and the anchors saved, the
 * timestamp store every message on every tree saved. Here is exactly when the two give one answer.
 */
module StoreProbe {
  import opened Octets
  import opened Wrappers
  import opened ReceiptFile
  import opened Receipts
  import opened Stamping
  import TimestampStore

  /** Of the keys asked about, the store holds exactly the remembered ones. */
  ghost predicate Agrees(view: TimestampStore.View, remembered: set<Bytes>, asked: set<Bytes>) {
    forall key :: key in asked ==> (key in view <==> key in remembered)
  }

  ghost predicate Passed(trees: seq<TimestampStore.Stamp>, key: Bytes) {
    exists k :: 0 <= k < |trees| && TimestampStore.Mentions(trees[k], key)
  }

  /** What add_timestamps leaves of the keys. */
  ghost predicate Added(view: TimestampStore.View, trees: seq<TimestampStore.Stamp>, after: TimestampStore.View) {
    forall key :: key in after <==> key in view || Passed(trees, key)
  }

  lemma AgreesIff(view: TimestampStore.View, trees: seq<TimestampStore.Stamp>, after: TimestampStore.View,
                  remembered: set<Bytes>, more: set<Bytes>, asked: set<Bytes>)
    requires Agrees(view, remembered, asked) && Added(view, trees, after)
    requires forall key :: key in more ==> Passed(trees, key)
    ensures Agrees(after, remembered + more, asked)
       <==> forall key :: key in asked && Passed(trees, key) ==> key in remembered || key in more
  {
    hide Passed;
  }

  /**
   * A save of one tree per commitment answers about commitments as `Landed` does exactly when no other entry asked
   * about, not stored yet, is a message on one of the trees.
   */
  lemma LandedAgreesIff(view: TimestampStore.View, trees: seq<TimestampStore.Stamp>, after: TimestampStore.View,
                        st: Store, tree: Tree, watermark: nat, books: Books, asked: set<Commitment>)
    requires Agrees(view, st.db, asked) && Added(view, trees, after)
    requires |trees| == |tree.commitments| && forall k :: 0 <= k < |trees| ==> trees[k].msg == tree.commitments[k]
    ensures Agrees(after, Landed(st, tree, watermark, books).db, asked)
       <==> forall c :: c in asked && Passed(trees, c) ==> c in st.db || c in tree.commitments
  {
    var more := set c | c in tree.commitments;
    forall c | c in more ensures Passed(trees, c) {
      var k :| 0 <= k < |tree.commitments| && tree.commitments[k] == c;
      assert TimestampStore.Mentions(trees[k], c);
    }
    AgreesIff(view, trees, after, st.db, more, asked);
  }

  /** And about anchors, when every tree passes through its transaction, exactly when none passes through another's. */
  lemma ProbeAgreesIff(view: TimestampStore.View, trees: seq<TimestampStore.Stamp>, after: TimestampStore.View,
                       anchors: set<Txid>, txid: Txid, asked: set<Txid>)
    requires Agrees(view, anchors, asked) && Added(view, trees, after) && Passed(trees, txid)
    ensures Agrees(after, anchors + {txid}, asked)
       <==> forall t :: t in asked && Passed(trees, t) ==> t in anchors || t == txid
  {
    AgreesIff(view, trees, after, anchors, {txid}, asked);
  }

  /** The store's own method does it. */
  method Save(store: TimestampStore.Store, trees: seq<TimestampStore.Stamp>, mark: nat)
    requires TimestampStore.Closed(store.h, store.db)
    requires forall k :: 0 <= k < |trees| ==> TimestampStore.TreeOk(store.h, trees[k])
    modifies store
    ensures Added(old(store.db), trees, store.db) && store.watermark == Some(mark)
  {
    store.AddTimestamps(trees, Some(mark));
  }
}
