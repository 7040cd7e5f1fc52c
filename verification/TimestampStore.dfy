/**
 * The timestamp store (otsserver/calendar.py, class LevelDbCalendar: add_timestamps, __add_timestamp, __put_timestamp).
 * Nodes are stored by message, each with its attestations and the operations leading on from it; trees are merged
 * into one write batch over a cache of what the batch already holds.
 */
module TimestampStore {
  import opened Octets
  import opened Wrappers
  import opened OtsFormat

  type Att = Bytes

  /** A stored timestamp, non-recursively. */
  datatype Node = Node(atts: set<Att>, ops: set<Op>)

  datatype Stamp = Stamp(msg: Bytes, atts: set<Att>, children: seq<Child>)
  datatype Child = Child(op: Op, stamp: Stamp)

  type View = map<Bytes, Node>

  // --- trees -------------------------------------------------------------------------------------

  /** A message in a tree. */
  ghost predicate Mentions(t: Stamp, m: Bytes) {
    t.msg == m || exists i :: 0 <= i < |t.children| && Mentions(t.children[i].stamp, m)
  }

  /**
   * Every child is its operation's result, and no message is its own descendant, as sha256 and growing messages make
   * sure.
   */
  ghost predicate TreeOk(h: HashFn, t: Stamp) {
    forall i :: 0 <= i < |t.children| ==>
      var child := t.children[i];
      child.stamp.msg == Apply(h, child.op, t.msg) && !Mentions(child.stamp, t.msg) && TreeOk(h, child.stamp)
  }

  /** What a store or a tree can say: a message is there, an attestation of it, an operation on it. */
  datatype Fact = Present(msg: Bytes) | Attested(msg: Bytes, att: Att) | Leads(msg: Bytes, op: Op)

  ghost predicate Says(view: View, f: Fact) {
    f.msg in view &&
    match f
    case Present(_) => true
    case Attested(m, att) => att in view[m].atts
    case Leads(m, op) => op in view[m].ops
  }

  /** What the root of a tree says of itself. */
  ghost predicate SaysRoot(t: Stamp, f: Fact) {
    f.msg == t.msg &&
    match f
    case Present(_) => true
    case Attested(_, att) => att in t.atts
    case Leads(_, op) => exists i :: 0 <= i < |t.children| && t.children[i].op == op
  }

  ghost predicate Holds(t: Stamp, f: Fact) {
    SaysRoot(t, f) || exists i :: 0 <= i < |t.children| && Holds(t.children[i].stamp, f)
  }

  /** Every stored operation leads to a stored message. */
  ghost predicate Closed(h: HashFn, view: View) {
    forall m, op :: m in view && op in view[m].ops ==> Apply(h, op, m) in view
  }

  /** A tree stored whole, as reading its root back recursively would meet it. */
  ghost predicate StoredWhole(view: View, t: Stamp) {
    && t.msg in view && t.atts <= view[t.msg].atts
    && forall i :: 0 <= i < |t.children| ==>
        t.children[i].op in view[t.msg].ops && StoredWhole(view, t.children[i].stamp)
  }

  // --- the two tests of __add_timestamp ----------------------------------------------------------

  function Empty(t: Stamp): bool {
    t.atts == {} && t.children == []
  }

  function OpsOf(t: Stamp, n: nat): set<Op>
    requires n <= |t.children|
  {
    set i | 0 <= i < n :: t.children[i].op
  }

  /**
   * A stored node, whose children are read as empty, equals the tree's root: same attestations, same operations,
   * nothing below.
   */
  predicate SameStamp(existing: Node, t: Stamp) {
    && existing.atts == t.atts && existing.ops == OpsOf(t, |t.children|)
    && forall i :: 0 <= i < |t.children| ==> Empty(t.children[i].stamp)
  }

  /** Returning early on equality loses nothing: by closure even the empty children are stored. */
  lemma NothingToAdd(h: HashFn, view: View, t: Stamp, f: Fact)
    requires Closed(h, view) && TreeOk(h, t) && t.msg in view && SameStamp(view[t.msg], t) && Holds(t, f)
    ensures Says(view, f)
  {
    hide Apply;
    if SaysRoot(t, f) {
      if f.Leads? {
        var i :| 0 <= i < |t.children| && t.children[i].op == f.op;
        assert t.children[i].op in OpsOf(t, |t.children|);
      }
    } else {
      var i :| 0 <= i < |t.children| && Holds(t.children[i].stamp, f);
      var child := t.children[i];
      assert child.op in OpsOf(t, |t.children|);
      assert Empty(child.stamp);
      assert SaysRoot(child.stamp, f);
      assert Apply(h, child.op, t.msg) in view;
    }
  }

  // --- the store ---------------------------------------------------------------------------------

  /** One of the first n children says it. */
  ghost predicate ChildHolds(t: Stamp, n: nat, f: Fact)
    requires n <= |t.children|
  {
    exists i :: 0 <= i < n && Holds(t.children[i].stamp, f)
  }

  /** After: exactly what was said before and what the tree says. */
  ghost predicate Merged(before: View, t: Stamp, after: View) {
    forall f :: Says(after, f) <==> Says(before, f) || Holds(t, f)
  }

  ghost predicate MergedChildren(before: View, t: Stamp, n: nat, after: View)
    requires n <= |t.children|
  {
    forall f :: Says(after, f) <==> Says(before, f) || ChildHolds(t, n, f)
  }

  /** The cache is the batch, except at the messages whose merging is still open. */
  ghost predicate CacheIsBatch(cache: View, batch: View, open: set<Bytes>) {
    && (forall m :: m in batch ==> m in cache)
    && forall m :: m in cache && m !in open ==> m in batch && cache[m] == batch[m]
  }

  ghost predicate Free(t: Stamp, open: set<Bytes>) {
    forall m :: m in open ==> !Mentions(t, m)
  }

  class Store {
    const h: HashFn
    var db: View
    var watermark: Option<nat>
    var batch: View
    var cache: View

    constructor (h: HashFn)
      ensures this.h == h && db == map[] && watermark == None
    {
      this.h := h;
      db, watermark, batch, cache := map[], None, map[], map[];
    }

    /** What the database would hold were the batch written now. */
    function Pending(): View
      reads this
    {
      db + batch
    }

    /** __add_timestamp: one tree merged into the batch, its descendants before it. */
    method AddTimestamp(t: Stamp, ghost open: set<Bytes>)
      requires Closed(h, Pending()) && TreeOk(h, t) && CacheIsBatch(cache, batch, open) && Free(t, open)
      modifies this`batch, this`cache
      ensures Merged(old(Pending()), t, Pending()) && Closed(h, Pending()) && CacheIsBatch(cache, batch, open)
      decreases t
    {
      hide Closed, TreeOk, Merged, MergedChildren, Free, Holds, Apply, OpsOf, SameStamp, CacheIsBatch;
      ghost var before := Pending();
      NotOpen(t, open);
      CacheAgrees(cache, batch, open, t.msg);
      Reopened(cache, batch, open, t.msg);
      var existing := Node({}, {});
      var cached := t.msg in cache;
      if cached || t.msg in db {
        existing := if cached then cache[t.msg] else db[t.msg];
        assert existing == before[t.msg];
        if SameStamp(existing, t) {
          AllThere(h, before, t);
          return;
        }
      }
      assert existing == StoredAt(before, t.msg);
      ghost var start := existing;
      Touched(cache, batch, open + {t.msg}, t.msg, existing.(atts := existing.atts + t.atts));
      existing := existing.(atts := existing.atts + t.atts);
      if cached { cache := cache[t.msg := existing]; }
      assert OpsOf(t, 0) == {} by { NoOps(t); }
      var i := 0;
      NoneMerged(before, t);
      while i < |t.children|
        invariant 0 <= i <= |t.children|
        invariant existing == Node(start.atts + t.atts, start.ops + OpsOf(t, i))
        invariant MergedChildren(before, t, i, Pending()) && Closed(h, Pending())
        invariant CacheIsBatch(cache, batch, open + {t.msg})
      {
        var child := t.children[i];
        existing := existing.(ops := existing.ops + {child.op});
        Touched(cache, batch, open + {t.msg}, t.msg, existing);
        if cached { cache := cache[t.msg := existing]; }
        ghost var middle := Pending();
        ChildFree(h, t, i, open);
        AddTimestamp(child.stamp, open + {t.msg});
        OneMoreChild(before, t, i, middle, Pending());
        OneMoreOp(t, i);
        i := i + 1;
      }
      ghost var below := Pending();
      PutBoth(cache, batch, open, t.msg, existing);
      PutOver(db, batch, t.msg, existing);
      batch := batch[t.msg := existing];
      cache := cache[t.msg := existing];
      RootPut(h, before, t, below, start);
    }

    /** add_timestamps: the batch of every tree, and the watermark, land together. */
    method AddTimestamps(trees: seq<Stamp>, mark: Option<nat>)
      requires Closed(h, db) && forall k :: 0 <= k < |trees| ==> TreeOk(h, trees[k])
      modifies this
      ensures forall f :: Says(db, f) <==> Says(old(db), f) || exists k :: 0 <= k < |trees| && Holds(trees[k], f)
      ensures Closed(h, db)
      ensures forall k :: 0 <= k < |trees| ==> StoredWhole(db, trees[k])
      ensures forall m :: m in db <==> m in old(db) || exists k :: 0 <= k < |trees| && Mentions(trees[k], m)
      ensures watermark == if mark.Some? then mark else old(watermark)
    {
      hide Closed, TreeOk, Merged, Holds, Apply, StoredWhole;
      ghost var before := db;
      batch, cache := map[], map[];
      assert Pending() == db;
      var k := 0;
      while k < |trees|
        invariant 0 <= k <= |trees| && db == before && watermark == old(watermark)
        invariant Closed(h, Pending()) && CacheIsBatch(cache, batch, {})
        invariant forall f :: Says(Pending(), f) <==> Says(before, f) || exists j :: 0 <= j < k && Holds(trees[j], f)
      {
        NoOpen(trees[k]);
        ghost var middle := Pending();
        AddTimestamp(trees[k], {});
        Unfolded(middle, trees[k], Pending());
        k := k + 1;
      }
      db := db + batch;
      if mark.Some? { watermark := mark; }
      forall j | 0 <= j < |trees| ensures StoredWhole(db, trees[j]) {
        assert forall f :: Holds(trees[j], f) ==> Says(db, f);
        HeldIsStored(db, trees[j]);
      }
      forall m ensures m in db <==> m in before || exists j :: 0 <= j < |trees| && Mentions(trees[j], m) {
        PresentInSome(trees, m);
        assert Says(db, Present(m))
          <==> Says(before, Present(m)) || exists j :: 0 <= j < |trees| && Holds(trees[j], Present(m));
      }
    }
  }

  lemma CacheAgrees(cache: View, batch: View, open: set<Bytes>, m: Bytes)
    requires CacheIsBatch(cache, batch, open) && m !in open
    ensures m in cache <==> m in batch
    ensures m in cache ==> cache[m] == batch[m]
  {
  }

  lemma Reopened(cache: View, batch: View, open: set<Bytes>, m: Bytes)
    requires CacheIsBatch(cache, batch, open)
    ensures CacheIsBatch(cache, batch, open + {m})
  {
  }

  /** An open message's cached node may change before it is put. */
  lemma Touched(cache: View, batch: View, open: set<Bytes>, m: Bytes, node: Node)
    requires CacheIsBatch(cache, batch, open) && m in open
    ensures CacheIsBatch(cache[m := node], batch, open)
  {
  }

  lemma PutBoth(cache: View, batch: View, open: set<Bytes>, m: Bytes, node: Node)
    requires CacheIsBatch(cache, batch, open + {m})
    ensures CacheIsBatch(cache[m := node], batch[m := node], open)
  {
  }

  lemma PutOver(db: View, batch: View, m: Bytes, node: Node)
    ensures db + batch[m := node] == (db + batch)[m := node]
  {
  }

  lemma NoOps(t: Stamp)
    ensures OpsOf(t, 0) == {}
  {
  }

  lemma OneMoreOp(t: Stamp, i: nat)
    requires i < |t.children|
    ensures OpsOf(t, i + 1) == OpsOf(t, i) + {t.children[i].op}
  {
  }

  function StoredAt(view: View, m: Bytes): Node {
    if m in view then view[m] else Node({}, {})
  }

  lemma NotOpen(t: Stamp, open: set<Bytes>)
    requires Free(t, open)
    ensures t.msg !in open
  {
    assert Mentions(t, t.msg);
  }

  lemma NoOpen(t: Stamp)
    ensures Free(t, {})
  {
  }

  lemma Unfolded(before: View, t: Stamp, after: View)
    requires Merged(before, t, after)
    ensures forall f :: Says(after, f) <==> Says(before, f) || Holds(t, f)
  {
    hide Holds;
  }

  lemma AllThere(h: HashFn, view: View, t: Stamp)
    requires Closed(h, view) && TreeOk(h, t) && t.msg in view && SameStamp(view[t.msg], t)
    ensures Merged(view, t, view)
  {
    hide Closed, TreeOk, Holds, SameStamp, Says;
    forall f | Holds(t, f) ensures Says(view, f) {
      NothingToAdd(h, view, t, f);
    }
  }

  lemma NoneMerged(before: View, t: Stamp)
    ensures MergedChildren(before, t, 0, before)
  {
  }

  lemma ChildFree(h: HashFn, t: Stamp, i: nat, open: set<Bytes>)
    requires TreeOk(h, t) && i < |t.children| && Free(t, open)
    ensures TreeOk(h, t.children[i].stamp) && Free(t.children[i].stamp, open + {t.msg})
  {
    hide Apply;
    forall m | m in open + {t.msg} ensures !Mentions(t.children[i].stamp, m) {
      if m in open { assert !Mentions(t, m); }
    }
  }

  lemma OneMoreChild(before: View, t: Stamp, i: nat, middle: View, after: View)
    requires i < |t.children| && MergedChildren(before, t, i, middle) && Merged(middle, t.children[i].stamp, after)
    ensures MergedChildren(before, t, i + 1, after)
  {
    hide Holds, Says;
  }

  /** What the children said is not about their root. */
  lemma RootUntouched(h: HashFn, before: View, t: Stamp, below: View, f: Fact)
    requires TreeOk(h, t) && MergedChildren(before, t, |t.children|, below) && f.msg == t.msg
    ensures Says(below, f) <==> Says(before, f)
  {
    hide Says, Apply;
    forall i | 0 <= i < |t.children| ensures !Holds(t.children[i].stamp, f) {
      if Holds(t.children[i].stamp, f) { HeldIsMentioned(t.children[i].stamp, f); }
    }
  }

  lemma {:induction false} HeldIsMentioned(t: Stamp, f: Fact)
    requires Holds(t, f)
    ensures Mentions(t, f.msg)
  {
    if !SaysRoot(t, f) {
      var i :| 0 <= i < |t.children| && Holds(t.children[i].stamp, f);
      HeldIsMentioned(t.children[i].stamp, f);
    }
  }

  /** Writing the root after its children completes the merge and keeps the store closed. */
  lemma RootPut(h: HashFn, before: View, t: Stamp, below: View, start: Node)
    requires TreeOk(h, t) && MergedChildren(before, t, |t.children|, below) && Closed(h, below)
    requires start == StoredAt(before, t.msg)
    ensures var root := Node(start.atts + t.atts, start.ops + OpsOf(t, |t.children|));
            Merged(before, t, below[t.msg := root]) && Closed(h, below[t.msg := root])
  {
    hide Apply, TreeOk, Closed;
    var root := Node(start.atts + t.atts, start.ops + OpsOf(t, |t.children|));
    var after := below[t.msg := root];
    forall f ensures Says(after, f) <==> Says(before, f) || Holds(t, f) {
      if f.msg == t.msg {
        RootUntouched(h, before, t, below, f);
        NoChildSays(h, t, f);
        RootSays(before, t, start, f);
      } else {
        assert Says(after, f) <==> Says(below, f);
      }
    }
    PutCloses(h, before, t, below, start);
  }

  lemma NoChildSays(h: HashFn, t: Stamp, f: Fact)
    requires TreeOk(h, t) && f.msg == t.msg
    ensures Holds(t, f) <==> SaysRoot(t, f)
  {
    hide Apply;
    forall i | 0 <= i < |t.children| ensures !Holds(t.children[i].stamp, f) {
      if Holds(t.children[i].stamp, f) { HeldIsMentioned(t.children[i].stamp, f); }
    }
  }

  lemma RootSays(before: View, t: Stamp, start: Node, f: Fact)
    requires f.msg == t.msg && start == StoredAt(before, t.msg)
    ensures var root := Node(start.atts + t.atts, start.ops + OpsOf(t, |t.children|));
            Says(map[t.msg := root], f) <==> Says(before, f) || SaysRoot(t, f)
  {
    if f.Leads? {
      assert f.op in OpsOf(t, |t.children|) <==> exists i :: 0 <= i < |t.children| && t.children[i].op == f.op;
    }
  }

  lemma PutCloses(h: HashFn, before: View, t: Stamp, below: View, start: Node)
    requires TreeOk(h, t) && MergedChildren(before, t, |t.children|, below) && Closed(h, below)
    requires start == StoredAt(before, t.msg)
    ensures Closed(h, below[t.msg := Node(start.atts + t.atts, start.ops + OpsOf(t, |t.children|))])
  {
    hide Apply;
    var after := below[t.msg := Node(start.atts + t.atts, start.ops + OpsOf(t, |t.children|))];
    forall m, op | m in after && op in after[m].ops ensures Apply(h, op, m) in after {
      if m == t.msg {
        if op in start.ops {
          assert Says(before, Leads(m, op));
          assert Says(below, Leads(m, op));
        } else {
          var i :| 0 <= i < |t.children| && t.children[i].op == op;
          var child := t.children[i];
          assert SaysRoot(child.stamp, Present(child.stamp.msg));
          assert Holds(child.stamp, Present(child.stamp.msg));
          assert ChildHolds(t, |t.children|, Present(child.stamp.msg));
          assert Says(below, Present(child.stamp.msg));
        }
      }
    }
  }

  /** The messages a tree puts into a store are those it passes through, a transaction's id among them. */
  lemma {:induction false} PresentInTree(t: Stamp, m: Bytes)
    ensures Holds(t, Present(m)) <==> Mentions(t, m)
  {
    forall i | 0 <= i < |t.children|
      ensures Holds(t.children[i].stamp, Present(m)) <==> Mentions(t.children[i].stamp, m) {
      PresentInTree(t.children[i].stamp, m);
    }
  }

  lemma PresentInSome(trees: seq<Stamp>, m: Bytes)
    ensures (exists k :: 0 <= k < |trees| && Holds(trees[k], Present(m)))
       <==> (exists k :: 0 <= k < |trees| && Mentions(trees[k], m))
  {
    hide Holds, Mentions;
    forall k | 0 <= k < |trees| ensures Holds(trees[k], Present(m)) <==> Mentions(trees[k], m) {
      PresentInTree(trees[k], m);
    }
  }

  /** A store that says all a tree says holds the tree whole. */
  lemma {:induction false} HeldIsStored(view: View, t: Stamp)
    requires forall f :: Holds(t, f) ==> Says(view, f)
    ensures StoredWhole(view, t)
  {
    assert SaysRoot(t, Present(t.msg)) && Holds(t, Present(t.msg));
    forall a | a in t.atts ensures a in view[t.msg].atts {
      assert SaysRoot(t, Attested(t.msg, a)) && Holds(t, Attested(t.msg, a));
    }
    forall i | 0 <= i < |t.children|
      ensures t.children[i].op in view[t.msg].ops && StoredWhole(view, t.children[i].stamp) {
      var child := t.children[i];
      assert SaysRoot(t, Leads(t.msg, child.op)) && Holds(t, Leads(t.msg, child.op));
      forall f | Holds(child.stamp, f) ensures Says(view, f) {
        assert Holds(t, f);
      }
      HeldIsStored(view, child.stamp);
    }
  }

  /** Two stores that say the same are the same: the merge determines the store. */
  lemma SaidIsStored(a: View, b: View)
    requires forall f :: Says(a, f) <==> Says(b, f)
    ensures a == b
  {
    forall m ensures m in a <==> m in b {
      assert Says(a, Present(m)) <==> Says(b, Present(m));
    }
    forall m | m in a ensures a[m] == b[m] {
      assert forall att :: att in a[m].atts <==> Says(a, Attested(m, att));
      assert forall att :: att in b[m].atts <==> Says(b, Attested(m, att));
      assert forall op :: op in a[m].ops <==> Says(a, Leads(m, op));
      assert forall op :: op in b[m].ops <==> Says(b, Leads(m, op));
      assert a[m].atts == b[m].atts && a[m].ops == b[m].ops;
    }
  }
}
