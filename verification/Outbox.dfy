/**
 * The watcher's record and outbox (ops/watch.py: enqueue and the record, replay and delivery of _run_locked). A run's
 * transition and its queue are recorded in one write of the state file, copied to the outbox file, and only then is
 * the record let go. Every write may work, raise or be the process's last, before or after its effect. A push service
 * is configured, and both files are read as they were written.
 */
module Outbox {
  import opened Octets
  import opened Wrappers
  import opened Faults

  const OUTBOX_MAX := 200

  type WatchState = Bytes

  /** An alert, or the notice that stands for alerts dropped over the cap. */
  datatype Message =
    | Alert(text: string, queued: string)
    | Cap(dropped: nat, first: string, last: string, queued: string)

  type Queue = seq<Message>

  /** Cap notices stand only at the head. */
  ghost predicate QueueOk(q: Queue) {
    forall i :: 0 < i < |q| ==> q[i].Alert?
  }

  ghost predicate AllAlerts(q: Queue) {
    forall m :: m in q ==> m.Alert?
  }

  /** A queue without the cap notice at its head. */
  function Unheaded(all: Queue): Queue
    requires all != []
  {
    if all[0].Cap? then all[1..] else all
  }

  /** The notice for `cut` alerts more, taking over what an earlier one counted and when it began. */
  function Notice(all: Queue, rest: Queue, cut: nat, stamp: string): (r: Message)
    requires all != [] && 0 < cut <= |rest|
    ensures r.Cap? && r.dropped == cut + if all[0].Cap? then all[0].dropped else 0
  {
    var before := if all[0].Cap? then all[0].dropped else 0;
    var first := if all[0].Cap? && all[0].first != "" then all[0].first else rest[0].queued;
    Cap(before + cut, first, rest[cut - 1].queued, stamp)
  }

  /** The bound: over the cap the oldest go, and the notice at the head counts them. */
  function Bounded(all: Queue, stamp: string): Queue {
    if |all| <= OUTBOX_MAX then all
    else
      var rest := Unheaded(all);
      var cut := |rest| - (OUTBOX_MAX - 1);
      [Notice(all, rest, cut, stamp)] + rest[cut..]
  }

  /** enqueue: this run's alerts at the end, then the bound. */
  function Enqueue(queue: Queue, news: Queue, stamp: string): Queue {
    Bounded(queue + news, stamp)
  }

  // --- what a queue accounts for -----------------------------------------------------------------

  function Alerts(q: Queue): Queue {
    if q == [] then []
    else if q[0].Alert? then [q[0]] + Alerts(q[1..])
    else Alerts(q[1..])
  }

  function Dropped(q: Queue): nat {
    if q == [] then 0
    else if q[0].Cap? then q[0].dropped + Dropped(q[1..])
    else Dropped(q[1..])
  }

  lemma {:induction false} AlertsAdd(a: Queue, b: Queue)
    ensures Alerts(a + b) == Alerts(a) + Alerts(b) && Dropped(a + b) == Dropped(a) + Dropped(b)
    decreases |a|
  {
    if a == [] {
      assert a + b == b;
    } else {
      assert (a + b)[1..] == a[1..] + b;
      AlertsAdd(a[1..], b);
    }
  }

  lemma {:induction false} OnlyAlerts(q: Queue)
    requires AllAlerts(q)
    ensures Alerts(q) == q && Dropped(q) == 0
    decreases |q|
  {
    if q != [] {
      assert forall m :: m in q[1..] ==> m in q;
      OnlyAlerts(q[1..]);
    }
  }

  /** A notice for the alerts just before the first `kept`: when the newest of them was queued, and when the oldest. */
  ghost predicate Dates(history: Queue, upTo: nat, notice: Message) {
    && notice.Cap? && 0 < notice.dropped <= upTo <= |history| && notice.last == history[upTo - 1].queued
    && var oldest := history[upTo - notice.dropped].queued;
       oldest != "" ==> notice.first == oldest
  }

  ghost predicate HeadDates(history: Queue, queue: Queue) {
    queue != [] && queue[0].Cap? ==>
      |Alerts(queue)| <= |history| && Dates(history, |history| - |Alerts(queue)|, queue[0])
  }

  /**
   * The alerts queued are the newest recorded, in order; every alert recorded is queued, was delivered, or is in the
   * count of a cap notice that is queued or was delivered; and a notice queued is dated by the alerts it stands for.
   */
  ghost predicate Accounts(history: Queue, queue: Queue, delivered: Queue) {
    && QueueOk(queue) && AllAlerts(history)
    && |Alerts(queue)| <= |history| && Alerts(queue) == history[|history| - |Alerts(queue)|..]
    && |history| == |Alerts(queue)| + |Alerts(delivered)| + Dropped(queue) + Dropped(delivered)
    && HeadDates(history, queue)
  }

  /** A queue is its cap notice, if it has one, and its alerts. */
  lemma QueueIs(q: Queue)
    requires QueueOk(q)
    ensures q == (if q != [] && q[0].Cap? then [q[0]] else []) + Alerts(q)
    ensures Dropped(q) == if q != [] && q[0].Cap? then q[0].dropped else 0
  {
    if q != [] {
      if q[0].Cap? { OnlyAlerts(q[1..]); } else { OnlyAlerts(q); }
    }
  }

  lemma CapThen(c: Message, alerts: Queue)
    requires c.Cap? && AllAlerts(alerts)
    ensures QueueOk([c] + alerts) && Alerts([c] + alerts) == alerts && Dropped([c] + alerts) == c.dropped
  {
    OnlyAlerts(alerts);
    assert ([c] + alerts)[1..] == alerts;
  }

  /** What the bound drops it counts. */
  lemma BoundedIs(all: Queue, stamp: string)
    requires QueueOk(all)
    ensures var q, alerts := Bounded(all, stamp), Alerts(all);
            && QueueOk(q) && (if |all| <= 200 then q == all else |q| == 200)
            && |Alerts(q)| <= |alerts| && Alerts(q) == alerts[|alerts| - |Alerts(q)|..]
            && |alerts| + Dropped(all) == |Alerts(q)| + Dropped(q)
  {
    hide Alerts, Dropped, QueueOk, Bounded;
    QueueIs(all);
    if |all| <= OUTBOX_MAX {
      assert Bounded(all, stamp) == all by { WithinBound(all, stamp); }
    } else {
      Uncapped(all, Alerts(all));
      AlertsAreAlerts(all);
      OverIs(all, Alerts(all), stamp);
    }
  }

  lemma OverIs(all: Queue, rest: Queue, stamp: string)
    requires |all| > OUTBOX_MAX && rest == Unheaded(all) && AllAlerts(rest)
    ensures var q, kept := Bounded(all, stamp), rest[|rest| - (OUTBOX_MAX - 1)..];
            && QueueOk(q) && |q| == OUTBOX_MAX && Alerts(q) == kept
            && Dropped(q) == |rest| - |kept| + if all[0].Cap? then all[0].dropped else 0
  {
    hide Alerts, Dropped, QueueOk, Bounded;
    var head := OverBound(all, rest, stamp);
    var kept := rest[|rest| - (OUTBOX_MAX - 1)..];
    assert forall m :: m in kept ==> m in rest;
    CapThen(head, kept);
  }

  lemma WithinBound(all: Queue, stamp: string)
    requires |all| <= OUTBOX_MAX
    ensures Bounded(all, stamp) == all
  {
  }

  lemma OverBound(all: Queue, rest: Queue, stamp: string) returns (head: Message)
    requires |all| > OUTBOX_MAX && rest == Unheaded(all)
    ensures var cut := |rest| - (OUTBOX_MAX - 1);
            && cut > 0 && Bounded(all, stamp) == [head] + rest[cut..] && head == Notice(all, rest, cut, stamp)
            && head.dropped == cut + if all[0].Cap? then all[0].dropped else 0
  {
    assert |rest| >= |all| - 1;
    hide Unheaded;
    head := Notice(all, rest, |rest| - (OUTBOX_MAX - 1), stamp);
  }

  lemma Uncapped(all: Queue, alerts: Queue)
    requires all != [] && all == (if all[0].Cap? then [all[0]] else []) + alerts
    ensures alerts == Unheaded(all)
  {
  }

  /**
   * A run's alerts enter the queue once and in order, whatever the cap drops is counted, and the queue stays within it.
   */
  lemma EnqueueAccounts(history: Queue, queue: Queue, delivered: Queue, news: Queue, stamp: string)
    requires Accounts(history, queue, delivered) && AllAlerts(news)
    ensures Accounts(history + news, Enqueue(queue, news, stamp), delivered)
    ensures |Enqueue(queue, news, stamp)| == if |queue| + |news| <= 200 then |queue| + |news| else 200
  {
    hide Alerts, Dropped, Bounded, HeadDates;
    var all := queue + news;
    AlertsAdd(queue, news);
    OnlyAlerts(news);
    assert QueueOk(all);
    BoundedIs(all, stamp);
    NewestOf(history, Alerts(queue), news, Alerts(Bounded(all, stamp)));
    EnqueueDates(history, queue, news, stamp);
  }

  /** A notice takes over the first date of the one before, and ends with the newest alert it drops. */
  lemma EnqueueDates(history: Queue, queue: Queue, news: Queue, stamp: string)
    requires QueueOk(queue) && AllAlerts(news) && HeadDates(history, queue)
    requires |Alerts(queue)| <= |history| && Alerts(queue) == history[|history| - |Alerts(queue)|..]
    ensures HeadDates(history + news, Enqueue(queue, news, stamp))
  {
    hide Alerts, Dropped, Bounded, Dates, AllAlerts;
    var all := queue + news;
    AlertsAdd(queue, news);
    OnlyAlerts(news);
    NewsNeverCaps(queue, news);
    if queue != [] && queue[0].Cap? { DatesKept(history, news, |history| - |Alerts(queue)|, queue[0]); }
    if |all| <= OUTBOX_MAX {
      WithinBound(all, stamp);
    } else {
      OverDates(history + news, all, stamp);
    }
  }

  lemma NewsNeverCaps(queue: Queue, news: Queue)
    requires AllAlerts(news) && QueueOk(queue)
    ensures QueueOk(queue + news)
    ensures queue + news != [] && (queue + news)[0].Cap? ==> queue != [] && queue[0] == (queue + news)[0]
  {
    assert forall i :: 0 <= i < |news| ==> news[i] in news;
  }

  lemma OverDates(history: Queue, all: Queue, stamp: string)
    requires |all| > OUTBOX_MAX && QueueOk(all) && HeadDates(history, all)
    requires |Alerts(all)| <= |history| && Alerts(all) == history[|history| - |Alerts(all)|..]
    ensures HeadDates(history, Bounded(all, stamp))
  {
    hide Alerts, Dropped, Bounded, Dates, AllAlerts, Notice;
    QueueIs(all);
    var rest := Alerts(all);
    Uncapped(all, rest);
    AlertsAreAlerts(all);
    OverIs(all, rest, stamp);
    var head := OverBound(all, rest, stamp);
    NoticeDates(history, all, rest, |rest| - (OUTBOX_MAX - 1), stamp);
  }

  lemma DatesKept(history: Queue, news: Queue, upTo: nat, notice: Message)
    requires Dates(history, upTo, notice)
    ensures Dates(history + news, upTo, notice)
  {
  }

  /** A notice dates the alerts it drops, and those of the notice it takes over, which end where it begins. */
  lemma NoticeDates(history: Queue, all: Queue, rest: Queue, cut: nat, stamp: string)
    requires all != [] && 0 < cut <= |rest| <= |history| && rest == history[|history| - |rest|..]
    requires all[0].Cap? ==> Dates(history, |history| - |rest|, all[0])
    ensures Dates(history, |history| - |rest| + cut, Notice(all, rest, cut, stamp))
  {
    assert rest[0] == history[|history| - |rest|] && rest[cut - 1] == history[|history| - |rest| + cut - 1];
  }

  /** The end of a history is the end of a longer one. */
  lemma NewestOf(history: Queue, queued: Queue, news: Queue, left: Queue)
    requires |queued| <= |history| && queued == history[|history| - |queued|..]
    requires |left| <= |queued + news| && left == (queued + news)[|queued + news| - |left|..]
    ensures left == (history + news)[|history + news| - |left|..]
  {
  }

  lemma {:induction false} AlertsAreAlerts(q: Queue)
    ensures AllAlerts(Alerts(q))
    decreases |q|
  {
    if q != [] { AlertsAreAlerts(q[1..]); }
  }

  /** Delivering the oldest moves them from the queue to what was delivered. */
  lemma DeliveryAccounts(history: Queue, queue: Queue, delivered: Queue, n: nat)
    requires Accounts(history, queue, delivered) && n <= |queue|
    ensures Accounts(history, queue[n..], delivered + queue[..n])
  {
    hide Alerts, Dropped;
    assert queue == queue[..n] + queue[n..];
    AlertsAdd(queue[..n], queue[n..]);
    AlertsAdd(delivered, queue[..n]);
  }

  // --- the two files -----------------------------------------------------------------------------

  class Watcher {
    const fate: nat -> Fate
    const reachable: nat -> bool // whether the push service takes a message, by send
    var writes: nat
    var sends: nat
    // state.json: the transition, and the queue while the outbox does not hold it
    var state: WatchState
    var owed: Option<Queue>
    // outbox.json
    var outbox: Queue
    // what the push service was given
    var sent: Queue
    // alerts ever recorded, and messages taken off the queue after delivery
    ghost var history: Queue
    ghost var delivered: Queue

    constructor (fate: nat -> Fate, reachable: nat -> bool, state: WatchState)
      ensures this.fate == fate && this.reachable == reachable && this.state == state
      ensures View() == [] == sent && Accounts(history, View(), delivered) && AllSent()
    {
      this.fate, this.reachable, this.state := fate, reachable, state;
      writes, sends, owed, outbox, sent, history, delivered := 0, 0, None, [], [], [], [];
    }

    /** The queue as the next run will find it: the record if it carries one, else the outbox. */
    function View(): Queue
      reads this
    {
      if owed.Some? then owed.value else outbox
    }

    ghost predicate AllSent()
      reads this
    {
      forall m :: m in delivered ==> m in sent
    }

    /** One write of the state file. */
    method Commit(st: WatchState, q: Option<Queue>) returns (end: End)
      modifies this`state, this`owed, this`writes
      ensures end == EndOf(fate(old(writes))) && writes == old(writes) + 1
      ensures if Lands(fate(old(writes))) then state == st && owed == q else state == old(state) && owed == old(owed)
    {
      var f := fate(writes);
      writes := writes + 1;
      if Lands(f) { state, owed := st, q; }
      return EndOf(f);
    }

    /** One write of the outbox file. */
    method WriteOutbox(q: Queue) returns (end: End)
      modifies this`outbox, this`writes
      ensures end == EndOf(fate(old(writes))) && writes == old(writes) + 1
      ensures outbox == if Lands(fate(old(writes))) then q else old(outbox)
    {
      var f := fate(writes);
      writes := writes + 1;
      if Lands(f) { outbox := q; }
      return EndOf(f);
    }

    /** Every write from `w` on works and every message from `s` on is taken. */
    ghost predicate AllWell(w: nat, s: nat) {
      (forall k :: k >= w ==> fate(k) == Works) && (forall k :: k >= s ==> reachable(k))
    }

    /**
     * Delivery from the outbox file, oldest first, each taken off once sent; `tried` may run ahead of what is on file.
     */
    method DeliverFromOutbox(prepared: Queue) returns (ghost taken: nat, ghost tried: nat)
      requires outbox == prepared
      modifies this`outbox, this`sent, this`writes, this`sends
      ensures taken <= tried <= |prepared| && outbox == prepared[taken..] && sent == old(sent) + prepared[..tried]
      ensures AllWell(old(writes), old(sends)) ==> taken == |prepared|
    {
      var queue := prepared;
      taken, tried := 0, 0;
      while queue != []
        invariant taken <= tried <= |prepared| && queue == prepared[tried..] && writes >= old(writes)
                  && sends >= old(sends)
        invariant AllWell(old(writes), old(sends)) ==> taken == tried
        invariant outbox == prepared[taken..] && sent == old(sent) + prepared[..tried]
        decreases |queue|
      {
        var ok := reachable(sends);
        sends := sends + 1;
        if !ok { break; }
        sent := sent + [queue[0]];
        queue := queue[1..];
        tried := tried + 1;
        ghost var landed := Lands(fate(writes));
        var end := WriteOutbox(queue);
        if landed { taken := tried; }
        if end == Stopped { return; }
      }
    }

    /** Every message goes out and every write of the record works, the last at least lands. */
    ghost predicate Drains(w: nat, s: nat, n: nat) {
      && n > 0 && (forall k :: s <= k < s + n ==> reachable(k)) && (forall k :: w <= k < w + n - 1 ==> fate(k) == Works)
      && Lands(fate(w + n - 1))
    }

    /** One message sent and the record written without it; `end` is how that write went. */
    method DeliverOne(queue: Queue) returns (ok: bool, end: End)
      requires queue != []
      modifies this`state, this`owed, this`sent, this`writes, this`sends
      ensures state == old(state) && ok == reachable(old(sends)) && sends == old(sends) + 1
      ensures !ok ==> sent == old(sent) && writes == old(writes) && owed == old(owed)
      ensures ok ==> sent == old(sent) + [queue[0]] && writes == old(writes) + 1 && end == EndOf(fate(old(writes)))
      ensures ok && Lands(fate(old(writes))) ==> owed == if |queue| == 1 then None else Some(queue[1..])
      ensures ok && !Lands(fate(old(writes))) ==> owed == old(owed)
    {
      ok, end := reachable(sends), Fine;
      sends := sends + 1;
      if !ok { return; }
      sent := sent + [queue[0]];
      var rest := queue[1..];
      end := Commit(state, if rest == [] then None else Some(rest));
    }

    /** Delivery from the record, which shrinks with each message and is let go when none is left. */
    method DeliverFromRecord(prepared: Queue) returns (ghost taken: nat, ghost tried: nat)
      requires owed == Some(prepared)
      modifies this`state, this`owed, this`sent, this`writes, this`sends
      ensures state == old(state) && taken <= tried <= |prepared| && sent == old(sent) + prepared[..tried]
      ensures owed == if Drains(old(writes), old(sends), |prepared|) then None else Some(prepared[taken..])
      ensures Drains(old(writes), old(sends), |prepared|) ==> tried == |prepared|
    {
      ghost var w, s, n := writes, sends, |prepared|;
      var queue := prepared;
      taken, tried := 0, 0;
      while queue != []
        invariant taken == tried <= n && queue == prepared[tried..] && state == old(state)
        invariant sent == old(sent) + prepared[..tried] && writes == w + tried && sends == s + tried
        invariant forall k :: s <= k < s + tried ==> reachable(k)
        invariant forall k :: w <= k < w + tried ==> fate(k) == Works
        invariant owed == if tried == n && n > 0 then None else Some(queue)
        decreases |queue|
      {
        var ok, end := DeliverOne(queue);
        if !ok { return; }
        assert prepared[..tried + 1] == prepared[..tried] + [queue[0]];
        tried := tried + 1;
        if Lands(fate(w + tried - 1)) { taken := tried; }
        if end != Fine { return; }
        queue := queue[1..];
      }
    }

    /** The recorded queue copied to the outbox and the record let go, then delivery; or delivery from the record. */
    method Deliver(prepared: Queue) returns (ghost stale: bool, ghost taken: nat, ghost tried: nat)
      requires owed == Some(prepared)
      modifies this`state, this`owed, this`outbox, this`sent, this`writes, this`sends
      ensures state == old(state) && taken <= tried <= |prepared| && sent == old(sent) + prepared[..tried]
      ensures stale
              <==> fate(old(writes)) == Raises && Drains(old(writes) + 1, old(sends), |prepared|) && old(outbox) != []
      ensures if stale then tried == |prepared| && View() == old(outbox) else View() == prepared[taken..]
      ensures AllWell(old(writes), old(sends)) ==> taken == |prepared|
    {
      hide Drains;
      ghost var file, w, s := outbox, writes, sends;
      stale, taken, tried := false, 0, 0;
      var end := WriteOutbox(prepared);
      if end == Stopped { return; }
      if end == Fine {
        end := Commit(state, None);
        if end != Fine { return; }
        taken, tried := DeliverFromOutbox(prepared);
      } else {
        ghost var drained := Drains(w + 1, s, |prepared|);
        taken, tried := DeliverFromRecord(prepared);
        stale := drained && fate(w) == Raises && file != [];
        if drained { taken := if fate(w) == Raises then tried else 0; }
      }
    }

    /**
     * What a run leaves, however it ends: nothing happened, or the transition and its queue, oldest delivered first.
     */
    ghost predicate Left(st: WatchState, prepared: Queue, before: Queue, given: Queue, recorded: bool, taken: nat,
                         tried: nat)
      reads this
    {
      && taken <= tried <= |prepared| && sent == given + prepared[..tried]
      && (recorded ==> state == st && View() == prepared[taken..])
      && (!recorded ==> tried == 0 && View() == before)
    }

    /** The outbox could not be written, and every message was then delivered from the record. */
    ghost predicate Undone(w: nat, s: nat, n: nat) {
      fate(w) == Works && fate(w + 1) == Raises && Drains(w + 2, s, n)
    }

    /**
     * One run: the transition `st` and its new alerts. A stop or an error anywhere leaves either the old state and the
     * old queue, or the new state and the new queue less messages already sent, taken off in order. There is exactly
     * one exception, `stale`: the outbox could not be written, every message was delivered from the record, and the
     * outbox file, still an old one with messages in it, is what the next run will find.
     */
    method Run(st: WatchState, news: Queue, stamp: string)
      returns (ghost recorded: bool, ghost stale: bool, ghost taken: nat, ghost tried: nat)
      requires Accounts(history, View(), delivered) && AllSent() && AllAlerts(news)
      modifies this
      ensures var prepared := Enqueue(old(View()), news, stamp);
              && (stale <==> Undone(old(writes), old(sends), |prepared|) && old(outbox) != [])
              && (stale ==> sent == old(sent) + prepared && View() == old(outbox))
              && (!stale ==> Left(st, prepared, old(View()), old(sent), recorded, taken, tried))
              && |prepared| <= (if |old(View())| + |news| <= OUTBOX_MAX then |old(View())| + |news| else OUTBOX_MAX)
      ensures recorded <==> Lands(fate(old(writes)))
      ensures AllWell(old(writes), old(sends)) ==> View() == [] && sent == old(sent) + Enqueue(old(View()), news, stamp)
      ensures state == (if recorded then st else old(state))
              && history == (if recorded then old(history) + news else old(history))
      ensures !stale ==> Accounts(history, View(), delivered) && AllSent()
    {
      hide Accounts, Enqueue, Drains;
      var prepared := Enqueue(View(), news, stamp);
      EnqueueAccounts(history, View(), delivered, news, stamp);
      stale, taken, tried := false, 0, 0;
      recorded := Lands(fate(writes));
      var end := Commit(st, Some(prepared));
      if recorded { history := history + news; }
      if end != Fine { return; }
      stale, taken, tried := Deliver(prepared);
      if !stale {
        DeliveryAccounts(history, prepared, delivered, taken);
        delivered := delivered + prepared[..taken];
      }
    }
  }
}
