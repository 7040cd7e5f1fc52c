/**
 * From submissions to receipts: the aggregator's rounds (otsserver/calendar.py, class Aggregator) are the entries of
 * the stamper's ledger, so what the receipts charge is bounded by the counted submissions that made leaves, over any
 * number of restarts.
 */
module Charges {
  import opened Octets
  import opened ReceiptFile
  import opened Receipts
  import opened Stamping
  import opened StampingSafety
  import opened StampingAccounts
  import opened Billing
  import Aggregator

  /** One process's life: whether its start padded a torn entry, its rounds, what it left queued, what was submitted. */
  datatype Life = Life(padded: bool, rounds: seq<Aggregator.Round>, queue: seq<Aggregator.Leaf>, failed: bool,
                       history: seq<Aggregator.Submission>)
  {
    ghost predicate Ok() {
      Aggregator.Accounted(rounds, queue, failed, history)
    }

    function Counted(): nat {
      Aggregator.CountIn(Aggregator.Made(history))
    }
  }

  /** The leaves of the entries its rounds journal. */
  function Entries(rounds: seq<Aggregator.Round>): seq<nat> {
    if rounds == [] then [] else Entries(rounds[..|rounds| - 1]) + [rounds[|rounds| - 1].records]
  }

  function Journalled(lives: seq<Life>): seq<nat> {
    if lives == [] then []
    else
      var life := lives[|lives| - 1];
      Journalled(lives[..|lives| - 1]) + (if life.padded then [0] else []) + Entries(life.rounds)
  }

  function Submitted(lives: seq<Life>): nat {
    if lives == [] then 0 else Submitted(lives[..|lives| - 1]) + lives[|lives| - 1].Counted()
  }

  lemma {:induction false} TotalSplit(a: seq<nat>, b: seq<nat>)
    ensures Total(a + b) == Total(a) + Total(b)
    decreases |b|
  {
    if b == [] {
      assert a + b == a;
    } else {
      assert (a + b)[..|a + b| - 1] == a + b[..|b| - 1];
      TotalSplit(a, b[..|b| - 1]);
    }
  }

  lemma {:induction false} EntriesTotal(rounds: seq<Aggregator.Round>)
    ensures Total(Entries(rounds)) == Aggregator.Records(rounds)
    decreases |rounds|
  {
    if rounds != [] {
      EntriesTotal(rounds[..|rounds| - 1]);
      var last := rounds[|rounds| - 1].records;
      TotalSplit(Entries(rounds[..|rounds| - 1]), [last]);
      OneTotal(last);
    }
  }

  lemma OneTotal(n: nat)
    ensures Total([n]) == n && Total([]) == 0
  {
    assert [n][..0] == [];
  }

  /** No more records are journalled than counted submissions made leaves. */
  lemma {:induction false} JournalledAtMost(lives: seq<Life>)
    requires forall life :: life in lives ==> life.Ok()
    ensures Total(Journalled(lives)) <= Submitted(lives)
    decreases |lives|
  {
    hide Aggregator.Accounted, Total;
    OneTotal(0);
    if lives != [] {
      var life, before := lives[|lives| - 1], lives[..|lives| - 1];
      JournalledAtMost(before);
      var pad: seq<nat> := if life.padded then [0] else [];
      TotalSplit(Journalled(before) + pad, Entries(life.rounds));
      TotalSplit(Journalled(before), pad);
      EntriesTotal(life.rounds);
      assert life.Ok();
      Aggregator.CountedOnce(life.rounds, life.queue, life.failed, life.history);
    }
  }

  /** Receipts charge no more, over any run, than the counted submissions that made leaves in any process's life. */
  lemma ChargesOnlyCounted(cfg: Config, s: State, events: seq<Event>, final: State, lives: seq<Life>)
    requires cfg.codec.Sound() && cfg.minConfirmations > 1 && Runs(cfg, s, events, final)
    requires NewEntries(cfg, s, events, final) && Initial(s) && Distinct(s.ledger.journal)
    requires final.ledger.leaves == Journalled(lives) && forall life :: life in lives ==> life.Ok()
    ensures Charged(OnFile(cfg.codec, final.store.books.file)) + StillOwed(cfg.codec, final.store.books)
            <= Submitted(lives)
  {
    hide Runs, NewEntries, Initial;
    NeverOvercharges(cfg, s, events, final);
    JournalledAtMost(lives);
  }
}
