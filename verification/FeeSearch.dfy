/**
 * How an anchor transaction gets its fee (otsserver/stamper.py: __update_timestamp_tx, _get_tx_fee and the send loop
 * of __do_bitcoin): feerates are real numbers, amounts are satoshis, the node is an oracle that may refuse for ever.
 */
module FeeSearch {
  import opened Wrappers

  const DUST := 330

  /**
   * A timestamp transaction: one input, a change output unless it was dropped, a worthless commitment output. Nothing
   * keeps the change below the input: a negative feerate raises it.
   */
  datatype Tx = Tx(outpoint: nat, valueIn: nat, change: Option<nat>, stripped: nat, total: nat) {
    predicate Ok() {
      0 < stripped <= total
    }

    function Weight(): nat {
      stripped * 3 + total
    }

    /** The value of the first output: the change, or the commitment's nothing once the change is dropped. */
    function FirstOutput(): nat {
      if change.Some? then change.value else 0
    }

    /** _get_tx_fee: inputs less outputs. */
    function Fee(): int {
      valueIn - FirstOutput()
    }
  }

  /** The code's size: weight and three over four, not rounded. */
  function Size(tx: Tx): real {
    (tx.Weight() + 3) as real / 4.0
  }

  /** BIP 141, "Transaction size calculations": a quarter of the weight, rounded up. */
  function VirtualSize(weight: nat): nat {
    (weight + 3) / 4
  }

  /** The code's size is the virtual size or up to three quarters more; it is exact for one weight in four. */
  lemma SizeAgainstBip141(tx: Tx)
    ensures var weight := tx.stripped * 3 + tx.total;
            && VirtualSize(weight) as real <= Size(tx) <= VirtualSize(weight) as real + 0.75
            && (Size(tx) == VirtualSize(weight) as real <==> weight % 4 == 1)
  {
    var n := tx.Weight() + 3;
    Quarters(n, n / 4, n % 4);
    Remainder(tx.Weight());
  }

  lemma Quarters(n: nat, q: nat, r: nat)
    requires n == 4 * q + r && r < 4
    ensures q as real <= n as real / 4.0 <= q as real + 0.75
    ensures n as real / 4.0 == q as real <==> r == 0
  {
    assert n as real == 4.0 * q as real + r as real;
  }

  lemma Remainder(weight: nat)
    ensures (weight + 3) % 4 == 0 <==> weight % 4 == 1
  {
  }

  /** int() of a real number: towards zero. */
  function Truncated(x: real): int {
    if x >= 0.0 then x.Floor else -((-x).Floor)
  }

  function Delta(tx: Tx, rate: real): int {
    Truncated(Size(tx) * rate)
  }

  /** __update_timestamp_tx: the fee raised out of the change, which is dropped once only dust would be left. */
  function Update(prev: Tx, rate: real): (r: Tx)
    ensures r.Ok() == prev.Ok() && r.valueIn == prev.valueIn && r.outpoint == prev.outpoint
    ensures r.change.Some? ==> r.change.value > 330 && r.Fee() == prev.Fee() + Delta(prev, rate)
    ensures r.change.None? ==> r.Fee() == r.valueIn && prev.FirstOutput() <= Delta(prev, rate) + 330
  {
    var left: int := prev.FirstOutput() - Delta(prev, rate);
    prev.(change := if left > DUST then Some(left) else None)
  }

  /** A rate that is not negative never lowers the fee. */
  lemma FeeNeverFalls(prev: Tx, rate: real)
    requires rate >= 0.0
    ensures Delta(prev, rate) >= 0 && Update(prev, rate).Fee() >= prev.Fee()
  {
    AtLeast(rate, 0.0, Size(prev));
  }

  // --- the search --------------------------------------------------------------------------------

  /** What the node does with one attempt. */
  datatype Reply = InputGone | NotSigned | Refused | Broken | Accepted

  datatype Outcome =
    | Sent(tx: Tx, fee: int) | Capped(fee: int) | SameAttempt | Unsigned | Unpriced | CannotRise(fee: int) | Raised

  function Power(k: nat): (r: real)
    ensures r >= 1.0 + k as real / 4.0
    ensures k > 0 ==> r >= 1.25
  {
    if k == 0 then 1.0
    else
      var less := Power(k - 1);
      less * 1.25
  }

  /** The rate of the k-th attempt: the first one's own, then the relay rate raised by a quarter each time. */
  function Rate(first: real, relay: real, k: nat): real {
    if k == 0 then first else relay * Power(k)
  }

  function Times(base: nat, k: nat): nat {
    if k == 0 then 1 else base * Times(base, k - 1)
  }

  /** The (k + 1)-th attempt of a search pays the relay rate times five to the k-th over four to the k-th. */
  lemma {:induction false} RateGrows(first: real, relay: real, k: nat)
    ensures Rate(first, relay, 0) == first
    ensures k > 0 ==> Rate(first, relay, k) * Times(4, k) as real == relay * Times(5, k) as real
    decreases k
  {
    PowerIs(k);
    if k > 0 {
      Associate(relay, Power(k), Times(4, k) as real);
    }
  }

  lemma {:induction false} PowerIs(k: nat)
    ensures Power(k) * Times(4, k) as real == Times(5, k) as real
    decreases k
  {
    if k > 0 {
      PowerIs(k - 1);
      var p, fours := Power(k - 1), Times(4, k - 1) as real;
      assert Times(4, k) as real == 4.0 * fours;
      assert Power(k) * (4.0 * fours) == 5.0 * (p * fours);
    }
  }

  /** The k-th attempt. */
  function Try(prev: Tx, first: real, relay: real, k: nat): Tx {
    Update(prev, Rate(first, relay, k))
  }

  /** The k-th attempt is under the cap and leaves change to raise its fee from: a refusal makes another attempt. */
  predicate CanStall(prev: Tx, first: real, relay: real, maxFee: real, k: nat) {
    Try(prev, first, relay, k).Fee() as real <= maxFee && Try(prev, first, relay, k).change.Some?
  }

  ghost predicate TriedInVain(prev: Tx, first: real, relay: real, maxFee: real, node: nat -> Reply, k: nat) {
    node(k) == Refused && CanStall(prev, first, relay, maxFee, k)
  }

  /** What a refusal that no higher fee can mend is remembered by. */
  datatype Attempt = Attempt(outpoint: nat, fee: int, tip: nat)

  function AttemptOf(tx: Tx, tip: nat): Attempt {
    Attempt(tx.outpoint, tx.Fee(), tip)
  }

  /** The search goes on after the k-th attempt: it was not the one remembered as refused, and it was tried in vain. */
  ghost predicate GoesOn(prev: Tx, first: real, relay: real, maxFee: real, node: nat -> Reply,
                         refused: Option<Attempt>, tip: nat, k: nat) {
    TriedInVain(prev, first, relay, maxFee, node, k) && refused != Some(AttemptOf(Try(prev, first, relay, k), tip))
  }

  /** How many attempts can be refused and still leave change to raise the fee from. */
  function MostAttempts(prev: Tx, relay: real): (r: nat)
    requires relay > 0.0 && prev.Ok()
    ensures r >= 1
  {
    UnitPositive(prev, relay);
    (4.0 * prev.FirstOutput() as real / (Size(prev) * relay)).Floor + 1
  }

  lemma UnitPositive(prev: Tx, relay: real)
    requires relay > 0.0 && prev.Ok()
    ensures Size(prev) * relay > 0.0
    ensures 4.0 * prev.FirstOutput() as real / (Size(prev) * relay) >= 0.0
  {
    assert Size(prev) >= 1.0;
    Product(Size(prev), relay);
    Quotient(4.0 * prev.FirstOutput() as real, Size(prev) * relay);
  }

  lemma Product(a: real, b: real)
    requires a > 0.0 && b > 0.0
    ensures a * b > 0.0
  {
  }

  lemma Quotient(a: real, b: real)
    requires a >= 0.0 && b > 0.0
    ensures a / b >= 0.0
  {
  }

  /** While change is left the attempt's number is below the bound. */
  lemma AttemptBounded(prev: Tx, first: real, relay: real, k: nat)
    requires relay > 0.0 && prev.Ok() && k > 0 && Try(prev, first, relay, k).change.Some?
    ensures k < MostAttempts(prev, relay)
  {
    hide Rate, Power, Size;
    var unit, change := Size(prev) * relay, prev.FirstOutput();
    UnitPositive(prev, relay);
    RateIs(first, relay, k);
    Associate(Size(prev), relay, Power(k));
    var grown := 1.0 + k as real / 4.0;
    AtLeast(unit, grown, Power(k));
    Product(unit, Power(k));
    var x := Size(prev) * Rate(first, relay, k);
    assert x == unit * Power(k) && x.Floor == Delta(prev, Rate(first, relay, k)) < change;
    BelowFloor(x, change);
    assert unit * grown == unit + unit * (k as real / 4.0);
    Divided(unit, k as real, 4.0 * change as real);
    AboveFloor(k, 4.0 * change as real / unit);
  }

  lemma RateIs(first: real, relay: real, k: nat)
    requires k > 0
    ensures Rate(first, relay, k) == relay * Power(k)
  {
  }

  lemma Associate(a: real, b: real, c: real)
    ensures a * (b * c) == a * b * c
  {
  }

  lemma BelowFloor(x: real, n: int)
    requires x.Floor < n
    ensures x < n as real
  {
  }

  lemma AboveFloor(k: nat, x: real)
    requires k as real < x
    ensures k <= x.Floor
  {
  }

  lemma AtLeast(a: real, b: real, c: real)
    requires a >= 0.0 && b <= c
    ensures a * b <= a * c
  {
  }

  lemma Divided(unit: real, k: real, most: real)
    requires unit > 0.0 && unit * (k / 4.0) < most / 4.0
    ensures k < most / unit
  {
    assert unit * k < most;
    assert most / unit * unit == most;
  }

  // --- when the search ends ----------------------------------------------------------------------

  /** With a relay rate of nothing or less, every attempt from the second on is at most the second. */
  lemma RatesSink(first: real, relay: real, k: nat)
    requires relay <= 0.0 && k > 0
    ensures Rate(first, relay, k) <= Rate(first, relay, 1) <= 0.0
  {
    assert Power(1) == 1.25;
    AtLeast(-relay, 1.25, Power(k));
    assert relay * 1.25 <= 0.0;
  }

  lemma DeltaMonotone(prev: Tx, low: real, high: real)
    requires prev.Ok() && low <= high
    ensures Delta(prev, low) <= Delta(prev, high)
  {
    assert Size(prev) >= 0.0;
    hide Size, Truncated;
    AtLeast(Size(prev), low, high);
    TruncatedMonotone(Size(prev) * low, Size(prev) * high);
  }

  lemma TruncatedMonotone(x: real, y: real)
    requires x <= y
    ensures Truncated(x) <= Truncated(y)
  {
  }

  lemma StallsOn(prev: Tx, first: real, relay: real, maxFee: real, k: nat)
    requires prev.Ok() && relay <= 0.0 && k > 0 && CanStall(prev, first, relay, maxFee, 1)
    ensures CanStall(prev, first, relay, maxFee, k)
  {
    hide Rate, Delta;
    RatesSink(first, relay, k);
    DeltaMonotone(prev, Rate(first, relay, k), Rate(first, relay, 1));
  }

  /** The guard: a relay rate of nothing or less, and two first attempts that a refusal does not end. */
  predicate Endless(prev: Tx, first: real, relay: real, maxFee: real) {
    relay <= 0.0 && CanStall(prev, first, relay, maxFee, 0) && CanStall(prev, first, relay, maxFee, 1)
  }

  /** What is remembered as refused spent the whole of its output, and an output has one value. */
  ghost predicate SpentWhole(refused: Option<Attempt>, prev: Tx) {
    refused.Some? && refused.value.outpoint == prev.outpoint ==> refused.value.fee == prev.valueIn
  }

  /** So it is never an attempt whose fee can rise. */
  lemma RefusedCannotRise(prev: Tx, first: real, relay: real, k: nat, refused: Option<Attempt>, tip: nat)
    requires Try(prev, first, relay, k).change.Some? && SpentWhole(refused, prev)
    ensures refused != Some(AttemptOf(Try(prev, first, relay, k), tip))
  {
    hide Rate;
  }

  /** The search goes on for ever exactly when the guard holds and the node refuses every attempt. */
  lemma EndlessIff(prev: Tx, first: real, relay: real, maxFee: real, node: nat -> Reply, refused: Option<Attempt>,
                   tip: nat)
    requires prev.Ok() && SpentWhole(refused, prev)
    ensures (forall k :: GoesOn(prev, first, relay, maxFee, node, refused, tip, k)) <==>
            (Endless(prev, first, relay, maxFee) && forall k :: node(k) == Refused)
  {
    hide Try, SpentWhole, AttemptOf;
    if forall k :: GoesOn(prev, first, relay, maxFee, node, refused, tip, k) {
      assert GoesOn(prev, first, relay, maxFee, node, refused, tip, 0)
        && GoesOn(prev, first, relay, maxFee, node, refused, tip, 1);
      forall k ensures node(k) == Refused {
        assert GoesOn(prev, first, relay, maxFee, node, refused, tip, k);
      }
      if relay > 0.0 {
        var n := MostAttempts(prev, relay);
        assert GoesOn(prev, first, relay, maxFee, node, refused, tip, n);
        Unending(prev, first, relay, maxFee, n);
      }
    }
    if Endless(prev, first, relay, maxFee) && forall k :: node(k) == Refused {
      forall k ensures GoesOn(prev, first, relay, maxFee, node, refused, tip, k) {
        if k > 0 { StallsOn(prev, first, relay, maxFee, k); }
        RefusedCannotRise(prev, first, relay, k, refused, tip);
      }
    }
  }

  lemma Unending(prev: Tx, first: real, relay: real, maxFee: real, n: nat)
    requires prev.Ok() && relay > 0.0 && n >= MostAttempts(prev, relay)
    ensures !CanStall(prev, first, relay, maxFee, n)
  {
    hide MostAttempts;
    if Try(prev, first, relay, n).change.Some? { AttemptBounded(prev, first, relay, n); }
  }

  /**
   * At a relay rate of nothing the guard is: the present change is above dust and the present fee under the cap, and so
   * after the first attempt.
   */
  lemma EndlessAtZero(prev: Tx, first: real, maxFee: real)
    ensures Endless(prev, first, 0.0, maxFee) <==>
            (prev.FirstOutput() > 330 && prev.Fee() as real <= maxFee
             && Update(prev, first).change.Some? && Update(prev, first).Fee() as real <= maxFee)
  {
    hide Truncated;
    assert Rate(first, 0.0, 1) == 0.0;
    assert Delta(prev, 0.0) == 0 by { NothingAdded(Size(prev)); }
  }

  lemma NothingAdded(size: real)
    ensures Truncated(size * 0.0) == 0
  {
  }

  /** Otherwise some attempt is the last. */
  lemma LastAttempt(prev: Tx, first: real, relay: real, maxFee: real, node: nat -> Reply, refused: Option<Attempt>,
                    tip: nat) returns (n: nat)
    requires prev.Ok() && SpentWhole(refused, prev)
             && !(Endless(prev, first, relay, maxFee) && forall k :: node(k) == Refused)
    ensures !GoesOn(prev, first, relay, maxFee, node, refused, tip, n)
  {
    hide GoesOn, Endless;
    EndlessIff(prev, first, relay, maxFee, node, refused, tip);
    n :| !GoesOn(prev, first, relay, maxFee, node, refused, tip, n);
  }

  /** How the attempt that ends the search ends it, with what was remembered as refused before the search. */
  predicate Ended(tx: Tx, tip: nat, maxFee: real, reply: Reply, was: Option<Attempt>, r: Outcome) {
    && (r.Unpriced? <==> reply == InputGone)
    && (r.Capped? <==> reply != InputGone && tx.Fee() as real > maxFee)
    && (r.SameAttempt? <==> reply != InputGone && tx.Fee() as real <= maxFee && was == Some(AttemptOf(tx, tip)))
    && (r.Unsigned? ==> reply == NotSigned) && (r.Raised? ==> reply == Broken) && (r.Sent? ==> reply == Accepted)
    && (r.CannotRise? ==> reply == Refused && tx.change.None? && r.fee == tx.Fee())
    && (r.Sent? ==> r.tx == tx && r.fee == tx.Fee() && r.tx.valueIn == r.tx.FirstOutput() + r.fee
                    && r.fee as real <= maxFee
                    && (r.tx.change.Some? ==> r.tx.change.value > 330))
  }

  class Sender {
    const maxFee: real
    const relay: real
    const worth: nat -> nat // the value of an output: an outpoint has one
    var refused: Option<Attempt>

    constructor (maxFee: real, relay: real, worth: nat -> nat)
      ensures this.maxFee == maxFee && this.relay == relay && this.worth == worth && refused == None && Valid()
    {
      this.maxFee, this.relay, this.worth, refused := maxFee, relay, worth, None;
    }

    /** What is remembered as refused spent the whole of its output as fee. */
    ghost predicate Valid()
      reads this
    {
      refused.Some? ==> refused.value.fee == worth(refused.value.outpoint)
    }

    /**
     * The send loop, from the first attempt's rate: `initial` for a new cycle, the relay rate for a bump. It ends
     * unless it cannot: the guard of EndlessIff, and a node that never does anything but refuse. What it sends is the
     * first attempt the node accepts, priced under the cap, with change above dust or none, after attempts all refused
     * for too low a fee; `attempts` counts those. No attempt remembered as refused is handed to the node.
     */
    method Send(prev: Tx, newCycle: bool, initial: real, tip: nat, node: nat -> Reply)
      returns (r: Outcome, attempts: nat)
      requires prev.Ok() && prev.valueIn == worth(prev.outpoint) && Valid()
      requires !(Endless(prev, if newCycle then initial else relay, relay, maxFee) && forall k :: node(k) == Refused)
      modifies this`refused
      ensures Valid()
      ensures var first := if newCycle then initial else relay;
              && (forall j :: 0 <= j < attempts ==> GoesOn(prev, first, relay, maxFee, node, old(refused), tip, j))
              && (relay > 0.0 ==> attempts <= MostAttempts(prev, relay))
              && Ended(Try(prev, first, relay, attempts), tip, maxFee, node(attempts), old(refused), r)
      ensures refused == match r
                         case Sent(_, _) => None
                         case CannotRise(fee) => Some(Attempt(prev.outpoint, fee, tip))
                         case _ => old(refused)
    {
      hide Rate, Update, MostAttempts, Endless, CanStall, GoesOn;
      ghost var first := if newCycle then initial else relay;
      var rate := if newCycle then initial else relay;
      var unreset, k := newCycle, 0;
      ghost var last := LastAttempt(prev, first, relay, maxFee, node, refused, tip);
      FirstRate(first, relay);
      while true
        invariant refused == old(refused) && k <= last
        invariant rate == Rate(first, relay, k) && (k > 0 ==> !unreset)
        invariant k == 0 ==> rate == first && unreset == newCycle
        invariant relay > 0.0 ==> k <= MostAttempts(prev, relay)
        invariant forall j :: 0 <= j < k ==> GoesOn(prev, first, relay, maxFee, node, refused, tip, j)
        decreases last - k
      {
        var tx := Update(prev, rate);
        if unreset { unreset, rate := false, relay; }
        var reply := node(k);
        if reply == InputGone { return Unpriced, k; }
        var fee := tx.Fee();
        if fee as real > maxFee { return Capped(fee), k; }
        var attempt := Attempt(tx.outpoint, fee, tip);
        if refused == Some(attempt) { return SameAttempt, k; }
        if reply == NotSigned { return Unsigned, k; }
        if reply == Broken { return Raised, k; }
        if reply == Accepted {
          refused := None;
          return Sent(tx, fee), k;
        }
        if tx.change.None? {
          refused := Some(attempt);
          return CannotRise(fee), k;
        }
        Stalled(prev, first, relay, maxFee, node, refused, tip, k);
        NextRate(first, relay, k);
        rate := rate * 1.25;
        k := k + 1;
      }
    }
  }

  lemma Stalled(prev: Tx, first: real, relay: real, maxFee: real, node: nat -> Reply, refused: Option<Attempt>,
                tip: nat, k: nat)
    requires prev.Ok() && node(k) == Refused
    requires var tx := Try(prev, first, relay, k);
             tx.Fee() as real <= maxFee && tx.change.Some? && refused != Some(AttemptOf(tx, tip))
    ensures GoesOn(prev, first, relay, maxFee, node, refused, tip, k)
    ensures relay > 0.0 ==> k < MostAttempts(prev, relay)
  {
    hide Update, Rate, MostAttempts;
    if relay > 0.0 && k > 0 { AttemptBounded(prev, first, relay, k); }
    if relay > 0.0 { SomeAttempt(prev, relay); }
  }

  lemma SomeAttempt(prev: Tx, relay: real)
    requires prev.Ok() && relay > 0.0
    ensures MostAttempts(prev, relay) >= 1
  {
  }

  lemma FirstRate(first: real, relay: real)
    ensures Rate(first, relay, 0) == first
  {
  }

  lemma NextRate(first: real, relay: real, k: nat)
    ensures Rate(first, relay, k + 1) == (if k == 0 then relay else Rate(first, relay, k)) * 1.25
  {
    Associate(relay, Power(k), 1.25);
  }
}
