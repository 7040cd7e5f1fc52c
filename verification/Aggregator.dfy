/**
 * The aggregator (otsserver/calendar.py, class Aggregator): submissions become leaves, a message submitted again within
 * a horizon is attached to its earlier leaf, and each round journals every queued leaf once with the number that count.
 * The horizon is a dict in insertion order; here it is a sequence. Threads and waiting are not part of this model.
 */
module Aggregator {
  import opened Octets
  import opened Wrappers

  /** An entry of _recent. */
  datatype Entry = Entry(msg: Bytes, expires: real, leaf: nat)

  datatype Leaf = Leaf(msg: Bytes, counted: bool)

  /** A submission, and the leaf it was given. */
  datatype Submission = Submission(msg: Bytes, counted: bool, now: real, leaf: nat, isNew: bool)

  /** A round: the leaves under one journal entry, and the records it is journalled with. */
  datatype Round = Round(leaves: seq<Leaf>, records: nat)

  /** dedupe_horizon and dedupe_max_entries */
  datatype Config = Config(horizon: real, most: nat)

  // --- the horizon -------------------------------------------------------------------------------

  /** The entries at the front that have expired go. */
  function Purged(recent: seq<Entry>, now: real): (r: seq<Entry>)
    ensures |r| <= |recent| && r == recent[|recent| - |r|..]
    ensures forall i :: 0 <= i < |recent| - |r| ==> recent[i].expires <= now
    ensures r != [] ==> r[0].expires > now
  {
    if recent != [] && recent[0].expires <= now then Purged(recent[1..], now) else recent
  }

  function Find(recent: seq<Entry>, msg: Bytes): (r: Option<nat>)
    ensures r.Some? ==> r.value < |recent| && recent[r.value].msg == msg
    ensures r.None? ==> forall e :: e in recent ==> e.msg != msg
  {
    if recent == [] then None
    else if recent[0].msg == msg then Some(0)
    else
      match Find(recent[1..], msg)
      case None => None
      case Some(i) => Some(i + 1)
  }

  function Without<T>(s: seq<T>, i: nat): seq<T>
    requires i < |s|
  {
    s[..i] + s[i + 1..]
  }

  function Capped<T>(s: seq<T>, most: nat): seq<T> {
    if |s| > most then s[1..] else s
  }

  /** The submission of a message at a moment, when the next new leaf is the given one: the horizon, and its leaf. */
  function Submit(cfg: Config, recent: seq<Entry>, next: nat, msg: Bytes, now: real): (seq<Entry>, nat) {
    var kept := Purged(recent, now);
    match Find(kept, msg)
    case Some(i) => (Without(kept, i) + [Entry(msg, now + cfg.horizon, kept[i].leaf)], kept[i].leaf)
    case None => (Capped(kept + [Entry(msg, now + cfg.horizon, next)], cfg.most), next)
  }

  // --- what the horizon remembers ----------------------------------------------------------------

  /** The last submission of a message. */
  ghost predicate IsLast(history: seq<Submission>, msg: Bytes, j: nat) {
    j < |history| && history[j].msg == msg && forall k :: j < k < |history| ==> history[k].msg != msg
  }

  /** The messages submitted since. */
  ghost function Since(history: seq<Submission>, j: nat): set<Bytes> {
    set k | j < k < |history| :: history[k].msg
  }

  ghost function Msgs(recent: seq<Entry>): set<Bytes> {
    set e | e in recent :: e.msg
  }

  ghost predicate Ordered(history: seq<Submission>) {
    forall j, k :: 0 <= j < k < |history| ==> history[j].now <= history[k].now
  }

  /** Which submission each entry stands for: its message's last, with the expiry and the leaf that one got. */
  ghost predicate Stands(cfg: Config, history: seq<Submission>, recent: seq<Entry>, lasts: seq<nat>) {
    && |lasts| == |recent|
    && (forall i :: 0 <= i < |recent| ==> StandsFor(cfg, history, recent[i], lasts[i]))
    && (forall i, k :: 0 <= i < k < |lasts| ==> lasts[i] < lasts[k])
    && (forall i :: 0 <= i < |recent| ==> Since(history, lasts[i]) == Msgs(recent[i + 1..]))
  }

  ghost predicate StandsFor(cfg: Config, history: seq<Submission>, e: Entry, j: nat) {
    && IsLast(history, e.msg, j) && e.expires == history[j].now + cfg.horizon && e.leaf == history[j].leaf
  }

  /** Submitted last so lately, and with so few other messages since, that it is remembered. */
  ghost predicate Recent(cfg: Config, history: seq<Submission>, j: nat, now: real)
    requires j < |history|
  {
    history[j].now + cfg.horizon > now && |Since(history, j)| < cfg.most
  }

  ghost predicate Lasting(cfg: Config, history: seq<Submission>, j: nat, now: real)
    requires j < |history|
  {
    IsLast(history, history[j].msg, j) && Recent(cfg, history, j, now)
  }

  /** Nothing that should be remembered at the last submission's moment, or later, is missing. */
  ghost predicate Complete(cfg: Config, history: seq<Submission>, recent: seq<Entry>) {
    forall j :: 0 <= j < |history| && Lasting(cfg, history, j, history[|history| - 1].now) ==>
                  history[j].msg in Msgs(recent)
  }

  ghost predicate Remembers(cfg: Config, history: seq<Submission>, recent: seq<Entry>, lasts: seq<nat>) {
    Ordered(history) && Stands(cfg, history, recent, lasts) && Complete(cfg, history, recent) && |recent| <= cfg.most
  }

  lemma LastIsOne(history: seq<Submission>, msg: Bytes, j: nat, k: nat)
    requires IsLast(history, msg, j) && IsLast(history, msg, k)
    ensures j == k
  {
  }

  lemma LastsDiffer(history: seq<Submission>, a: Bytes, b: Bytes, j: nat, k: nat)
    requires IsLast(history, a, j) && IsLast(history, b, k) && j != k
    ensures a != b
  {
  }

  lemma MsgsSplit(a: seq<Entry>, b: seq<Entry>)
    ensures Msgs(a + b) == Msgs(a) + Msgs(b)
  {
    assert forall e :: e in a + b <==> e in a || e in b;
  }

  lemma SinceOneMore(history: seq<Submission>, s: Submission, j: nat)
    requires j < |history|
    ensures Since(history + [s], j) == Since(history, j) + {s.msg}
  {
    var longer := history + [s];
    forall m | m in Since(history, j) + {s.msg} ensures m in Since(longer, j) {
      if m == s.msg {
        assert longer[|history|].msg == m;
      } else {
        var k :| j < k < |history| && history[k].msg == m;
        assert longer[k].msg == m;
      }
    }
  }

  lemma NotSince(cfg: Config, history: seq<Submission>, e: Entry, j: nat)
    requires StandsFor(cfg, history, e, j)
    ensures e.msg !in Since(history, j)
  {
  }

  lemma OneMsg(e: Entry)
    ensures Msgs([e]) == {e.msg} && Msgs([]) == {}
  {
    assert e in [e];
  }

  /** As many messages have come since an entry's submission as entries stand after it. */
  lemma {:induction false} SinceCounts(cfg: Config, history: seq<Submission>, recent: seq<Entry>, lasts: seq<nat>,
                                       i: nat)
    requires Stands(cfg, history, recent, lasts) && i <= |recent|
    ensures |Msgs(recent[i..])| == |recent| - i
    decreases |recent| - i
  {
    hide Since, Msgs, StandsFor;
    if i < |recent| {
      SinceCounts(cfg, history, recent, lasts, i + 1);
      var e := recent[i];
      assert recent[i..] == [e] + recent[i + 1..];
      MsgsSplit([e], recent[i + 1..]);
      NotSince(cfg, history, e, lasts[i]);
      OneMsg(e);
    } else {
      OneMsg(Entry([], 0.0, 0));
      assert recent[i..] == [];
    }
  }

  lemma InMsgs(recent: seq<Entry>, i: nat)
    requires i < |recent|
    ensures recent[i].msg in Msgs(recent)
  {
    assert recent[i] in recent;
  }

  lemma SuffixStands(cfg: Config, history: seq<Submission>, recent: seq<Entry>, lasts: seq<nat>, n: nat)
    requires Stands(cfg, history, recent, lasts) && n <= |recent|
    ensures Stands(cfg, history, recent[n..], lasts[n..])
  {
    forall i | 0 <= i < |recent| - n ensures Since(history, lasts[n..][i]) == Msgs(recent[n..][i + 1..]) {
      assert recent[n..][i + 1..] == recent[n + i + 1..];
    }
  }

  /** What was there at an earlier moment and has not expired since is not purged. */
  lemma PurgeKeeps(recent: seq<Entry>, now: real, i: nat)
    requires i < |recent| && recent[i].expires > now
    ensures recent[i].msg in Msgs(Purged(recent, now))
  {
    var kept := Purged(recent, now);
    assert i >= |recent| - |kept|;
    assert recent[i] == kept[i - (|recent| - |kept|)];
    InMsgs(kept, i - (|recent| - |kept|));
  }

  /** Under a clock that never steps back, the entries stand in the order they expire, so none kept has expired. */
  lemma KeptIsFresh(cfg: Config, history: seq<Submission>, recent: seq<Entry>, lasts: seq<nat>, now: real, i: nat)
    requires Ordered(history) && Stands(cfg, history, recent, lasts) && i < |Purged(recent, now)|
    ensures Purged(recent, now)[i].expires > now
  {
    var kept := Purged(recent, now);
    var n := |recent| - |kept|;
    if i > 0 {
      assert kept[0] == recent[n] && kept[i] == recent[n + i];
      assert StandsFor(cfg, history, recent[n], lasts[n]) && StandsFor(cfg, history, recent[n + i], lasts[n + i]);
      assert lasts[n] < lasts[n + i];
    }
  }

  ghost predicate NotBefore(history: seq<Submission>, now: real) {
    history != [] ==> history[|history| - 1].now <= now
  }

  /**
   * A message is attached to the leaf its last submission was given exactly when that was less than the horizon ago
   * and fewer other messages than the horizon holds have been submitted since.
   */
  lemma AttachesIff(cfg: Config, history: seq<Submission>, recent: seq<Entry>, lasts: seq<nat>, msg: Bytes, now: real)
    requires Remembers(cfg, history, recent, lasts) && NotBefore(history, now)
    ensures Find(Purged(recent, now), msg).Some?
       <==> exists j :: 0 <= j < |history| && history[j].msg == msg && Lasting(cfg, history, j, now)
    ensures forall j :: 0 <= j < |history| && history[j].msg == msg && Lasting(cfg, history, j, now) ==>
              var found := Find(Purged(recent, now), msg);
              found.Some? && Purged(recent, now)[found.value].leaf == history[j].leaf
  {
    hide Remembers, IsLast, Recent;
    var kept := Purged(recent, now);
    var found := Find(kept, msg);
    if found.Some? { var j := KeptIsLasting(cfg, history, recent, lasts, now, found.value); }
    forall j | 0 <= j < |history| && history[j].msg == msg && Lasting(cfg, history, j, now)
      ensures found.Some? && kept[found.value].leaf == history[j].leaf {
      StillThere(cfg, history, recent, lasts, j, now);
      var k := KeptIsLasting(cfg, history, recent, lasts, now, found.value);
      LastIsOne(history, msg, j, k);
    }
  }

  /** An entry kept stands for a submission late enough and few enough messages ago. */
  lemma KeptIsLasting(cfg: Config, history: seq<Submission>, recent: seq<Entry>, lasts: seq<nat>, now: real, i: nat)
    returns (j: nat)
    requires Remembers(cfg, history, recent, lasts) && i < |Purged(recent, now)|
    ensures j < |history| && history[j].msg == Purged(recent, now)[i].msg && Lasting(cfg, history, j, now)
    ensures history[j].leaf == Purged(recent, now)[i].leaf
  {
    hide Complete, Msgs, Since, Purged, Ordered;
    var kept := Purged(recent, now);
    var at := |recent| - |kept| + i;
    j := lasts[at];
    assert kept[i] == recent[at] && StandsFor(cfg, history, recent[at], j);
    KeptIsFresh(cfg, history, recent, lasts, now, i);
    SinceCounts(cfg, history, recent, lasts, at + 1);
  }

  lemma StillThere(cfg: Config, history: seq<Submission>, recent: seq<Entry>, lasts: seq<nat>, j: nat, now: real)
    requires Remembers(cfg, history, recent, lasts) && NotBefore(history, now)
    requires j < |history| && Lasting(cfg, history, j, now)
    ensures history[j].msg in Msgs(Purged(recent, now))
  {
    assert Lasting(cfg, history, j, history[|history| - 1].now);
    var e :| e in recent && e.msg == history[j].msg;
    var i :| 0 <= i < |recent| && recent[i] == e;
    assert StandsFor(cfg, history, e, lasts[i]);
    LastIsOne(history, e.msg, j, lasts[i]);
    PurgeKeeps(recent, now, i);
  }

  // --- what a submission keeps -------------------------------------------------------------------

  /** The entries beside one for a message about to be put at the end. */
  ghost predicate StandsBut(cfg: Config, history: seq<Submission>, others: seq<Entry>, lasts: seq<nat>, msg: Bytes) {
    && |lasts| == |others|
    && (forall i :: 0 <= i < |others| ==> StandsFor(cfg, history, others[i], lasts[i]) && others[i].msg != msg)
    && (forall i, k :: 0 <= i < k < |lasts| ==> lasts[i] < lasts[k])
    && (forall i :: 0 <= i < |others| ==> Since(history, lasts[i]) + {msg} == Msgs(others[i + 1..]) + {msg})
  }

  lemma MissBut(cfg: Config, history: seq<Submission>, kept: seq<Entry>, lasts: seq<nat>, msg: Bytes)
    requires Stands(cfg, history, kept, lasts) && forall e :: e in kept ==> e.msg != msg
    ensures StandsBut(cfg, history, kept, lasts, msg)
  {
    hide Since, Msgs, StandsFor;
  }

  /** No two entries are of one message. */
  lemma Apart(cfg: Config, history: seq<Submission>, kept: seq<Entry>, lasts: seq<nat>, i: nat, k: nat)
    requires Stands(cfg, history, kept, lasts) && i < |kept| && k < |kept| && i != k
    ensures kept[i].msg != kept[k].msg
  {
    hide Since, Msgs;
    assert StandsFor(cfg, history, kept[i], lasts[i]) && StandsFor(cfg, history, kept[k], lasts[k]);
    LastsDiffer(history, kept[i].msg, kept[k].msg, lasts[i], lasts[k]);
  }

  lemma MsgsWithout(kept: seq<Entry>, i: nat, k: nat)
    requires k <= i < |kept|
    ensures Msgs(kept[k..]) == Msgs(Without(kept, i)[k..]) + {kept[i].msg}
  {
    var a, b, e := kept[k..i], kept[i + 1..], kept[i];
    assert kept[k..] == a + ([e] + b) && Without(kept, i)[k..] == a + b;
    MsgsSplit(a, [e] + b);
    MsgsSplit([e], b);
    MsgsSplit(a, b);
    assert Msgs([e]) == {e.msg};
  }

  lemma HitBut(cfg: Config, history: seq<Submission>, kept: seq<Entry>, lasts: seq<nat>, i: nat)
    requires Stands(cfg, history, kept, lasts) && i < |kept|
    ensures StandsBut(cfg, history, Without(kept, i), Without(lasts, i), kept[i].msg)
  {
    hide Since, Msgs, StandsFor;
    var others := Without(kept, i);
    forall k | 0 <= k < |others|
      ensures others[k].msg != kept[i].msg
      ensures Since(history, Without(lasts, i)[k]) + {kept[i].msg} == Msgs(others[k + 1..]) + {kept[i].msg} {
      Apart(cfg, history, kept, lasts, if k < i then k else k + 1, i);
      if k < i { MsgsWithout(kept, i, k + 1); } else { assert others[k + 1..] == kept[k + 2..]; }
    }
  }

  lemma AppendStands(cfg: Config, history: seq<Submission>, others: seq<Entry>, lasts: seq<nat>, s: Submission)
    requires StandsBut(cfg, history, others, lasts, s.msg)
    ensures Stands(cfg, history + [s], others + [Entry(s.msg, s.now + cfg.horizon, s.leaf)], lasts + [|history|])
  {
    hide Since, Msgs;
    var longer, x := history + [s], Entry(s.msg, s.now + cfg.horizon, s.leaf);
    var recent, all := others + [x], lasts + [|history|];
    forall i | 0 <= i < |recent|
      ensures StandsFor(cfg, longer, recent[i], all[i]) && Since(longer, all[i]) == Msgs(recent[i + 1..]) {
      if i < |others| {
        assert StandsFor(cfg, history, others[i], lasts[i]);
        SinceOneMore(history, s, lasts[i]);
        assert recent[i + 1..] == others[i + 1..] + [x];
        MsgsSplit(others[i + 1..], [x]);
        OneMsg(x);
      } else {
        assert recent[i + 1..] == [];
        NoneSince(longer);
      }
    }
  }

  lemma NoneSince(history: seq<Submission>)
    requires history != []
    ensures Since(history, |history| - 1) == {} == Msgs([])
  {
  }

  /** What is remembered once the submission is at the end of the history, before the cap. */
  lemma StillComplete(cfg: Config, history: seq<Submission>, recent: seq<Entry>, lasts: seq<nat>, s: Submission,
                      others: seq<Entry>, j: nat)
    requires Remembers(cfg, history, recent, lasts) && NotBefore(history, s.now)
    requires Msgs(others) + {s.msg} == Msgs(Purged(recent, s.now)) + {s.msg}
    requires j <= |history| && Lasting(cfg, history + [s], j, s.now)
    ensures (history + [s])[j].msg in Msgs(others) + {s.msg}
  {
    hide Msgs, Remembers;
    var longer := history + [s];
    if j < |history| {
      SinceOneMore(history, s, j);
      Fewer(Since(history, j), s.msg);
      assert longer[|history|].msg == s.msg;
      assert forall k :: 0 <= k < |history| ==> longer[k] == history[k];
      assert IsLast(history, history[j].msg, j);
      StillThere(cfg, history, recent, lasts, j, s.now);
    }
  }

  lemma Fewer<T>(s: set<T>, x: T)
    ensures |s| <= |s + {x}|
  {
    if x in s { assert s + {x} == s; }
  }

  lemma OrderedOneMore(history: seq<Submission>, s: Submission)
    requires Ordered(history) && NotBefore(history, s.now)
    ensures Ordered(history + [s])
  {
  }

  /** The cap drops only an entry with as many others since as the horizon holds. */
  lemma CappedComplete(cfg: Config, history: seq<Submission>, recent: seq<Entry>, lasts: seq<nat>)
    returns (after: seq<nat>)
    requires Ordered(history) && Stands(cfg, history, recent, lasts) && Complete(cfg, history, recent)
    requires |recent| <= cfg.most + 1
    ensures Remembers(cfg, history, Capped(recent, cfg.most), after)
  {
    hide Since, Msgs, Ordered;
    if |recent| > cfg.most {
      SuffixStands(cfg, history, recent, lasts, 1);
      forall j | 0 <= j < |history| && Lasting(cfg, history, j, history[|history| - 1].now)
        ensures history[j].msg in Msgs(recent[1..]) {
        FirstIsOut(cfg, history, recent, lasts, j);
      }
      after := lasts[1..];
    } else {
      after := lasts;
    }
  }

  lemma FirstIsOut(cfg: Config, history: seq<Submission>, recent: seq<Entry>, lasts: seq<nat>, j: nat)
    requires Stands(cfg, history, recent, lasts) && |recent| == cfg.most + 1 && j < |history|
    requires history[j].msg in Msgs(recent) && Lasting(cfg, history, j, history[|history| - 1].now)
    ensures history[j].msg in Msgs(recent[1..])
  {
    assert recent == [recent[0]] + recent[1..];
    MsgsSplit([recent[0]], recent[1..]);
    OneMsg(recent[0]);
    if history[j].msg == recent[0].msg {
      assert StandsFor(cfg, history, recent[0], lasts[0]);
      LastIsOne(history, recent[0].msg, j, lasts[0]);
      SinceCounts(cfg, history, recent, lasts, 1);
    }
  }

  /** The entry for the submission put after the others. */
  lemma PutLast(cfg: Config, history: seq<Submission>, recent: seq<Entry>, lasts: seq<nat>, s: Submission,
                others: seq<Entry>, rest: seq<nat>)
    returns (after: seq<nat>)
    requires Remembers(cfg, history, recent, lasts) && NotBefore(history, s.now)
    requires StandsBut(cfg, history, others, rest, s.msg) && |others| <= cfg.most
    requires Msgs(others) + {s.msg} == Msgs(Purged(recent, s.now)) + {s.msg}
    ensures Remembers(cfg, history + [s], Capped(others + [Entry(s.msg, s.now + cfg.horizon, s.leaf)], cfg.most), after)
  {
    hide Since, Msgs, StandsFor, Lasting, StandsBut, Stands, Capped;
    var x, longer := Entry(s.msg, s.now + cfg.horizon, s.leaf), history + [s];
    OrderedOneMore(history, s);
    AppendStands(cfg, history, others, rest, s);
    MsgsSplit(others, [x]);
    OneMsg(x);
    forall j | 0 <= j < |longer| && Lasting(cfg, longer, j, longer[|longer| - 1].now)
      ensures longer[j].msg in Msgs(others + [x]) {
      StillComplete(cfg, history, recent, lasts, s, others, j);
    }
    after := CappedComplete(cfg, longer, others + [x], rest + [|history|]);
  }

  /** A submission, under a clock that does not step back, leaves the horizon remembering exactly what it should. */
  lemma SubmitRemembers(cfg: Config, history: seq<Submission>, recent: seq<Entry>, lasts: seq<nat>, next: nat,
                        s: Submission)
    returns (after: seq<nat>)
    requires Remembers(cfg, history, recent, lasts) && NotBefore(history, s.now)
    requires s.leaf == Submit(cfg, recent, next, s.msg, s.now).1
    ensures Remembers(cfg, history + [s], Submit(cfg, recent, next, s.msg, s.now).0, after)
  {
    hide Since, Msgs, StandsFor, Lasting, StandsBut, Stands, Complete, Ordered;
    var kept := Purged(recent, s.now);
    var n := |recent| - |kept|;
    StandsSizes(cfg, history, recent, lasts);
    SuffixStands(cfg, history, recent, lasts, n);
    var found := Find(kept, s.msg);
    if found.Some? {
      var i := found.value;
      var others, rest := Without(kept, i), Without(lasts[n..], i);
      HitBut(cfg, history, kept, lasts[n..], i);
      MsgsWithout(kept, i, 0);
      assert kept[0..] == kept && others[0..] == others;
      after := PutLast(cfg, history, recent, lasts, s, others, rest);
    } else {
      MissBut(cfg, history, kept, lasts[n..], s.msg);
      after := PutLast(cfg, history, recent, lasts, s, kept, lasts[n..]);
    }
  }

  lemma StandsSizes(cfg: Config, history: seq<Submission>, recent: seq<Entry>, lasts: seq<nat>)
    requires Stands(cfg, history, recent, lasts)
    ensures |lasts| == |recent|
  {
  }

  lemma SubmitIs(cfg: Config, recent: seq<Entry>, next: nat, msg: Bytes, now: real)
    ensures var kept := Purged(recent, now);
            match Find(kept, msg)
            case Some(i) =>
              var e := Entry(msg, now + cfg.horizon, kept[i].leaf);
              Submit(cfg, recent, next, msg, now) == (Without(kept, i) + [e], kept[i].leaf)
            case None =>
              var all := kept + [Entry(msg, now + cfg.horizon, next)];
              Submit(cfg, recent, next, msg, now) == (if |all| > cfg.most then all[1..] else all, next)
  {
    hide Purged, Find;
  }

  /** A leaf is made exactly when no submission of the message is lasting; else the leaf is that one's. */
  ghost predicate AttachedRight(cfg: Config, history: seq<Submission>, s: Submission) {
    && (s.isNew <==> forall j :: 0 <= j < |history| && history[j].msg == s.msg ==> !Lasting(cfg, history, j, s.now))
    && (forall j :: 0 <= j < |history| && history[j].msg == s.msg ==>
          (Lasting(cfg, history, j, s.now) ==> s.leaf == history[j].leaf))
  }

  lemma AttachesRight(cfg: Config, history: seq<Submission>, recent: seq<Entry>, lasts: seq<nat>, next: nat,
                      s: Submission)
    requires Remembers(cfg, history, recent, lasts) && NotBefore(history, s.now)
    requires s.leaf == Submit(cfg, recent, next, s.msg, s.now).1 && s.isNew == Find(Purged(recent, s.now), s.msg).None?
    ensures AttachedRight(cfg, history, s)
  {
    hide Remembers, Lasting, Purged, Find, NotBefore;
    AttachesIff(cfg, history, recent, lasts, s.msg, s.now);
  }

  // --- any clock ---------------------------------------------------------------------------------

  /**
   * Whatever the clock does: an expired message is refused its old leaf exactly when nothing before it is unexpired.
   * Purging from the front is enough only then.
   */
  lemma PurgedIff(recent: seq<Entry>, now: real, i: nat)
    requires i < |recent| && forall k :: 0 <= k < |recent| && k != i ==> recent[k].msg != recent[i].msg
    ensures (Find(Purged(recent, now), recent[i].msg).Some? <==> recent[i].expires > now)
       <==> (recent[i].expires > now || forall k :: 0 <= k < i ==> recent[k].expires <= now)
  {
    var kept := Purged(recent, now);
    var n := |recent| - |kept|;
    if i >= n {
      assert kept[i - n] == recent[i] && kept[i - n] in kept;
      if n < i { assert kept[0] == recent[n]; }
    } else {
      forall at | 0 <= at < |kept| ensures kept[at].msg != recent[i].msg {
        assert recent[n + at] == kept[at];
      }
    }
  }

  lemma Opens(cfg: Config, next: nat, msg: Bytes, now: real)
    requires cfg.most > 0
    ensures Submit(cfg, [], next, msg, now) == ([Entry(msg, now + cfg.horizon, next)], next)
  {
    assert [] + [Entry(msg, now + cfg.horizon, next)] == [Entry(msg, now + cfg.horizon, next)];
  }

  lemma Joins(cfg: Config, e: Entry, next: nat, msg: Bytes, now: real)
    requires cfg.most > 1 && e.msg != msg && e.expires > now
    ensures Submit(cfg, [e], next, msg, now) == ([e, Entry(msg, now + cfg.horizon, next)], next)
  {
    assert Purged([e], now) == [e];
    assert [e] + [Entry(msg, now + cfg.horizon, next)] == [e, Entry(msg, now + cfg.horizon, next)];
  }

  lemma Attaches(cfg: Config, e: Entry, f: Entry, next: nat, now: real)
    requires e.msg != f.msg && e.expires > now
    ensures Submit(cfg, [e, f], next, f.msg, now).1 == f.leaf
  {
    assert Purged([e, f], now) == [e, f];
    assert [e, f][1..] == [f];
  }

  /**
   * So once the clock steps back an expired message can be attached all the same: behind one submitted before the step,
   * which expires later than the moment of both its own submissions.
   */
  lemma AttachedTooLate(cfg: Config, a: Bytes, b: Bytes, before: real, back: real, again: real)
    requires a != b && cfg.most > 1 && back + cfg.horizon <= again < before + cfg.horizon
    requires back <= again
    ensures var one := Submit(cfg, [], 0, a, before).0;
            var (two, given) := Submit(cfg, one, 1, b, back);
            given == 1 == Submit(cfg, two, 2, b, again).1
  {
    hide Submit;
    var e, f := Entry(a, before + cfg.horizon, 0), Entry(b, back + cfg.horizon, 1);
    Opens(cfg, 0, a, before);
    Joins(cfg, e, 1, b, back);
    Attaches(cfg, e, f, 2, again);
  }

  // --- counting ----------------------------------------------------------------------------------

  function CountIn(leaves: seq<Leaf>): nat {
    if leaves == [] then 0 else CountIn(leaves[..|leaves| - 1]) + if leaves[|leaves| - 1].counted then 1 else 0
  }

  /** The number of them that were counted. */
  lemma {:induction false} CountInIs(leaves: seq<Leaf>)
    ensures CountIn(leaves) == |set i | 0 <= i < |leaves| && leaves[i].counted|
    decreases |leaves|
  {
    if leaves != [] {
      var n := |leaves| - 1;
      CountInIs(leaves[..n]);
      var before := set i | 0 <= i < n && leaves[..n][i].counted;
      var all := set i | 0 <= i < |leaves| && leaves[i].counted;
      assert all == if leaves[n].counted then before + {n} else before;
    }
  }

  /** The leaves under all journal entries, in order. */
  function Under(rounds: seq<Round>): seq<Leaf> {
    if rounds == [] then [] else Under(rounds[..|rounds| - 1]) + rounds[|rounds| - 1].leaves
  }

  function Records(rounds: seq<Round>): nat {
    if rounds == [] then 0 else Records(rounds[..|rounds| - 1]) + rounds[|rounds| - 1].records
  }

  /** The leaves made: one for each submission not attached to an earlier one's. */
  function Made(history: seq<Submission>): seq<Leaf> {
    if history == [] then []
    else
      var s := history[|history| - 1];
      Made(history[..|history| - 1]) + if s.isNew then [Leaf(s.msg, s.counted)] else []
  }

  lemma {:induction false} CountSplit(a: seq<Leaf>, b: seq<Leaf>)
    ensures CountIn(a + b) == CountIn(a) + CountIn(b)
    decreases |b|
  {
    if b == [] {
      assert a + b == a;
    } else {
      assert (a + b)[..|a + b| - 1] == a + b[..|b| - 1];
      CountSplit(a, b[..|b| - 1]);
    }
  }

  ghost predicate RoundsOk(rounds: seq<Round>) {
    forall k :: 0 <= k < |rounds| ==> rounds[k].records == CountIn(rounds[k].leaves) && rounds[k].leaves != []
  }

  lemma {:induction false} RecordsAre(rounds: seq<Round>)
    requires RoundsOk(rounds)
    ensures Records(rounds) == CountIn(Under(rounds))
    decreases |rounds|
  {
    if rounds != [] {
      RecordsAre(rounds[..|rounds| - 1]);
      CountSplit(Under(rounds[..|rounds| - 1]), rounds[|rounds| - 1].leaves);
    }
  }

  lemma MadeOneMore(history: seq<Submission>, s: Submission)
    ensures Made(history + [s]) == Made(history) + if s.isNew then [Leaf(s.msg, s.counted)] else []
  {
    assert (history + [s])[..|history|] == history;
  }

  lemma UnderOneMore(rounds: seq<Round>, last: Round)
    requires RoundsOk(rounds) && last.records == CountIn(last.leaves) && last.leaves != []
    ensures RoundsOk(rounds + [last]) && Under(rounds + [last]) == Under(rounds) + last.leaves
  {
    assert (rounds + [last])[..|rounds|] == rounds;
  }

  /** How a round ends: committed, or raising with its entry in the journal or not. */
  datatype Ending = Commits | Raises(landed: bool)

  /** Every leaf made is under one entry, once, in order, or queued; a round that raised may have lost its own. */
  ghost predicate Accounted(rounds: seq<Round>, queue: seq<Leaf>, failed: bool, history: seq<Submission>) {
    && RoundsOk(rounds)
    && (!failed ==> Under(rounds) + queue == Made(history))
    && (failed ==> Under(rounds) <= Made(history))
  }

  /** Each counted leaf made is in the records of one entry or queued; after a round that raised, at most in one. */
  lemma CountedOnce(rounds: seq<Round>, queue: seq<Leaf>, failed: bool, history: seq<Submission>)
    requires Accounted(rounds, queue, failed, history)
    ensures !failed ==> Records(rounds) + CountIn(queue) == CountIn(Made(history))
    ensures failed ==> Records(rounds) <= CountIn(Made(history))
  {
    RecordsAre(rounds);
    if failed {
      var rest := Made(history)[|Under(rounds)|..];
      assert Made(history) == Under(rounds) + rest;
      CountSplit(Under(rounds), rest);
    } else {
      CountSplit(Under(rounds), queue);
    }
  }

  lemma SubmitAccounts(rounds: seq<Round>, queue: seq<Leaf>, history: seq<Submission>, s: Submission)
    requires Accounted(rounds, queue, false, history)
    ensures var leaf := Leaf(s.msg, s.counted);
            && Accounted(rounds, if s.isNew then queue + [leaf] else queue, false, history + [s])
            && |Made(history + [s])| == |Made(history)| + if s.isNew then 1 else 0
  {
    hide RoundsOk, Under, Made;
    MadeOneMore(history, s);
    var leaf := Leaf(s.msg, s.counted);
    assert Under(rounds) + (queue + [leaf]) == Under(rounds) + queue + [leaf];
  }

  lemma RoundAccounts(rounds: seq<Round>, queue: seq<Leaf>, history: seq<Submission>)
    requires Accounted(rounds, queue, false, history) && queue != []
    ensures var more := rounds + [Round(queue, CountIn(queue))];
            && Accounted(more, [], false, history) && Accounted(more, [], true, history)
            && Accounted(rounds, [], true, history)
  {
    hide RoundsOk, Under, Made, CountIn;
    UnderOneMore(rounds, Round(queue, CountIn(queue)));
    assert Under(rounds) + queue + [] == Under(rounds) + queue;
  }

  class Aggregator {
    const cfg: Config
    var recent: seq<Entry>
    var queue: seq<Leaf>
    var rounds: seq<Round>
    var failed: bool
    var made: nat // leaves made so far
    ghost var history: seq<Submission>
    ghost var lasts: seq<nat>

    constructor (cfg: Config)
      ensures this.cfg == cfg && history == [] && rounds == [] && !failed && Valid() && Steady()
    {
      this.cfg := cfg;
      recent, queue, rounds, failed, made := [], [], [], false, 0;
      history, lasts := [], [];
    }

    ghost predicate Valid()
      reads this
    {
      Accounted(rounds, queue, failed, history) && made == |Made(history)|
    }

    /** The clock has not stepped back so far. */
    ghost predicate Steady()
      reads this
    {
      Remembers(cfg, history, recent, lasts)
    }

    /** The purge of submit: from the front, as long as what is there has expired. */
    method Kept(now: real) returns (kept: seq<Entry>)
      ensures kept == Purged(recent, now)
    {
      kept := recent;
      while kept != [] && kept[0].expires <= now
        invariant Purged(kept, now) == Purged(recent, now)
        decreases |kept|
      {
        kept := kept[1..];
      }
    }

    /** The horizon's part of submit: the earlier leaf, moved to the back, or the next one, put there. */
    method Attach(msg: Bytes, now: real) returns (leaf: nat, isNew: bool)
      modifies this`recent
      ensures (recent, leaf) == Submit(cfg, old(recent), made, msg, now)
      ensures isNew == Find(Purged(old(recent), now), msg).None?
    {
      hide Purged, Find, Submit, Without;
      SubmitIs(cfg, recent, made, msg, now);
      var kept := Kept(now);
      var found := Find(kept, msg);
      if found.Some? {
        recent := Without(kept, found.value) + [Entry(msg, now + cfg.horizon, kept[found.value].leaf)];
        return kept[found.value].leaf, false;
      }
      kept := kept + [Entry(msg, now + cfg.horizon, made)];
      recent := if |kept| > cfg.most then kept[1..] else kept;
      return made, true;
    }

    /**
     * submit, as far as the queue: None when the loop has stopped. Under a clock that has not stepped back, a leaf is
     * made exactly for a message not submitted within the horizon, or with too many others since; any other is attached
     * to the leaf its last submission was given.
     */
    method Submitted(msg: Bytes, counted: bool, now: real) returns (leaf: Option<nat>)
      requires Valid()
      modifies this
      ensures Valid() && failed == old(failed) && rounds == old(rounds)
      ensures leaf.None? <==> failed
      ensures failed ==> recent == old(recent) && queue == old(queue) && history == old(history) && lasts == old(lasts)
      ensures !failed ==>
                var s := Submission(msg, counted, now, leaf.value, Find(Purged(old(recent), now), msg).None?);
                && (recent, leaf.value) == Submit(cfg, old(recent), |Made(old(history))|, msg, now)
                && history == old(history) + [s]
                && queue == (if s.isNew then old(queue) + [Leaf(msg, counted)] else old(queue))
                && (old(Steady()) && NotBefore(old(history), now) ==> Steady() && AttachedRight(cfg, old(history), s))
    {
      hide Remembers, AttachedRight, NotBefore, Purged, Find, Made, Submit, Accounted;
      if failed { return None; }
      var given, isNew := Attach(msg, now);
      ghost var s := Submission(msg, counted, now, given, isNew);
      if old(Steady()) && NotBefore(history, now) {
        AttachesRight(cfg, history, old(recent), lasts, made, s);
        lasts := SubmitRemembers(cfg, history, old(recent), lasts, made, s);
      }
      SubmitAccounts(rounds, queue, history, s);
      history := history + [s];
      if isNew { queue, made := queue + [Leaf(msg, counted)], made + 1; }
      return Some(given);
    }

    /** The queue taken, its leaves in order and the number that count. */
    method Drain() returns (digests: seq<Leaf>, records: nat)
      modifies this`queue
      ensures digests == old(queue) && records == CountIn(digests) && queue == []
    {
      digests, records := [], 0;
      while queue != []
        invariant digests + queue == old(queue) && records == CountIn(digests)
        decreases |queue|
      {
        CountSplit(digests, [queue[0]]);
        assert CountIn([queue[0]]) == if queue[0].counted then 1 else 0 by { assert [queue[0]][..0] == []; }
        if queue[0].counted { records := records + 1; }
        digests, queue := digests + [queue[0]], queue[1..];
      }
    }

    /** One turn of the loop: the whole queue under one entry, with the number of its leaves that count. */
    method RunRound(ending: Ending)
      requires Valid()
      modifies this`queue, this`rounds, this`failed
      ensures Valid()
      ensures old(failed) || old(queue) == [] ==> rounds == old(rounds) && queue == old(queue) && failed == old(failed)
      ensures !old(failed) && old(queue) != [] ==>
                && queue == [] && (failed <==> ending.Raises?)
                && var round := Round(old(queue), CountIn(old(queue)));
                   rounds == if ending == Raises(false) then old(rounds) else old(rounds) + [round]
    {
      hide Accounted, CountIn, Made;
      if failed { return; }
      if queue != [] { RoundAccounts(rounds, queue, history); }
      var digests, records := Drain();
      if digests == [] { return; }
      if ending != Raises(false) { rounds := rounds + [Round(digests, records)]; }
      if ending.Raises? { failed := true; }
    }
  }
}
