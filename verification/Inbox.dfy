/**
 * What a witness's inbox keeps (ops/selfstamp.py: _claim to witness_inbox): the files, every file operation that
 * changes them, what the deliverers may do meanwhile, and the invariants of any history of the two. `InboxPass` is the
 * pass itself. Random and hash-derived short file names are taken not to collide.
 */
module Inbox {
  import opened Octets
  import opened Wrappers
  import opened OtsFormat
  import LinearReader
  import ManifestChain

  /** A delivered name: X.json, or X.json.ots when `proof`. */
  datatype Name = Name(base: string, proof: bool)

  /** .claim-<token>-<name> */
  datatype Claim = Claim(token: nat, name: Name)

  datatype Delivery = Delivery(name: Name, data: Bytes)

  /** A witnessed copy's file: <label>-<period>-<sha256>.json, or a name given before selfstamp/3. */
  datatype CopyName = Current(chain: Option<ManifestChain.Label>, period: string, digest: Bytes) | Older(name: string)

  /** The inbox, its claims, its rejected/, the copies, the proofs kept beside them, and the files set aside there. */
  datatype Files = Files(inbox: map<Name, Bytes>, claims: map<Claim, Bytes>, rejected: set<Delivery>,
                         witnessed: map<CopyName, Bytes>, foreign: map<CopyName, Bytes>, aside: set<(CopyName, Bytes)>)

  /** _check_foreign_proof: what a proof of exactly the bytes with this sha256 attests. */
  function ProofOf(h: HashFn, data: Bytes, digest: Bytes): Option<Kind> {
    var proof := LinearReader.ParseOts(h, data);
    if proof.Failure? || proof.value.digest != digest then None else Some(proof.value.kind)
  }

  predicate Proves(h: HashFn, data: Bytes, digest: Bytes) {
    ProofOf(h, data, digest).Some?
  }

  predicate Anchors(h: HashFn, data: Bytes, digest: Bytes) {
    Proves(h, data, digest) && ProofOf(h, data, digest).value.Bitcoin?
  }

  predicate IsManifest(w: ManifestChain.World, raw: Bytes) {
    w.read(raw).Object? && ManifestChain.Valid(w, w.read(raw).m)
  }

  /** _copy_name */
  function CopyNameOf(w: ManifestChain.World, raw: Bytes): CopyName
    requires IsManifest(w, raw)
  {
    Current(w.read(raw).m.chain, w.read(raw).m.period.value, w.h.Digest(raw))
  }

  /** What a copy was named for, it holds. */
  ghost predicate WellNamed(w: ManifestChain.World, witnessed: map<CopyName, Bytes>) {
    forall n :: n in witnessed ==> n.Older? || (IsManifest(w, witnessed[n]) && n == CopyNameOf(w, witnessed[n]))
  }

  /** No bytes are witnessed under two names. */
  ghost predicate Distinct(h: HashFn, witnessed: map<CopyName, Bytes>) {
    forall m, n :: m in witnessed && n in witnessed && h.Digest(witnessed[m]) == h.Digest(witnessed[n]) ==> m == n
  }

  // --- what is kept ------------------------------------------------------------------------------

  ghost predicate Here(f: Files, d: Delivery) {
    d.name in f.inbox && f.inbox[d.name] == d.data
  }

  ghost predicate InClaims(claims: map<Claim, Bytes>, d: Delivery) {
    exists c :: c in claims && c.name == d.name && claims[c] == d.data
  }

  /** A copy is held that sha256 does not tell from these bytes. */
  ghost predicate Witnessed(h: HashFn, witnessed: map<CopyName, Bytes>, raw: Bytes) {
    exists n :: n in witnessed && h.Digest(witnessed[n]) == h.Digest(raw)
  }

  /** A proof of a held copy, and beside the copy is this proof or one that says no less. */
  ghost predicate AnsweredAt(h: HashFn, f: Files, n: CopyName, data: Bytes) {
    && n in f.witnessed && n in f.foreign
    && Proves(h, data, h.Digest(f.witnessed[n])) && Proves(h, f.foreign[n], h.Digest(f.witnessed[n]))
    && (Anchors(h, data, h.Digest(f.witnessed[n])) ==> Anchors(h, f.foreign[n], h.Digest(f.witnessed[n])))
  }

  ghost predicate Answered(h: HashFn, f: Files, data: Bytes) {
    exists n :: AnsweredAt(h, f, n, data)
  }

  /** A delivery once claimed: still a claim, set aside under its name, or answered for by what is held. */
  ghost predicate Taken(h: HashFn, f: Files, d: Delivery) {
    || InClaims(f.claims, d)
    || d in f.rejected
    || (if d.name.proof then Answered(h, f, d.data) else Witnessed(h, f.witnessed, d.data))
  }

  ghost predicate InHand(h: HashFn, f: Files, d: Delivery) {
    Here(f, d) || Taken(h, f, d)
  }

  /** No copy goes, and none comes to stand for other bytes. */
  ghost predicate CopiesKept(h: HashFn, a: Files, b: Files) {
    forall n :: n in a.witnessed ==> n in b.witnessed && h.Digest(b.witnessed[n]) == h.Digest(a.witnessed[n])
  }

  /** The file beside a copy stays; or, not a proof of it, is set aside; or, not anchored, gives way to one that is. */
  ghost predicate StaysBeside(h: HashFn, b: Files, n: CopyName, data: Bytes) {
    || (n in b.foreign && b.foreign[n] == data)
    || (n in b.witnessed && !Proves(h, data, h.Digest(b.witnessed[n])) && (n, data) in b.aside)
    || (n in b.witnessed && n in b.foreign && !Anchors(h, data, h.Digest(b.witnessed[n]))
        && Anchors(h, b.foreign[n], h.Digest(b.witnessed[n])))
  }

  ghost predicate ForeignKept(h: HashFn, a: Files, b: Files) {
    && (forall n :: n in a.foreign ==> StaysBeside(h, b, n, a.foreign[n]))
    && (forall n :: n in b.foreign ==> (n in a.foreign && b.foreign[n] == a.foreign[n])
                                       || (n in b.witnessed && Proves(h, b.foreign[n], h.Digest(b.witnessed[n]))))
  }

  /** What no step undoes, whatever fails or stops in it. */
  ghost predicate Safe(h: HashFn, a: Files, b: Files) {
    && (forall d :: Taken(h, a, d) ==> Taken(h, b, d))
    && a.rejected <= b.rejected && a.aside <= b.aside
    && CopiesKept(h, a, b) && ForeignKept(h, a, b)
  }

  lemma SafeSelf(h: HashFn, a: Files, b: Files)
    requires b == a.(inbox := b.inbox)
    ensures Safe(h, a, b)
  {
    hide Proves, Anchors;
    forall d | Taken(h, a, d) ensures Taken(h, b, d) {
      if d.name.proof && Answered(h, a, d.data) {
        var n :| AnsweredAt(h, a, n, d.data);
        assert AnsweredAt(h, b, n, d.data);
      }
    }
  }

  lemma ForeignThen(h: HashFn, a: Files, b: Files, c: Files)
    requires ForeignKept(h, a, b) && ForeignKept(h, b, c) && CopiesKept(h, b, c) && b.aside <= c.aside
    ensures ForeignKept(h, a, c)
  {
    hide ProofOf, Proves;
    forall n | n in a.foreign ensures StaysBeside(h, c, n, a.foreign[n]) {
      if n in b.foreign { assert StaysBeside(h, c, n, b.foreign[n]); }
    }
  }

  lemma SafeThen(h: HashFn, a: Files, b: Files, c: Files)
    requires Safe(h, a, b) && Safe(h, b, c)
    ensures Safe(h, a, c)
  {
    hide Taken, ForeignKept;
    ForeignThen(h, a, b, c);
  }

  /** What answers for a proof goes on answering for it. */
  lemma AnsweredStays(h: HashFn, a: Files, b: Files, n: CopyName, data: Bytes)
    requires AnsweredAt(h, a, n, data) && CopiesKept(h, a, b) && ForeignKept(h, a, b)
    ensures AnsweredAt(h, b, n, data)
  {
    hide ProofOf, Proves;
    assert StaysBeside(h, b, n, a.foreign[n]);
  }

  lemma AnsweredKept(h: HashFn, a: Files, b: Files, data: Bytes)
    requires Answered(h, a, data) && Safe(h, a, b)
    ensures Answered(h, b, data)
  {
    hide Taken, ForeignKept, AnsweredAt;
    var n :| AnsweredAt(h, a, n, data);
    AnsweredStays(h, a, b, n, data);
  }

  // --- the file operations -----------------------------------------------------------------------

  datatype FileOp =
    | Rename(name: Name, token: nat)
    | Quarantine(claim: Claim)
    | Remove(claim: Claim)
    | Copy(copy: CopyName, raw: Bytes)
    | SetAside(copy: CopyName)
    | Keep(copy: CopyName, data: Bytes)

  function Effect(f: Files, op: FileOp): Files {
    match op
    case Rename(n, token) =>
      if n !in f.inbox then f else f.(inbox := f.inbox - {n}, claims := f.claims[Claim(token, n) := f.inbox[n]])
    case Quarantine(c) =>
      if c !in f.claims then f
      else f.(claims := f.claims - {c}, rejected := f.rejected + {Delivery(c.name, f.claims[c])})
    case Remove(c) => f.(claims := f.claims - {c})
    case Copy(n, raw) => f.(witnessed := f.witnessed[n := raw])
    case SetAside(n) =>
      if n !in f.foreign then f else f.(foreign := f.foreign - {n}, aside := f.aside + {(n, f.foreign[n])})
    case Keep(n, data) => f.(foreign := f.foreign[n := data])
  }

  /** When an operation may be done: what every caller of it must have found out first. */
  ghost predicate May(w: ManifestChain.World, f: Files, op: FileOp) {
    match op
    case Rename(n, token) => Claim(token, n) !in f.claims
    case Quarantine(c) => c in f.claims && (c.name.proof || !IsManifest(w, f.claims[c]))
    case Remove(c) =>
      && c in f.claims
      && if c.name.proof then Answered(w.h, f, f.claims[c]) else Witnessed(w.h, f.witnessed, f.claims[c])
    case Copy(n, raw) =>
      IsManifest(w, raw) && n == CopyNameOf(w, raw) && exists c :: c in f.claims && !c.name.proof && f.claims[c] == raw
    case SetAside(n) => n in f.witnessed && n in f.foreign && !Proves(w.h, f.foreign[n], w.h.Digest(f.witnessed[n]))
    case Keep(n, data) =>
      && n in f.witnessed && Proves(w.h, data, w.h.Digest(f.witnessed[n]))
      && (n in f.foreign ==> !Anchors(w.h, f.foreign[n], w.h.Digest(f.witnessed[n]))
                             && Anchors(w.h, data, w.h.Digest(f.witnessed[n])))
      && exists c :: c in f.claims && c.name.proof && f.claims[c] == data
  }

  lemma TakenStays(w: ManifestChain.World, f: Files, op: FileOp, d: Delivery)
    requires May(w, f, op) && Taken(w.h, f, d)
    requires CopiesKept(w.h, f, Effect(f, op)) && ForeignKept(w.h, f, Effect(f, op))
    ensures Taken(w.h, Effect(f, op), d)
  {
    hide Proves, Anchors, IsManifest, ForeignKept, AnsweredAt;
    var g := Effect(f, op);
    if d.name.proof && Answered(w.h, f, d.data) {
      var n :| AnsweredAt(w.h, f, n, d.data);
      AnsweredStays(w.h, f, g, n, d.data);
    } else if InClaims(f.claims, d) {
      var c :| c in f.claims && c.name == d.name && f.claims[c] == d.data;
      if c in g.claims { assert g.claims[c] == d.data; }
    }
  }

  lemma CopiesStay(w: ManifestChain.World, f: Files, op: FileOp)
    requires May(w, f, op) && WellNamed(w, f.witnessed)
    ensures CopiesKept(w.h, f, Effect(f, op)) && WellNamed(w, Effect(f, op).witnessed)
  {
  }

  lemma ForeignStays(w: ManifestChain.World, f: Files, op: FileOp)
    requires May(w, f, op) && CopiesKept(w.h, f, Effect(f, op))
    ensures ForeignKept(w.h, f, Effect(f, op))
  {
    hide ProofOf, Proves, Anchors, IsManifest;
  }

  lemma OpSafe(w: ManifestChain.World, f: Files, op: FileOp)
    requires May(w, f, op) && WellNamed(w, f.witnessed)
    ensures Safe(w.h, f, Effect(f, op)) && WellNamed(w, Effect(f, op).witnessed)
  {
    hide Taken, CopiesKept, ForeignKept, WellNamed;
    CopiesStay(w, f, op);
    ForeignStays(w, f, op);
    forall d | Taken(w.h, f, d) ensures Taken(w.h, Effect(f, op), d) {
      TakenStays(w, f, op, d);
    }
    assert f.rejected <= Effect(f, op).rejected && f.aside <= Effect(f, op).aside by { hide May; }
  }

  // --- the deliverers ----------------------------------------------------------------------------

  /** What they do before one file operation: names put or replaced, names taken back. */
  datatype Act = Act(puts: map<Name, Bytes>, takes: set<Name>)

  /** A history: the files at its start, and the act before each operation. */
  datatype Story = Story(start: Files, acts: nat -> Act)

  function Arrived(f: Files, act: Act): Files {
    f.(inbox := (f.inbox - act.takes) + act.puts)
  }

  predicate Puts(act: Act, d: Delivery) {
    d.name in act.puts && act.puts[d.name] == d.data
  }

  /** The name is taken back, or put with other bytes. */
  predicate Withdraws(act: Act, d: Delivery) {
    (d.name in act.puts || d.name in act.takes) && !Puts(act, d)
  }

  ghost predicate PutIn(s: Story, d: Delivery, from: nat, until: nat) {
    exists k: nat :: from <= k < until && Puts(s.acts(k), d)
  }

  ghost predicate Withdrawn(s: Story, d: Delivery, from: nat, until: nat) {
    exists k: nat :: from <= k < until && Withdraws(s.acts(k), d)
  }

  /** There when the history began, or delivered since. */
  ghost predicate Known(s: Story, t: nat, d: Delivery) {
    Here(s.start, d) || InClaims(s.start.claims, d) || PutIn(s, d, 0, t)
  }

  /** Every delivery is in hand, or a deliverer withdrew it afterwards. */
  ghost predicate Conserved(h: HashFn, s: Story, t: nat, f: Files) {
    && (forall d :: Here(s.start, d) ==> InHand(h, f, d) || Withdrawn(s, d, 0, t))
    && (forall d :: Taken(h, s.start, d) ==> Taken(h, f, d))
    && (forall d, k: nat :: k < t && Puts(s.acts(k), d) ==> InHand(h, f, d) || Withdrawn(s, d, k + 1, t))
  }

  ghost predicate CopySourced(w: ManifestChain.World, s: Story, t: nat, n: CopyName, raw: Bytes) {
    || (n in s.start.witnessed && s.start.witnessed[n] == raw)
    || (IsManifest(w, raw) && n == CopyNameOf(w, raw) && exists b :: Known(s, t, Delivery(Name(b, false), raw)))
  }

  ghost predicate ForeignSourced(w: ManifestChain.World, s: Story, t: nat, f: Files, n: CopyName)
    requires n in f.foreign
  {
    || (n in s.start.foreign && s.start.foreign[n] == f.foreign[n])
    || (n in f.witnessed && Proves(w.h, f.foreign[n], w.h.Digest(f.witnessed[n]))
        && exists b :: Known(s, t, Delivery(Name(b, true), f.foreign[n])))
  }

  /** Nothing is made up: a new copy is a valid manifest delivered as one, a new proof beside it a proof delivered. */
  ghost predicate Sourced(w: ManifestChain.World, s: Story, t: nat, f: Files) {
    && (forall n :: n in f.inbox ==> Known(s, t, Delivery(n, f.inbox[n])))
    && (forall c :: c in f.claims ==> Known(s, t, Delivery(c.name, f.claims[c])))
    && (forall d :: d in f.rejected ==>
          d in s.start.rejected || (Known(s, t, d) && (d.name.proof || !IsManifest(w, d.data))))
    && (forall n :: n in f.witnessed ==> CopySourced(w, s, t, n, f.witnessed[n]))
    && (forall n :: n in f.foreign ==> ForeignSourced(w, s, t, f, n))
  }

  lemma StartSourced(w: ManifestChain.World, s: Story, t: nat)
    requires t == 0
    ensures Sourced(w, s, t, s.start) && Conserved(w.h, s, t, s.start)
  {
    hide Taken, IsManifest, Proves;
    forall c | c in s.start.claims ensures Known(s, t, Delivery(c.name, s.start.claims[c])) {
      assert InClaims(s.start.claims, Delivery(c.name, s.start.claims[c]));
    }
  }

  lemma KnownLater(s: Story, t: nat, d: Delivery)
    requires Known(s, t, d)
    ensures Known(s, t + 1, d)
  {
  }

  lemma ActSourced(w: ManifestChain.World, s: Story, t: nat, f: Files)
    requires Sourced(w, s, t, f)
    ensures Sourced(w, s, t + 1, Arrived(f, s.acts(t)))
  {
    hide Known, IsManifest, Proves;
    var g := Arrived(f, s.acts(t));
    forall d | Known(s, t, d) ensures Known(s, t + 1, d) { KnownLater(s, t, d); }
    forall n | n in g.inbox ensures Known(s, t + 1, Delivery(n, g.inbox[n])) {
      var d := Delivery(n, g.inbox[n]);
      if n in s.acts(t).puts { PutNow(s, t, d); }
    }
    forall n | n in g.witnessed ensures CopySourced(w, s, t + 1, n, g.witnessed[n]) {
      assert CopySourced(w, s, t, n, g.witnessed[n]);
    }
    forall n | n in g.foreign ensures ForeignSourced(w, s, t + 1, g, n) {
      assert ForeignSourced(w, s, t, f, n);
    }
  }

  lemma PutNow(s: Story, t: nat, d: Delivery)
    requires Puts(s.acts(t), d)
    ensures Known(s, t + 1, d)
  {
    assert PutIn(s, d, 0, t + 1);
  }

  lemma OpCopiesSourced(w: ManifestChain.World, s: Story, t: nat, f: Files, op: FileOp, n: CopyName)
    requires Sourced(w, s, t, f) && May(w, f, op) && n in Effect(f, op).witnessed
    ensures CopySourced(w, s, t, n, Effect(f, op).witnessed[n])
  {
    hide Known, IsManifest, Proves, Anchors, Answered, Witnessed;
    if op.Copy? && n == op.copy {
      var c :| c in f.claims && !c.name.proof && f.claims[c] == op.raw;
      assert Known(s, t, Delivery(Name(c.name.base, false), op.raw));
    }
  }

  lemma OpForeignSourced(w: ManifestChain.World, s: Story, t: nat, f: Files, op: FileOp, n: CopyName)
    requires Sourced(w, s, t, f) && May(w, f, op) && CopiesKept(w.h, f, Effect(f, op)) && n in Effect(f, op).foreign
    ensures ForeignSourced(w, s, t, Effect(f, op), n)
  {
    hide Known, IsManifest, Proves, Anchors, Answered, Witnessed;
    if op.Keep? && n == op.copy {
      var c :| c in f.claims && c.name.proof && f.claims[c] == op.data;
      assert Known(s, t, Delivery(Name(c.name.base, true), op.data));
    } else {
      assert ForeignSourced(w, s, t, f, n);
    }
  }

  lemma OpSourced(w: ManifestChain.World, s: Story, t: nat, f: Files, op: FileOp)
    requires Sourced(w, s, t, f) && May(w, f, op) && CopiesKept(w.h, f, Effect(f, op))
    ensures Sourced(w, s, t, Effect(f, op))
  {
    hide Known, IsManifest, Proves, Anchors, Answered, Witnessed, CopySourced, ForeignSourced, CopiesKept;
    var g := Effect(f, op);
    forall n | n in g.witnessed ensures CopySourced(w, s, t, n, g.witnessed[n]) { OpCopiesSourced(w, s, t, f, op, n); }
    forall n | n in g.foreign ensures ForeignSourced(w, s, t, g, n) { OpForeignSourced(w, s, t, f, op, n); }
  }

  lemma WithdrawnLater(s: Story, t: nat, f: Files, d: Delivery, from: nat)
    requires from <= t && (Here(f, d) || Withdrawn(s, d, from, t))
    ensures Here(Arrived(f, s.acts(t)), d) || Withdrawn(s, d, from, t + 1)
  {
    if Here(f, d) && !Here(Arrived(f, s.acts(t)), d) {
      assert Withdraws(s.acts(t), d);
    }
  }

  lemma ActConserves(h: HashFn, s: Story, t: nat, f: Files)
    requires Conserved(h, s, t, f)
    ensures Conserved(h, s, t + 1, Arrived(f, s.acts(t)))
  {
    hide Taken, Safe, Here, Withdrawn, Puts;
    var g := Arrived(f, s.acts(t));
    SafeSelf(h, f, g);
    assert forall d :: Taken(h, f, d) ==> Taken(h, g, d) by { assert Safe(h, f, g); TakenUnder(h, f, g); }
    forall d | Here(s.start, d) ensures InHand(h, g, d) || Withdrawn(s, d, 0, t + 1) {
      if !Taken(h, f, d) { WithdrawnLater(s, t, f, d, 0); }
    }
    forall d, k: nat | k < t + 1 && Puts(s.acts(k), d) ensures InHand(h, g, d) || Withdrawn(s, d, k + 1, t + 1) {
      if k < t {
        assert InHand(h, f, d) || Withdrawn(s, d, k + 1, t);
        if !Taken(h, f, d) { WithdrawnLater(s, t, f, d, k + 1); }
      } else {
        PutIsHere(f, s.acts(t), d);
      }
    }
  }

  lemma TakenUnder(h: HashFn, a: Files, b: Files)
    requires Safe(h, a, b)
    ensures forall d :: Taken(h, a, d) ==> Taken(h, b, d)
  {
    hide Taken, CopiesKept, ForeignKept;
  }

  lemma PutIsHere(f: Files, act: Act, d: Delivery)
    requires Puts(act, d)
    ensures Here(Arrived(f, act), d)
  {
  }

  lemma OpConserves(w: ManifestChain.World, s: Story, t: nat, f: Files, op: FileOp)
    requires Conserved(w.h, s, t, f) && May(w, f, op) && Safe(w.h, f, Effect(f, op))
    ensures Conserved(w.h, s, t, Effect(f, op))
  {
    hide Taken, Safe, Here, Withdrawn, Puts, May;
    var g := Effect(f, op);
    TakenUnder(w.h, f, g);
    forall d | Here(f, d) ensures InHand(w.h, g, d) { HereOrClaimed(w, f, op, d); }
    forall d, k: nat | k < t && Puts(s.acts(k), d) ensures InHand(w.h, g, d) || Withdrawn(s, d, k + 1, t) {
      assert InHand(w.h, f, d) || Withdrawn(s, d, k + 1, t);
    }
  }

  lemma HereOrClaimed(w: ManifestChain.World, f: Files, op: FileOp, d: Delivery)
    requires Here(f, d)
    ensures InHand(w.h, Effect(f, op), d)
  {
    hide Answered, Witnessed;
    if op.Rename? && op.name == d.name {
      var c := Claim(op.token, d.name);
      assert c in Effect(f, op).claims && Effect(f, op).claims[c] == d.data;
    }
  }

  // --- what becomes of a delivery ----------------------------------------------------------------

  /** A valid manifest is witnessed, any other is among the rejected. */
  ghost predicate DealtWith(w: ManifestChain.World, f: Files, name: Name, raw: Bytes) {
    if IsManifest(w, raw) then Witnessed(w.h, f.witnessed, raw) else Delivery(name, raw) in f.rejected
  }

  lemma StaysDealtWith(w: ManifestChain.World, a: Files, b: Files, name: Name, raw: Bytes)
    requires DealtWith(w, a, name, raw) && Safe(w.h, a, b)
    ensures DealtWith(w, b, name, raw)
  {
    hide IsManifest, Taken, ForeignKept;
  }

  /** A manifest delivered as X.json was rejected. */
  predicate OwnRejected(rejected: set<Delivery>, base: string) {
    exists r :: r in rejected && r.name == Name(base, false)
  }

  predicate EndsIn(name: string, base: string) {
    |name| > |base| && name[|name| - |base| - 1..] == "-" + base
  }

  /** One was whose name ends in -X.json. */
  predicate OtherRejected(rejected: set<Delivery>, base: string) {
    exists r :: r in rejected && !r.name.proof && EndsIn(r.name.base, base)
  }

  /** _manifest_was_rejected: a rejected manifest whose kept name, <12 hex>-<name>, ends in -X.json. */
  predicate WasRejected(rejected: set<Delivery>, base: string) {
    OwnRejected(rejected, base) || OtherRejected(rejected, base)
  }

  /** Rejected proofs have no part in it. */
  lemma ProofsDoNotReject(a: set<Delivery>, b: set<Delivery>)
    requires a <= b && forall d :: d in b ==> d in a || d.name.proof
    ensures forall base :: WasRejected(b, base) <==> WasRejected(a, base)
  {
    hide EndsIn;
  }

  /** A proof of no copy that is held. */
  ghost predicate Awaiting(h: HashFn, witnessed: map<CopyName, Bytes>, data: Bytes) {
    LinearReader.ParseOts(h, data).Success? && forall n :: n in witnessed ==> !Proves(h, data, h.Digest(witnessed[n]))
  }

  /** Delivered beside a file that is not a manifest, or is one of other bytes. */
  ghost predicate BesideAnother(w: ManifestChain.World, claims: map<Claim, Bytes>, base: string, data: Bytes) {
    exists c :: c in claims && c.name == Name(base, false)
                && (!IsManifest(w, claims[c]) || !Proves(w.h, data, w.h.Digest(claims[c])))
  }

  /**
   * Why a proof is set aside: it is none; it came beside another file; or, once it is `alone`, no copy that is held is
   * the one it proves and a manifest of its name was rejected.
   */
  ghost predicate Refused(w: ManifestChain.World, f: Files, claims: map<Claim, Bytes>, alone: bool, base: string,
                          data: Bytes) {
    || LinearReader.ParseOts(w.h, data).Failure?
    || BesideAnother(w, claims, base, data)
    || (alone && WasRejected(f.rejected, base) && Awaiting(w.h, f.witnessed, data))
  }

  /** A proof gone from its claim: kept or answered for beside its copy, or set aside for a reason. */
  ghost predicate Settled(w: ManifestChain.World, f: Files, claims: map<Claim, Bytes>, alone: bool, name: Name,
                          data: Bytes) {
    Answered(w.h, f, data) || (Delivery(name, data) in f.rejected && Refused(w, f, claims, alone, name.base, data))
  }

  lemma StaysSettled(w: ManifestChain.World, a: Files, b: Files, claims: map<Claim, Bytes>, alone: bool, name: Name,
                     data: Bytes)
    requires Settled(w, a, claims, alone, name, data) && Safe(w.h, a, b) && (alone ==> b.witnessed == a.witnessed)
    ensures Settled(w, b, claims, alone, name, data)
  {
    hide Answered, Taken, ForeignKept, CopiesKept, EndsIn, BesideAnother, Awaiting;
    if Answered(w.h, a, data) { AnsweredKept(w.h, a, b, data); }
  }

  /** Of the proofs claimed, those gone are settled. */
  ghost predicate GoneSettled(w: ManifestChain.World, f: Files, claims: map<Claim, Bytes>, alone: bool) {
    forall p :: p in claims && p.name.proof && p !in f.claims ==> Settled(w, f, claims, alone, p.name, claims[p])
  }

  lemma GoneStaySettled(w: ManifestChain.World, a: Files, b: Files, claims: map<Claim, Bytes>, alone: bool)
    requires GoneSettled(w, a, claims, alone) && Safe(w.h, a, b) && (alone ==> b.witnessed == a.witnessed)
    requires forall p :: p in claims && p.name.proof && p in a.claims && p !in b.claims ==>
                           Settled(w, b, claims, alone, p.name, claims[p])
    ensures GoneSettled(w, b, claims, alone)
  {
    hide Settled, Safe;
    forall p | p in claims && p.name.proof && p !in b.claims ensures Settled(w, b, claims, alone, p.name, claims[p]) {
      if p !in a.claims { StaysSettled(w, a, b, claims, alone, p.name, claims[p]); }
    }
  }

  /** So a proof of a held copy, not delivered beside another file, is kept or answered for once gone. */
  lemma GoneIsAnswered(w: ManifestChain.World, f: Files, claims: map<Claim, Bytes>, p: Claim, n: CopyName)
    requires GoneSettled(w, f, claims, true) && p in claims && p.name.proof
    requires p in f.claims ==> Awaiting(w.h, f.witnessed, claims[p])
    requires n in f.witnessed && Proves(w.h, claims[p], w.h.Digest(f.witnessed[n]))
    requires !BesideAnother(w, claims, p.name.base, claims[p])
    ensures Answered(w.h, f, claims[p])
  {
    hide BesideAnother, Answered, LinearReader.ParseOts;
    assert Settled(w, f, claims, true, p.name, claims[p]);
  }

  /** Manifests dealt with stay so. */
  lemma AllStayDealtWith(w: ManifestChain.World, a: Files, b: Files, order: seq<Claim>, claims: map<Claim, Bytes>)
    requires Safe(w.h, a, b) && forall c :: c in order ==> c in claims
    ensures forall c :: c in order && DealtWith(w, a, c.name, claims[c]) ==> DealtWith(w, b, c.name, claims[c])
  {
    hide DealtWith, Safe;
    forall c | c in order && DealtWith(w, a, c.name, claims[c]) ensures DealtWith(w, b, c.name, claims[c]) {
      StaysDealtWith(w, a, b, c.name, claims[c]);
    }
  }
}
