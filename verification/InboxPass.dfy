/**
 * A pass over the inbox (ops/selfstamp.py: _claim to witness_inbox): deliveries are claimed, then each manifest is
 * witnessed, found already held, or set aside, and each proof is kept beside its copy, superseded or set aside. Every
 * file operation may work, raise or be the process's last, before or after its effect, and before each one the
 * deliverers may put, replace or take back any delivered name.
 */
module InboxPass {
  import opened Octets
  import opened Wrappers
  import opened OtsFormat
  import opened Faults
  import opened Inbox
  import LinearReader
  import ManifestChain
  import ProofParser

  /** The claims that go when a manifest is dealt with: its own, and perhaps its companion's. */
  ghost predicate OnlyWithCompanion(a: map<Claim, Bytes>, b: map<Claim, Bytes>, c: Claim) {
    && b.Keys <= a.Keys && (forall d :: d in b ==> b[d] == a[d])
    && (forall d :: d in a && d !in b ==> d == c || d.name == Name(c.name.base, true))
  }

  lemma OnlySelf(claims: map<Claim, Bytes>, c: Claim)
    ensures OnlyWithCompanion(claims, claims, c)
  {
  }

  lemma OnlyPair(a: map<Claim, Bytes>, b: map<Claim, Bytes>, c: Claim, companion: Option<Claim>)
    requires companion.Some? ==> companion.value.name == Name(c.name.base, true)
    requires forall d :: d in b ==> d in a && b[d] == a[d]
    requires forall d :: d in a && d !in b ==> d == c || Some(d) == companion
    ensures OnlyWithCompanion(a, b, c)
  {
  }

  /** _copies_by_digest's answer: of each sha256, a copy that has it. */
  ghost predicate HeldIn(h: HashFn, held: map<Bytes, CopyName>, witnessed: map<CopyName, Bytes>) {
    forall d :: d in held ==> held[d] in witnessed && h.Digest(witnessed[held[d]]) == d
  }

  ghost predicate HoldsAll(h: HashFn, held: map<Bytes, CopyName>, witnessed: map<CopyName, Bytes>) {
    HoldsBut(h, held, witnessed, {})
  }

  ghost predicate HoldsBut(h: HashFn, held: map<Bytes, CopyName>, witnessed: map<CopyName, Bytes>,
                           left: set<CopyName>) {
    forall n :: n in witnessed && n !in left ==> h.Digest(witnessed[n]) in held
  }

  lemma HoldsNone(h: HashFn, held: map<Bytes, CopyName>, witnessed: map<CopyName, Bytes>)
    requires held == map[]
    ensures HeldIn(h, held, witnessed) && HoldsBut(h, held, witnessed, witnessed.Keys)
  {
  }

  lemma HoldsOneMore(h: HashFn, held: map<Bytes, CopyName>, witnessed: map<CopyName, Bytes>, left: set<CopyName>,
                     n: CopyName)
    requires n in left && n in witnessed && HeldIn(h, held, witnessed)
    ensures var more := held[h.Digest(witnessed[n]) := n];
            && HeldIn(h, more, witnessed)
            && (HoldsBut(h, held, witnessed, left) ==> HoldsBut(h, more, witnessed, left - {n}))
  {
  }

  /** A proof left as a claim: of no copy that is held, and no manifest of its name, by the code's test, rejected. */
  ghost predicate Left(h: HashFn, f: Files, base: string, data: Bytes) {
    Awaiting(h, f.witnessed, data) && !WasRejected(f.rejected, base)
  }

  lemma HeldStays(h: HashFn, held: map<Bytes, CopyName>, a: Files, b: Files)
    requires HeldIn(h, held, a.witnessed) && CopiesKept(h, a, b)
    ensures HeldIn(h, held, b.witnessed)
  {
  }

  /** Bytes that no copy holds go under a name that no copy has. */
  lemma NewCopy(w: ManifestChain.World, witnessed: map<CopyName, Bytes>, held: map<Bytes, CopyName>, raw: Bytes)
    requires IsManifest(w, raw) && WellNamed(w, witnessed) && HoldsAll(w.h, held, witnessed)
    requires w.h.Digest(raw) !in held
    ensures var n := CopyNameOf(w, raw);
            && HoldsBut(w.h, held, witnessed[n := raw], {n})
            && (Distinct(w.h, witnessed) ==> Distinct(w.h, witnessed[n := raw]))
  {
    hide IsManifest;
    assert CopyNameOf(w, raw) !in witnessed;
  }

  lemma NoneFits(h: HashFn, held: map<Bytes, CopyName>, witnessed: map<CopyName, Bytes>, data: Bytes)
    requires LinearReader.ParseOts(h, data).Success? && HoldsAll(h, held, witnessed)
    requires LinearReader.ParseOts(h, data).value.digest !in held
    ensures Awaiting(h, witnessed, data)
  {
    hide LinearReader.ParseOts;
  }

  class Box {
    const w: ManifestChain.World
    const fate: nat -> Fate
    const story: Story
    var files: Files
    var ops: nat
    var held: map<Bytes, CopyName> // by sha256, the witnessed copies this pass could read
    ghost var cleared: Option<nat> // the start of the last pass that claimed whatever it found

    constructor (w: ManifestChain.World, fate: nat -> Fate, story: Story)
      requires WellNamed(w, story.start.witnessed)
      ensures this.w == w && this.fate == fate && this.story == story
      ensures files == story.start && ops == 0 && held == map[] && Valid()
    {
      this.w, this.fate, this.story := w, fate, story;
      files, ops, held, cleared := story.start, 0, map[], None;
      StartSourced(w, story, 0);
    }

    /** What holds at every stop of every history: nothing lost, nothing made up, copies named for what they hold. */
    ghost predicate Valid()
      reads this`files, this`ops, this`cleared
    {
      && WellNamed(w, files.witnessed) && Sourced(w, story, ops, files) && Conserved(w.h, story, ops, files)
      && (cleared.Some? ==> NewcomersOnly(story, cleared.value, files, ops))
    }

    ghost predicate HeldOk()
      reads this
    {
      HeldIn(w.h, held, files.witnessed)
    }

    /** Nothing fails from here on. */
    ghost predicate NoFaults()
      reads this`ops
    {
      forall k :: k >= ops ==> fate(k) == Works
    }

    /** What operation k leaves: the deliverers come first, and it may land. */
    function After(f: Files, op: FileOp, k: nat): Files {
      if Lands(fate(k)) then Effect(Arrived(f, story.acts(k)), op) else Arrived(f, story.acts(k))
    }

    /** One file operation. */
    method Do(op: FileOp) returns (end: End)
      requires Valid() && May(w, files, op)
      modifies this`files, this`ops
      ensures Valid() && Safe(w.h, old(files), files)
      ensures ops == old(ops) + 1 && end == EndOf(fate(old(ops))) && files == After(old(files), op, old(ops))
      ensures old(NoFaults()) ==>
                NoFaults() && end == Fine && files == Effect(Arrived(old(files), story.acts(old(ops))), op)
    {
      hide WellNamed, Sourced, Conserved, Safe, May, NewcomersOnly;
      if cleared.Some? { Newcomers(story, cleared.value, files, ops, op); }
      var f := fate(ops);
      var g := Arrived(files, story.acts(ops));
      MayStill(w, files, g, op);
      ActKeeps(w, story, ops, files);
      if Lands(f) {
        OpSafe(w, g, op);
        CopiesUnder(w.h, g, Effect(g, op));
        OpSourced(w, story, ops + 1, g, op);
        OpConserves(w, story, ops + 1, g, op);
        SafeThen(w.h, files, g, Effect(g, op));
        g := Effect(g, op);
      }
      files, ops, end := g, ops + 1, EndOf(f);
    }

    /** A read or a barrier: only the deliverers change a file. */
    method Look() returns (end: End)
      requires Valid()
      modifies this`files, this`ops
      ensures Valid() && Safe(w.h, old(files), files) && files == Arrived(old(files), story.acts(old(ops)))
      ensures ops == old(ops) + 1 && end == EndOf(fate(old(ops)))
      ensures old(NoFaults()) ==> NoFaults() && end == Fine
    {
      hide WellNamed, Sourced, Conserved, Safe, NewcomersOnly;
      if cleared.Some? { Newcomers(story, cleared.value, files, ops, Rename(Name([], false), 0)); }
      ActKeeps(w, story, ops, files);
      end := EndOf(fate(ops));
      files, ops := Arrived(files, story.acts(ops)), ops + 1;
    }

    /** _keep_foreign_proof, for a claimed proof of the copy; the caller removes the claim. */
    method KeepForeign(copy: CopyName, c: Claim) returns (end: End)
      requires Valid() && c in files.claims && c.name.proof
      requires copy in files.witnessed && Proves(w.h, files.claims[c], w.h.Digest(files.witnessed[copy]))
      modifies this`files, this`ops
      ensures ops >= old(ops)
      ensures Valid() && Safe(w.h, old(files), files)
      ensures files.claims == old(files.claims) && files.rejected == old(files.rejected)
      ensures files.witnessed == old(files.witnessed)
      ensures old(NoFaults()) ==> NoFaults() && end == Fine
      ensures end == Fine ==> AnsweredAt(w.h, files, copy, old(files.claims[c]))
    {
      hide Proves, ProofOf, Safe, Valid, NoFaults;
      var data, digest := files.claims[c], w.h.Digest(files.witnessed[copy]);
      SafeSelf(w.h, files, files);
      if copy in files.foreign {
        end := Look();
        ghost var looked := files;
        if end != Fine { return; }
        var proof := ProofOf(w.h, files.foreign[copy], digest);
        Reads(w.h, files.foreign[copy], digest);
        if proof.None? {
          end := Do(SetAside(copy));
          SafeThen(w.h, old(files), looked, files);
          if end != Fine { return; }
        } else if proof.value.Bitcoin? || !Anchors(w.h, data, digest) {
          end := Look();
          SafeThen(w.h, old(files), looked, files);
          return;
        }
      }
      ghost var middle := files;
      end := Do(Keep(copy, data));
      SafeThen(w.h, old(files), middle, files);
    }

    /** A claim moved to rejected/. */
    method Reject(c: Claim) returns (end: End)
      requires Valid() && c in files.claims && (c.name.proof || !IsManifest(w, files.claims[c]))
      modifies this`files, this`ops
      ensures ops >= old(ops)
      ensures Valid() && Safe(w.h, old(files), files)
      ensures files.witnessed == old(files.witnessed) && files.foreign == old(files.foreign)
      ensures forall d :: d in files.rejected ==> d in old(files.rejected) || d.name == c.name
      ensures files.claims == old(files.claims) || files.claims == old(files.claims) - {c}
      ensures old(NoFaults()) ==> NoFaults() && end == Fine
      ensures end == Fine ==> c !in files.claims
      ensures c !in files.claims ==> Delivery(c.name, old(files.claims[c])) in files.rejected
    {
      hide Safe, Valid;
      end := Do(Quarantine(c));
    }

    /** A claim gone, when what is held answers for it. */
    method Drop(c: Claim) returns (end: End)
      requires Valid() && May(w, files, Remove(c))
      modifies this`files, this`ops
      ensures ops >= old(ops)
      ensures Valid() && Safe(w.h, old(files), files)
      ensures files.witnessed == old(files.witnessed) && files.rejected == old(files.rejected)
      ensures files.claims == old(files.claims) || files.claims == old(files.claims) - {c}
      ensures old(NoFaults()) ==> NoFaults() && end == Fine
      ensures end == Fine ==> c !in files.claims
    {
      hide Safe, Valid, May;
      end := Do(Remove(c));
    }

    /** A proof of a held copy kept or answered for, then its claim gone. */
    method KeepAndDrop(copy: CopyName, c: Claim) returns (end: End)
      requires Valid() && c in files.claims && c.name.proof
      requires copy in files.witnessed && Proves(w.h, files.claims[c], w.h.Digest(files.witnessed[copy]))
      modifies this`files, this`ops
      ensures ops >= old(ops)
      ensures Valid() && Safe(w.h, old(files), files)
      ensures files.witnessed == old(files.witnessed) && files.rejected == old(files.rejected)
      ensures files.claims == old(files.claims) || files.claims == old(files.claims) - {c}
      ensures old(NoFaults()) ==> NoFaults() && end == Fine
      ensures c !in files.claims ==> Answered(w.h, files, old(files.claims[c]))
      ensures end == Fine ==> c !in files.claims
    {
      hide Safe, Valid, Proves, AnsweredAt, NoFaults;
      end := KeepForeign(copy, c);
      if end != Fine { return; }
      ghost var middle := files;
      assert Answered(w.h, files, files.claims[c]);
      end := Drop(c);
      AnsweredKept(w.h, middle, files, middle.claims[c]);
      SafeThen(w.h, old(files), middle, files);
    }

    /** _companion_claim: claimed beside the manifest, or by any run for its name. */
    method CompanionClaim(c: Claim) returns (companion: Option<Claim>)
      ensures companion.Some? ==> companion.value in files.claims && companion.value.name == Name(c.name.base, true)
      ensures companion.None? ==> forall d :: d in files.claims ==> d.name != Name(c.name.base, true)
    {
      var beside := Claim(c.token, Name(c.name.base, true));
      if beside in files.claims { return Some(beside); }
      if d :| d in files.claims && d.name == Name(c.name.base, true) { return Some(d); }
      return None;
    }

    /** A manifest's claim, and perhaps the one of the proof delivered beside it. */
    ghost predicate Pair(c: Claim, companion: Option<Claim>)
      reads this
    {
      && c in files.claims && !c.name.proof
      && (companion.Some? ==> companion.value in files.claims && companion.value.name == Name(c.name.base, true))
    }

    /**
     * What a step of the pass keeps that began with every copy read: nothing fails, and the proofs gone are settled.
     */
    ghost predicate Clean(claims: map<Claim, Bytes>, alone: bool, one: bool)
      reads this
    {
      && NoFaults() && HoldsAll(w.h, held, files.witnessed) && GoneSettled(w, files, claims, alone)
      && (one ==> Distinct(w.h, files.witnessed))
    }

    /** _consume_companion: the proof beside a manifest is kept, superseded or set aside, and either way gone. */
    method ConsumeCompanion(c: Claim, copy: CopyName, companion: Option<Claim>) returns (end: End)
      requires Valid() && Pair(c, companion) && copy in files.witnessed
      requires w.h.Digest(files.witnessed[copy]) == w.h.Digest(files.claims[c])
      modifies this`files, this`ops
      ensures ops >= old(ops)
      ensures Valid() && Safe(w.h, old(files), files) && files.witnessed == old(files.witnessed)
      ensures files.claims == old(files.claims)
              || (companion.Some? && files.claims == old(files.claims) - {companion.value})
      ensures old(NoFaults()) ==> NoFaults() && end == Fine
      ensures end == Fine && companion.Some? ==> companion.value !in files.claims
      ensures companion.Some? && companion.value !in files.claims ==>
                var data := old(files.claims[companion.value]);
                if Proves(w.h, data, w.h.Digest(files.witnessed[copy])) then Answered(w.h, files, data)
                else Delivery(companion.value.name, data) in files.rejected
    {
      hide Proves, ProofOf, Safe, Answered, Valid, NoFaults, Witnessed;
      SafeSelf(w.h, files, files);
      if companion.None? { return Fine; }
      end := Look();
      if end != Fine { return; }
      ghost var looked := files;
      var data, digest := files.claims[companion.value], w.h.Digest(files.witnessed[copy]);
      Reads(w.h, data, digest);
      if ProofOf(w.h, data, digest).None? {
        end := Reject(companion.value);
      } else {
        end := KeepAndDrop(copy, companion.value);
      }
      SafeThen(w.h, old(files), looked, files);
    }

    /** What the consumption of one manifest claim leaves, however it ends. */
    ghost predicate Consumed(a: Files, c: Claim)
      reads this
    {
      Valid() && Safe(w.h, a, files) && OnlyWithCompanion(a.claims, files.claims, c) && HeldOk()
    }

    ghost predicate Within(claims: map<Claim, Bytes>)
      reads this
    {
      forall d :: d in files.claims ==> d in claims && claims[d] == files.claims[d]
    }

    /** A claimed file that is not a manifest: its companion, then it, set aside. */
    method RejectManifest(c: Claim, companion: Option<Claim>, ghost claims: map<Claim, Bytes>, ghost one: bool)
      returns (end: End)
      requires Valid() && HeldOk() && Pair(c, companion) && !IsManifest(w, files.claims[c]) && Within(claims)
      modifies this`files, this`ops
      ensures ops >= old(ops)
      ensures Consumed(old(files), c) && files.witnessed == old(files.witnessed)
      ensures old(Clean(claims, false, one)) ==>
                && Clean(claims, false, one) && end == Fine && c !in files.claims
                && DealtWith(w, files, c.name, old(files.claims[c]))
    {
      hide Safe, IsManifest, Valid, NoFaults, GoneSettled, HoldsBut, HeldIn, Distinct, OnlyWithCompanion;
      OnlySelf(files.claims, c);
      SafeSelf(w.h, files, files);
      ghost var a := files;
      if companion.Some? {
        end := Look();
        ghost var looked := files;
        if end != Fine { return; }
        end := Reject(companion.value);
        SafeThen(w.h, a, looked, files);
        OnlyPair(a.claims, files.claims, c, companion);
        if end != Fine { return; }
      }
      ghost var middle := files;
      end := Reject(c);
      SafeThen(w.h, a, middle, files);
      OnlyPair(a.claims, files.claims, c, companion);
      if end == Fine {
        RejectedBelow(w, middle, files);
        PairSettled(w, a, files, c, companion, claims);
      }
    }

    /** A claim whose copy is held: its companion, then the claim itself, gone. */
    method FinishManifest(c: Claim, copy: CopyName, companion: Option<Claim>, ghost claims: map<Claim, Bytes>,
                          ghost one: bool)
      returns (end: End)
      requires Valid() && HeldOk() && Pair(c, companion) && Within(claims)
      requires copy in files.witnessed && w.h.Digest(files.witnessed[copy]) == w.h.Digest(files.claims[c])
      modifies this`files, this`ops
      ensures ops >= old(ops)
      ensures Consumed(old(files), c) && files.witnessed == old(files.witnessed)
      ensures old(Clean(claims, false, one)) ==> Clean(claims, false, one) && end == Fine && c !in files.claims
    {
      hide Safe, Valid, NoFaults, GoneSettled, Proves, Answered, HoldsBut, HeldIn, Distinct, OnlyWithCompanion;
      ghost var a := files;
      end := ConsumeCompanion(c, copy, companion);
      OnlyPair(a.claims, files.claims, c, companion);
      if end != Fine { return; }
      ghost var middle := files;
      assert Witnessed(w.h, files.witnessed, files.claims[c]);
      end := Drop(c);
      SafeThen(w.h, a, middle, files);
      OnlyPair(a.claims, files.claims, c, companion);
      if end == Fine { CompanionSettled(w, a, middle, files, c, companion, claims); }
    }

    /** The copy of new bytes, written under the name its own bytes give it. */
    method WriteCopy(c: Claim, ghost claims: map<Claim, Bytes>, ghost one: bool) returns (end: End, name: CopyName)
      requires Valid() && HeldOk() && c in files.claims && !c.name.proof && IsManifest(w, files.claims[c])
      requires w.h.Digest(files.claims[c]) !in held
      modifies this`files, this`ops, this`held
      ensures ops >= old(ops)
      ensures Valid() && HeldOk() && Safe(w.h, old(files), files) && files.claims == old(files.claims)
      ensures end == Fine ==> name in files.witnessed && files.witnessed[name] == files.claims[c]
      ensures old(Clean(claims, false, one)) ==> Clean(claims, false, one) && end == Fine
    {
      hide Safe, IsManifest, NoFaults, GoneSettled, Distinct, HoldsBut, HeldIn, Sourced, Conserved, CopyNameOf,
        WellNamed;
      var raw := files.claims[c];
      name := CopyNameOf(w, raw);
      ghost var a := files;
      end := Do(Copy(name, raw));
      SameClaims(w, a, files, claims);
      CopiesUnder(w.h, a, files);
      HeldStays(w.h, held, a, files);
      if end != Fine { return; }
      if HoldsAll(w.h, held, a.witnessed) { NewCopy(w, a.witnessed, held, raw); }
      HoldsOneMore(w.h, held, files.witnessed, {name}, name);
      assert {name} - {name} == {};
      held := held[w.h.Digest(raw) := name];
    }

    /** New bytes: the copy first, for it is the record. */
    method WitnessNew(c: Claim, companion: Option<Claim>, ghost claims: map<Claim, Bytes>, ghost one: bool)
      returns (end: End)
      requires Valid() && HeldOk() && Pair(c, companion) && IsManifest(w, files.claims[c]) && Within(claims)
      requires w.h.Digest(files.claims[c]) !in held
      modifies this`files, this`ops, this`held
      ensures ops >= old(ops)
      ensures Consumed(old(files), c)
      ensures old(Clean(claims, false, one)) ==>
                && Clean(claims, false, one) && end == Fine && c !in files.claims
                && Witnessed(w.h, files.witnessed, old(files.claims[c]))
    {
      hide Safe, IsManifest, Witnessed, HeldOk, Clean, Valid;
      ghost var a := files;
      var raw := files.claims[c];
      var name: CopyName;
      end, name := WriteCopy(c, claims, one);
      ghost var middle := files;
      if end != Fine { return; }
      end := FinishManifest(c, name, companion, claims, one);
      SafeThen(w.h, a, middle, files);
      IsWitnessed(w.h, files.witnessed, name, raw);
    }

    /** _consume_manifest. */
    method ConsumeManifest(c: Claim, ghost claims: map<Claim, Bytes>, ghost one: bool) returns (end: End)
      requires Valid() && HeldOk() && c in files.claims && !c.name.proof && Within(claims)
      modifies this`files, this`ops, this`held
      ensures ops >= old(ops)
      ensures Consumed(old(files), c)
      ensures old(Clean(claims, false, one)) ==>
                && Clean(claims, false, one) && end == Fine && c !in files.claims
                && DealtWith(w, files, c.name, old(files.claims[c]))
    {
      hide Safe, IsManifest, Witnessed, NoFaults, GoneSettled, Valid, HoldsBut, Distinct, OnlyWithCompanion;
      ghost var a := files;
      end := Look();
      ghost var looked := files;
      OnlySelf(a.claims, c);
      if end != Fine { return; }
      GoneLooked(w, a, looked, claims, false);
      var raw := files.claims[c];
      var companion := CompanionClaim(c);
      if !IsManifest(w, raw) {
        end := RejectManifest(c, companion, claims, one);
      } else if w.h.Digest(raw) in held {
        var copy := held[w.h.Digest(raw)];
        end := Look();
        ghost var again := files;
        SafeThen(w.h, a, looked, again);
        GoneLooked(w, looked, again, claims, false);
        if end != Fine { return; }
        end := FinishManifest(c, copy, companion, claims, one);
        IsWitnessed(w.h, files.witnessed, copy, raw);
        SafeThen(w.h, a, again, files);
        return;
      } else {
        end := WitnessNew(c, companion, claims, one);
      }
      SafeThen(w.h, a, looked, files);
    }

    /** _consume_orphan_proof. */
    method ConsumeProof(c: Claim, ghost claims: map<Claim, Bytes>, ghost one: bool) returns (end: End)
      requires Valid() && HeldOk() && c in files.claims && c.name.proof && Within(claims)
      modifies this`files, this`ops
      ensures ops >= old(ops)
      ensures Valid() && HeldOk() && Safe(w.h, old(files), files) && files.witnessed == old(files.witnessed)
      ensures files.claims == old(files.claims) || files.claims == old(files.claims) - {c}
      ensures forall d :: d in files.rejected ==> d in old(files.rejected) || d.name.proof
      ensures old(Clean(claims, true, one)) ==> Clean(claims, true, one) && end == Fine
      ensures old(Clean(claims, true, one)) ==>
                (c in files.claims <==> old(Left(w.h, files, c.name.base, files.claims[c])))
    {
      hide Safe, Valid, NoFaults, GoneSettled, Answered, LinearReader.ParseOts, WasRejected, Proves;
      ghost var a := files;
      end := Look();
      ghost var looked := files;
      GoneLooked(w, a, looked, claims, true);
      if end != Fine { return; }
      var data := files.claims[c];
      var proof := LinearReader.ParseOts(w.h, data);
      if proof.Failure? {
        end := Reject(c);
      } else if proof.value.digest !in held {
        if HoldsAll(w.h, held, files.witnessed) { NoneFits(w.h, held, files.witnessed, data); }
        if !WasRejected(files.rejected, c.name.base) { return; }
        end := Reject(c);
      } else {
        Fits(w.h, data);
        assert !Awaiting(w.h, files.witnessed, data);
        end := KeepAndDrop(held[proof.value.digest], c);
      }
      SafeThen(w.h, a, looked, files);
      if HoldsAll(w.h, held, looked.witnessed) { ProofSettled(w, looked, files, c, claims); }
    }

    /** The names now under their delivered name, of one kind, in some order. */
    method Delivered(proof: bool) returns (names: seq<Name>)
      ensures forall n :: n in names <==> n in files.inbox && n.proof == proof
      ensures forall i, j :: 0 <= i < j < |names| ==> names[i] != names[j]
    {
      var left := set n | n in files.inbox && n.proof == proof;
      names := [];
      while left != {}
        invariant forall n :: n in files.inbox && n.proof == proof <==> n in left || n in names
        invariant forall n :: n in left ==> n !in names
        invariant forall i, j :: 0 <= i < j < |names| ==> names[i] != names[j]
        decreases |left|
      {
        var n :| n in left;
        left, names := left - {n}, names + [n];
      }
    }

    /** _claims: the claims of one kind, in some order. */
    method Claims(proof: bool) returns (order: seq<Claim>)
      ensures forall c :: c in order <==> c in files.claims && c.name.proof == proof
      ensures forall i, j :: 0 <= i < j < |order| ==> order[i] != order[j]
    {
      var left := set c | c in files.claims && c.name.proof == proof;
      order := [];
      while left != {}
        invariant forall c :: c in files.claims && c.name.proof == proof <==> c in left || c in order
        invariant forall c :: c in left ==> c !in order
        invariant forall i, j :: 0 <= i < j < |order| ==> order[i] != order[j]
        decreases |left|
      {
        var c :| c in left;
        left, order := left - {c}, order + [c];
      }
    }

    /** _copies_by_digest: every copy that can be read. */
    method ReadCopies() returns (end: End)
      requires Valid()
      modifies this`files, this`ops, this`held
      ensures ops >= old(ops)
      ensures Valid() && Safe(w.h, old(files), files) && files == old(files).(inbox := files.inbox)
      ensures end == Fine ==> HeldOk()
      ensures old(NoFaults()) ==> NoFaults() && end == Fine && HoldsAll(w.h, held, files.witnessed)
    {
      hide Safe, Valid, NoFaults, HeldIn, HoldsBut;
      ghost var a := files;
      held := map[];
      HoldsNone(w.h, held, files.witnessed);
      end := Look();
      if end != Fine { return; }
      ghost var copies := files.witnessed;
      var left := files.witnessed.Keys;
      while left != {}
        invariant ops >= old(ops) && Valid() && Safe(w.h, a, files) && files == a.(inbox := files.inbox)
        invariant left <= copies.Keys && HeldIn(w.h, held, copies)
        invariant old(NoFaults()) ==> NoFaults() && HoldsBut(w.h, held, copies, left)
        decreases |left|
      {
        var n :| n in left;
        ghost var before := files;
        end := Look();
        SafeThen(w.h, a, before, files);
        if end == Stopped { return; }
        HoldsOneMore(w.h, held, copies, left, n);
        left := left - {n};
        if end == Fine { held := held[w.h.Digest(files.witnessed[n]) := n]; }
      }
      return Fine;
    }

    // --- claiming --------------------------------------------------------------------------------

    ghost predicate ClaimedSince(a: Files, from: nat, token: nat)
      reads this`files, this`ops
    {
      ClaimedFrom(story, a, from, files, ops, token)
    }

    ghost predicate AllSince(a: Files, from: nat, token: nat, proof: bool, but: set<Name>)
      reads this`files, this`ops
    {
      AllClaimed(story, a, from, files, ops, token, proof, but)
    }

    /** One rename, or the delivery left where it is. */
    method ClaimOne(n: Name, token: nat, ghost a: Files, ghost from: nat, ghost but: set<Name>) returns (end: End)
      requires Valid() && ClaimedSince(a, from, token) && Claim(token, n) !in files.claims
      modifies this`files, this`ops
      ensures ops >= old(ops)
      ensures Valid() && Safe(w.h, old(files), files) && ClaimedSince(a, from, token)
      ensures forall c :: c in files.claims ==> c in old(files.claims) || c == Claim(token, n)
      ensures old(NoFaults()) ==> NoFaults() && end == Fine
      ensures old(NoFaults() && AllSince(a, from, token, n.proof, but)) ==> AllSince(a, from, token, n.proof, but - {n})
      ensures old(NoFaults() && AllSince(a, from, token, !n.proof, {})) ==> AllSince(a, from, token, !n.proof, {})
    {
      hide Safe, Valid, ClaimedFrom, AllClaimed, Arrived;
      ActClaims(story, a, from, files, ops, token, n.proof, but);
      ActClaims(story, a, from, files, ops, token, !n.proof, {});
      ghost var g := Arrived(files, story.acts(ops));
      assert g.claims == files.claims by { ArrivedClaims(files, story.acts(ops)); }
      RenameClaims(story, a, from, g, ops + 1, token, n, but);
      end := Do(Rename(n, token));
    }

    /** _claim, for the deliveries of one kind. */
    method ClaimKind(proof: bool, token: nat, ghost a: Files, ghost from: nat) returns (end: End, failures: nat)
      requires Valid() && ClaimedSince(a, from, token)
      requires forall c :: c in files.claims && c.token == token ==> c.name.proof != proof
      modifies this`files, this`ops
      ensures ops >= old(ops)
      ensures Valid() && Safe(w.h, old(files), files) && ClaimedSince(a, from, token)
      ensures forall c :: c in files.claims && c.token == token && c.name.proof != proof ==> c in old(files.claims)
      ensures old(NoFaults()) ==> NoFaults() && end == Fine && failures == 0 && AllSince(a, from, token, proof, {})
      ensures old(NoFaults() && AllSince(a, from, token, !proof, {})) ==> AllSince(a, from, token, !proof, {})
    {
      hide Safe, Valid, NoFaults, ClaimedFrom, AllClaimed;
      failures := 0;
      ActClaims(story, a, from, files, ops, token, !proof, {});
      ghost var start := files;
      end := Look();
      if end != Fine { return; }
      var names := Delivered(proof);
      ghost var left := AsSet(names);
      ListedClaims(story, a, from, files, ops, token, proof, left);
      var i := 0;
      while i < |names|
        invariant 0 <= i <= |names| && end != Stopped && ops >= old(ops)
        invariant Valid() && Safe(w.h, start, files) && ClaimedSince(a, from, token)
        invariant left == AsSet(names[i..])
        invariant forall c :: c in files.claims && c.token == token && c.name.proof == proof ==> c.name in names[..i]
        invariant forall c :: c in files.claims && c.token == token && c.name.proof != proof ==> c in start.claims
        invariant old(NoFaults()) ==> NoFaults() && failures == 0 && AllSince(a, from, token, proof, left)
        invariant old(NoFaults() && AllSince(a, from, token, !proof, {})) ==> AllSince(a, from, token, !proof, {})
      {
        ghost var before := files;
        OneFewer(names, i);
        end := ClaimOne(names[i], token, a, from, left);
        SafeThen(w.h, start, before, files);
        left := left - {names[i]};
        if end == Stopped { return; }
        if end == Error { failures := failures + 1; }
        i := i + 1;
      }
      assert left == {};
      return Fine, failures;
    }

    /** _claim: every delivery under a final name, manifests first. */
    method ClaimAll(token: nat) returns (end: End, failures: nat)
      requires Valid() && forall c :: c in files.claims ==> c.token != token
      modifies this`files, this`ops, this`cleared
      ensures ops >= old(ops)
      ensures Valid() && Safe(w.h, old(files), files) && ClaimedSince(old(files), old(ops), token)
      ensures old(NoFaults()) ==> NoFaults() && end == Fine && failures == 0 && cleared == Some(old(ops))
      ensures old(NoFaults()) ==> forall d :: Here(old(files), d) ==>
                InClaims(files.claims, d) || Withdrawn(story, d, old(ops), ops)
    {
      hide Safe, WellNamed, Sourced, Conserved, NoFaults, AllClaimed, ClaimedFrom;
      ghost var start, from := files, ops;
      StartClaims(story, start, from, token);
      end, failures := ClaimKind(false, token, start, from);
      ghost var claimed := files;
      if end != Fine { return; }
      var more: nat;
      end, more := ClaimKind(true, token, start, from);
      failures := failures + more;
      SafeThen(w.h, start, claimed, files);
      if AllSince(start, from, token, false, {}) && AllSince(start, from, token, true, {}) {
        AllGone(story, start, from, files, ops, token);
        cleared := Some(from);
      }
    }

    /** Every claimed manifest in turn; one that fails does not stop the others. */
    method ConsumeManifests(order: seq<Claim>, ghost claims: map<Claim, Bytes>, ghost one: bool)
      returns (end: End, failures: nat)
      requires Valid() && HeldOk() && Within(claims) && (forall c :: c in order ==> c in files.claims && !c.name.proof)
      requires forall i, j :: 0 <= i < j < |order| ==> order[i] != order[j]
      modifies this`files, this`ops, this`held
      ensures ops >= old(ops)
      ensures Valid() && HeldOk() && Within(claims) && Safe(w.h, old(files), files) && end != Error
      ensures forall c :: c in files.claims ==> c in old(files.claims)
      ensures old(Clean(claims, false, one)) ==>
                && Clean(claims, false, one) && end == Fine && failures == 0
                && forall c :: c in order ==> c !in files.claims && DealtWith(w, files, c.name, claims[c])
    {
      hide Safe, DealtWith, Valid, Clean, HeldOk;
      failures := 0;
      SafeSelf(w.h, files, files);
      ghost var a := files;
      var i := 0;
      while i < |order|
        invariant 0 <= i <= |order| && ops >= old(ops) && Valid() && HeldOk() && Within(claims) && Safe(w.h, a, files)
        invariant forall c :: c in files.claims ==> c in a.claims
        invariant forall j :: i <= j < |order| ==> order[j] in files.claims
        invariant old(Clean(claims, false, one)) ==> Clean(claims, false, one) && failures == 0
        invariant old(Clean(claims, false, one)) ==>
                    forall j :: 0 <= j < i ==>
                        order[j] !in files.claims && DealtWith(w, files, order[j].name, claims[order[j]])
      {
        ghost var before := files;
        end := ConsumeManifest(order[i], claims, one);
        SafeThen(w.h, a, before, files);
        AllStayDealtWith(w, before, files, order[..i], claims);
        if end == Stopped { return; }
        if end == Error { failures := failures + 1; }
        i := i + 1;
      }
      return Fine, failures;
    }

    /** Every proof whose manifest is not still claimed beside it. */
    method ConsumeProofs(order: seq<Claim>, ghost claims: map<Claim, Bytes>, ghost one: bool)
      returns (end: End, failures: nat)
      requires Valid() && HeldOk() && Within(claims) && (forall c :: c in order ==> c in files.claims && c.name.proof)
      requires forall i, j :: 0 <= i < j < |order| ==> order[i] != order[j]
      modifies this`files, this`ops
      ensures ops >= old(ops)
      ensures Valid() && Within(claims) && Safe(w.h, old(files), files) && end != Error
      ensures files.witnessed == old(files.witnessed) && forall c :: c in files.claims ==> c in old(files.claims)
      ensures old(Clean(claims, true, one)) ==> Clean(claims, true, one) && end == Fine && failures == 0
      ensures forall base :: WasRejected(files.rejected, base) <==> WasRejected(old(files.rejected), base)
      ensures old(Clean(claims, true, one)) && (forall c :: c in old(files.claims) ==> c.name.proof) ==>
                forall c :: c in order ==> (c in files.claims <==> Left(w.h, files, c.name.base, claims[c]))
    {
      hide Safe, Awaiting, WasRejected, Valid, Clean, HeldOk;
      failures := 0;
      SafeSelf(w.h, files, files);
      ghost var a := files;
      var i := 0;
      while i < |order|
        invariant 0 <= i <= |order| && ops >= old(ops) && Valid() && HeldOk() && Within(claims) && Safe(w.h, a, files)
        invariant files.witnessed == a.witnessed && forall c :: c in files.claims ==> c in a.claims
        invariant forall j :: i <= j < |order| ==> order[j] in files.claims
        invariant old(Clean(claims, true, one)) ==> Clean(claims, true, one) && failures == 0
        invariant forall base :: WasRejected(files.rejected, base) <==> WasRejected(a.rejected, base)
        invariant old(Clean(claims, true, one)) && (forall c :: c in a.claims ==> c.name.proof) ==>
                    forall j :: 0 <= j < i ==>
                      (order[j] in files.claims <==> Left(w.h, a, order[j].name.base, claims[order[j]]))
      {
        var c := order[i];
        i := i + 1;
        if Claim(c.token, Name(c.name.base, false)) in files.claims { continue; }
        ghost var before := files;
        end := ConsumeProof(c, claims, one);
        RejectedBelow(w, before, files);
        ProofsDoNotReject(before.rejected, files.rejected);
        SafeThen(w.h, a, before, files);
        if end == Stopped { return; }
        if end == Error { failures := failures + 1; }
      }
      return Fine, failures;
    }

    /** The proofs left alone, listed only once the manifests are consumed, then the barrier of what was removed. */
    method ConsumeAlone(ghost claims: map<Claim, Bytes>, ghost one: bool) returns (end: End, failures: nat)
      requires Valid() && HeldOk() && Within(claims)
      modifies this`files, this`ops
      ensures ops >= old(ops)
      ensures Valid() && Within(claims) && Safe(w.h, old(files), files) && end != Error
      ensures old(Clean(claims, false, one)) ==> Clean(claims, true, one) && end == Fine && failures == 0
      ensures old(Clean(claims, false, one)) && (forall c :: c in old(files.claims) ==> c.name.proof) ==>
                && (forall c :: c in old(files.claims) ==>
                                  (c in files.claims <==> Left(w.h, files, c.name.base, claims[c])))
                && forall c :: c in files.claims ==> c in old(files.claims)
    {
      hide Safe, Awaiting, WasRejected, Valid, Distinct, HoldsBut, HeldIn, GoneSettled, NoFaults;
      ghost var a := files;
      end := Look();
      ghost var listed := files;
      GoneLooked(w, a, listed, claims, false);
      if GoneSettled(w, listed, claims, false) { NowAlone(w, listed, claims); }
      if end == Stopped { return end, 0; }
      if end == Error { return Fine, 1; }
      var proofs := Claims(true);
      end, failures := ConsumeProofs(proofs, claims, one);
      ghost var last := files;
      SafeThen(w.h, a, listed, last);
      if end == Stopped { return; }
      end := Look();
      SafeThen(w.h, a, last, files);
      GoneLooked(w, last, files, claims, true);
      if end == Error { return Fine, failures + 1; }
    }

    /** The claims: manifests, then the proofs left alone. */
    method ConsumeAll() returns (end: End, failures: nat)
      requires Valid()
      modifies this`files, this`ops, this`held
      ensures ops >= old(ops)
      ensures Valid() && Safe(w.h, old(files), files)
      ensures old(NoFaults()) ==>
                && NoFaults() && end == Fine && failures == 0 && AllSettled(w, files, old(files.claims))
                && (Distinct(w.h, old(files.witnessed)) ==> Distinct(w.h, files.witnessed))
    {
      hide Safe, DealtWith, Left, Valid, Distinct, HoldsBut, HeldIn, GoneSettled, NoFaults;
      ghost var start, one := files, Distinct(w.h, files.witnessed);
      end := Look();
      if end == Stopped { return end, 0; }
      if end == Error { return Fine, 1; }
      var manifests := Claims(false);
      ghost var listed := files;
      end := ReadCopies();
      failures := 0;
      ghost var ready := files;
      SafeThen(w.h, start, listed, ready);
      if end != Fine { return; }
      NoneGone(w, files, start.claims);
      end, failures := ConsumeManifests(manifests, start.claims, one);
      ghost var consumed := files;
      SafeThen(w.h, start, ready, consumed);
      if end == Stopped { return; }
      var more: nat;
      end, more := ConsumeAlone(start.claims, one);
      failures := failures + more;
      SafeThen(w.h, start, consumed, files);
      AllStayDealtWith(w, consumed, files, manifests, start.claims);
    }

    /**
     * witness_inbox. Whatever raises, wherever the process stops and whatever is delivered meanwhile: nothing claimed
     * is lost, nothing under its delivered name goes but by a deliverer's act, no copy changes, and no proof beside a
     * copy gives way but to one that says more. When nothing fails, whatever was there is claimed or withdrawn,
     * everything claimed is dealt with, all that is still in the inbox came during the pass, and no bytes get a second
     * copy.
     */
    method WitnessInbox(token: nat) returns (end: End, failures: nat, ghost claims: map<Claim, Bytes>)
      requires Valid() && forall c :: c in files.claims ==> c.token != token
      modifies this
      ensures ops >= old(ops)
      ensures Valid() && Safe(w.h, old(files), files)
      ensures forall c :: c in old(files.claims) ==> c in claims && claims[c] == old(files.claims[c])
      ensures old(NoFaults()) ==>
                && end == Fine && failures == 0 && AllSettled(w, files, claims)
                && (forall d :: Here(old(files), d) ==> InClaims(claims, d) || Withdrawn(story, d, old(ops), ops))
                && (forall d :: Here(files, d) ==> PutIn(story, d, old(ops), ops))
                && (Distinct(w.h, old(files.witnessed)) ==> Distinct(w.h, files.witnessed))
    {
      hide Safe, AllSettled, WellNamed, Sourced, Conserved, Distinct, ClaimedFrom, Here, Withdrawn, PutIn, InClaims;
      ghost var start, from := files, ops;
      claims := files.claims;
      end := Look();
      ghost var looked := files;
      if end == Stopped { return end, 0, claims; }
      if end == Error { return Fine, 1, claims; }
      ghost var begun := ops;
      end, failures := ClaimAll(token);
      ghost var all, claimed := files, ops;
      SafeThen(w.h, start, looked, all);
      claims := files.claims;
      ClaimsStay(story, looked, begun, all, claimed, token);
      if old(NoFaults()) { WithdrawnSince(story, start, from, claimed, claims); }
      if end == Stopped { return; }
      if end == Error { return Fine, 1, claims; }
      var more: nat;
      end, more := ConsumeAll();
      failures := failures + more;
      SafeThen(w.h, start, all, files);
      if old(NoFaults()) {
        WithdrawnUntil(story, start, from, claimed, ops, claims);
        NewcomersSince(story, from, files, ops);
      }
    }
  }

  /** An operation that may be done may be done whatever the deliverers do first. */
  lemma MayStill(w: ManifestChain.World, f: Files, g: Files, op: FileOp)
    requires May(w, f, op) && g == f.(inbox := g.inbox)
    ensures May(w, g, op)
  {
    hide Proves, Anchors, IsManifest;
    if op.Remove? && op.claim.name.proof {
      var n :| AnsweredAt(w.h, f, n, f.claims[op.claim]);
      assert AnsweredAt(w.h, g, n, f.claims[op.claim]);
    }
  }

  lemma ActKeeps(w: ManifestChain.World, s: Story, t: nat, f: Files)
    requires WellNamed(w, f.witnessed) && Sourced(w, s, t, f) && Conserved(w.h, s, t, f)
    ensures var g := Arrived(f, s.acts(t));
            Safe(w.h, f, g) && WellNamed(w, g.witnessed) && Sourced(w, s, t + 1, g) && Conserved(w.h, s, t + 1, g)
  {
    hide WellNamed, Sourced, Conserved, Safe;
    ActSourced(w, s, t, f);
    ActConserves(w.h, s, t, f);
    SafeSelf(w.h, f, Arrived(f, s.acts(t)));
  }

  /** Every delivery there came at operation `from` or later. */
  ghost predicate NewcomersOnly(s: Story, from: nat, f: Files, t: nat) {
    from <= t && forall d :: Here(f, d) ==> PutIn(s, d, from, t)
  }

  lemma Newcomers(s: Story, from: nat, f: Files, t: nat, op: FileOp)
    requires NewcomersOnly(s, from, f, t)
    ensures NewcomersOnly(s, from, Arrived(f, s.acts(t)), t + 1)
    ensures NewcomersOnly(s, from, Effect(Arrived(f, s.acts(t)), op), t + 1)
  {
    hide PutIn;
    forall d | Here(Arrived(f, s.acts(t)), d) ensures PutIn(s, d, from, t + 1) { DeliversOrNot(s, f, from, t, d); }
  }

  lemma CopiesUnder(h: HashFn, a: Files, b: Files)
    requires Safe(h, a, b)
    ensures CopiesKept(h, a, b)
  {
    hide Taken, CopiesKept, ForeignKept;
  }

  lemma Reads(h: HashFn, data: Bytes, digest: Bytes)
    ensures Proves(h, data, digest) <==> ProofOf(h, data, digest).Some?
  {
    hide ProofOf;
  }

  lemma RejectedBelow(w: ManifestChain.World, a: Files, b: Files)
    requires Safe(w.h, a, b)
    ensures a.rejected <= b.rejected
  {
    hide Taken, CopiesKept, ForeignKept;
  }

  /** A manifest set aside after its companion settles both. */
  lemma PairSettled(w: ManifestChain.World, a: Files, b: Files, c: Claim, companion: Option<Claim>,
                    claims: map<Claim, Bytes>)
    requires Safe(w.h, a, b) && c in a.claims && !c.name.proof && !IsManifest(w, a.claims[c])
    requires forall d :: d in a.claims ==> d in claims && claims[d] == a.claims[d]
    requires companion.Some? ==>
               && companion.value in a.claims && companion.value.name == Name(c.name.base, true)
               && Delivery(companion.value.name, a.claims[companion.value]) in b.rejected
    requires forall d :: d in a.claims && d !in b.claims ==> d == c || Some(d) == companion
    ensures GoneSettled(w, a, claims, false) ==> GoneSettled(w, b, claims, false)
  {
    hide Safe, Answered, Proves, IsManifest, WasRejected, GoneSettled;
    assert c in claims && c.name == Name(c.name.base, false);
    if GoneSettled(w, a, claims, false) { GoneStaySettled(w, a, b, claims, false); }
  }

  /** A companion answered for, or set aside because it proves other bytes than its manifest's, is settled. */
  lemma CompanionSettled(w: ManifestChain.World, a: Files, b: Files, f: Files, c: Claim, companion: Option<Claim>,
                         claims: map<Claim, Bytes>)
    requires Safe(w.h, a, f) && Safe(w.h, b, f) && c in a.claims && !c.name.proof
    requires forall d :: d in a.claims ==> d in claims && claims[d] == a.claims[d]
    requires companion.Some? ==>
               && companion.value in a.claims && companion.value.name == Name(c.name.base, true)
               && var data := a.claims[companion.value];
                  if Proves(w.h, data, w.h.Digest(a.claims[c])) then Answered(w.h, b, data)
                  else Delivery(companion.value.name, data) in b.rejected
    requires forall d :: d in a.claims && d !in f.claims ==> d == c || Some(d) == companion
    ensures GoneSettled(w, a, claims, false) ==> GoneSettled(w, f, claims, false)
  {
    hide Safe, Answered, Proves, IsManifest, WasRejected, GoneSettled, LinearReader.ParseOts;
    RejectedBelow(w, b, f);
    if companion.Some? {
      var data := a.claims[companion.value];
      if Proves(w.h, data, w.h.Digest(a.claims[c])) {
        AnsweredKept(w.h, b, f, data);
      } else {
        assert c in claims && c.name == Name(c.name.base, false);
      }
    }
    if GoneSettled(w, a, claims, false) { GoneStaySettled(w, a, f, claims, false); }
  }

  lemma IsWitnessed(h: HashFn, witnessed: map<CopyName, Bytes>, n: CopyName, raw: Bytes)
    requires n in witnessed && h.Digest(witnessed[n]) == h.Digest(raw)
    ensures Witnessed(h, witnessed, raw)
  {
  }

  lemma GoneLooked(w: ManifestChain.World, a: Files, b: Files, claims: map<Claim, Bytes>, alone: bool)
    requires b == a.(inbox := b.inbox)
    ensures GoneSettled(w, a, claims, alone) ==> GoneSettled(w, b, claims, alone)
  {
    hide Safe, Settled;
    SafeSelf(w.h, a, b);
    if GoneSettled(w, a, claims, alone) { GoneStaySettled(w, a, b, claims, alone); }
  }

  lemma SameClaims(w: ManifestChain.World, a: Files, b: Files, claims: map<Claim, Bytes>)
    requires Safe(w.h, a, b) && b.claims == a.claims
    ensures GoneSettled(w, a, claims, false) ==> GoneSettled(w, b, claims, false)
  {
    hide Safe, Settled;
    if GoneSettled(w, a, claims, false) { GoneStaySettled(w, a, b, claims, false); }
  }

  lemma Fits(h: HashFn, data: Bytes)
    requires LinearReader.ParseOts(h, data).Success?
    ensures Proves(h, data, LinearReader.ParseOts(h, data).value.digest)
  {
    hide LinearReader.ParseOts;
  }

  /** A proof left alone and gone is settled. */
  lemma ProofSettled(w: ManifestChain.World, a: Files, b: Files, c: Claim, claims: map<Claim, Bytes>)
    requires Safe(w.h, a, b) && c in a.claims && c in claims && claims[c] == a.claims[c]
    requires b.claims == a.claims || b.claims == a.claims - {c}
    requires b.witnessed == a.witnessed
    requires c !in b.claims ==>
               || Answered(w.h, b, claims[c])
               || (Delivery(c.name, claims[c]) in b.rejected
                   && (LinearReader.ParseOts(w.h, claims[c]).Failure?
                       || (WasRejected(a.rejected, c.name.base) && Awaiting(w.h, a.witnessed, claims[c]))))
    ensures GoneSettled(w, a, claims, true) ==> GoneSettled(w, b, claims, true)
  {
    hide Safe, Answered, EndsIn, LinearReader.ParseOts, GoneSettled, Awaiting, BesideAnother;
    RejectedBelow(w, a, b);
    if GoneSettled(w, a, claims, true) { GoneStaySettled(w, a, b, claims, true); }
  }

  lemma NowAlone(w: ManifestChain.World, f: Files, claims: map<Claim, Bytes>)
    requires GoneSettled(w, f, claims, false)
    ensures GoneSettled(w, f, claims, true)
  {
    hide Answered, BesideAnother, Awaiting, LinearReader.ParseOts, WasRejected;
  }

  // --- claiming ----------------------------------------------------------------------------------

  /** A delivery claimed under the token. */
  ghost predicate ClaimedAs(f: Files, token: nat, d: Delivery) {
    Claim(token, d.name) in f.claims && f.claims[Claim(token, d.name)] == d.data
  }

  /** From files a at operation `from`: every delivery of then is under its name, claimed, or withdrawn since. */
  ghost predicate ClaimedFrom(s: Story, a: Files, from: nat, f: Files, t: nat, token: nat) {
    && from <= t && f == a.(inbox := f.inbox, claims := f.claims)
    && (forall c :: c in a.claims ==> c in f.claims && f.claims[c] == a.claims[c])
    && (forall c :: c in f.claims ==> c in a.claims || c.token == token)
    && (forall d :: Here(a, d) ==> Here(f, d) || ClaimedAs(f, token, d) || Withdrawn(s, d, from, t))
    && (forall d :: Here(f, d) ==> Here(a, d) || PutIn(s, d, from, t))
  }

  /** Of one kind, but for some names, nothing is left of then: claimed or withdrawn; and what is there came since. */
  ghost predicate AllClaimed(s: Story, a: Files, from: nat, f: Files, t: nat, token: nat, proof: bool, but: set<Name>) {
    && (forall d :: Here(a, d) && d.name.proof == proof ==>
                      (Here(f, d) && d.name in but) || ClaimedAs(f, token, d) || Withdrawn(s, d, from, t))
    && (forall d :: Here(f, d) && d.name.proof == proof ==> d.name in but || PutIn(s, d, from, t))
  }

  lemma ArrivedClaims(f: Files, act: Act)
    ensures Arrived(f, act) == f.(inbox := Arrived(f, act).inbox)
  {
  }

  /** What the deliverers do to each delivery before one operation. */
  lemma DeliversOrNot(s: Story, f: Files, from: nat, t: nat, d: Delivery)
    requires from <= t
    ensures Here(f, d) ==> Here(Arrived(f, s.acts(t)), d) || Withdrawn(s, d, from, t + 1)
    ensures Here(Arrived(f, s.acts(t)), d) ==> Here(f, d) || PutIn(s, d, from, t + 1)
    ensures Withdrawn(s, d, from, t) ==> Withdrawn(s, d, from, t + 1)
    ensures PutIn(s, d, from, t) ==> PutIn(s, d, from, t + 1)
  {
    if Withdraws(s.acts(t), d) { assert Withdrawn(s, d, from, t + 1); }
    if Puts(s.acts(t), d) { assert PutIn(s, d, from, t + 1); }
  }

  lemma ActClaims(s: Story, a: Files, from: nat, f: Files, t: nat, token: nat, proof: bool, but: set<Name>)
    requires ClaimedFrom(s, a, from, f, t, token)
    ensures var g := Arrived(f, s.acts(t));
            && ClaimedFrom(s, a, from, g, t + 1, token)
            && (AllClaimed(s, a, from, f, t, token, proof, but) ==> AllClaimed(s, a, from, g, t + 1, token, proof, but))
  {
    hide Withdrawn, PutIn, Here;
    forall d ensures var g := Arrived(f, s.acts(t));
                     && (Here(f, d) ==> Here(g, d) || Withdrawn(s, d, from, t + 1))
                     && (Here(g, d) ==> Here(f, d) || PutIn(s, d, from, t + 1))
                     && (Withdrawn(s, d, from, t) ==> Withdrawn(s, d, from, t + 1))
                     && (PutIn(s, d, from, t) ==> PutIn(s, d, from, t + 1)) {
      DeliversOrNot(s, f, from, t, d);
    }
  }

  lemma RenamedOrNot(f: Files, n: Name, token: nat, d: Delivery)
    requires Claim(token, n) !in f.claims
    ensures var g := Effect(f, Rename(n, token));
            && (Here(f, d) ==> (Here(g, d) && d.name != n) || ClaimedAs(g, token, d))
            && (Here(g, d) ==> Here(f, d) && d.name != n)
            && (ClaimedAs(f, token, d) ==> ClaimedAs(g, token, d))
  {
  }

  lemma RenameClaims(s: Story, a: Files, from: nat, f: Files, t: nat, token: nat, n: Name, but: set<Name>)
    requires ClaimedFrom(s, a, from, f, t, token) && Claim(token, n) !in f.claims
    ensures var g := Effect(f, Rename(n, token));
            && ClaimedFrom(s, a, from, g, t, token)
            && (forall c :: c in g.claims ==> c in f.claims || c == Claim(token, n))
            && (AllClaimed(s, a, from, f, t, token, n.proof, but) ==>
                  AllClaimed(s, a, from, g, t, token, n.proof, but - {n}))
            && (AllClaimed(s, a, from, f, t, token, !n.proof, {}) ==> AllClaimed(s, a, from, g, t, token, !n.proof, {}))
  {
    hide Withdrawn, PutIn, Here, ClaimedAs;
    forall d ensures var g := Effect(f, Rename(n, token));
                     && (Here(f, d) ==> (Here(g, d) && d.name != n) || ClaimedAs(g, token, d))
                     && (Here(g, d) ==> Here(f, d) && d.name != n)
                     && (ClaimedAs(f, token, d) ==> ClaimedAs(g, token, d)) {
      RenamedOrNot(f, n, token, d);
    }
  }

  /** What a listing leaves to be claimed. */
  lemma ListedClaims(s: Story, a: Files, from: nat, f: Files, t: nat, token: nat, proof: bool, names: set<Name>)
    requires ClaimedFrom(s, a, from, f, t, token) && forall n :: n in f.inbox && n.proof == proof ==> n in names
    requires forall c :: c in f.claims && c.token == token ==> c.name.proof != proof
    ensures AllClaimed(s, a, from, f, t, token, proof, names)
  {
    hide Withdrawn, PutIn;
  }

  ghost function AsSet(names: seq<Name>): set<Name> {
    set n | n in names
  }

  lemma OneFewer(names: seq<Name>, i: nat)
    requires i < |names| && forall j, k :: 0 <= j < k < |names| ==> names[j] != names[k]
    ensures AsSet(names[i..]) - {names[i]} == AsSet(names[i + 1..])
    ensures names[i] !in names[..i] && names[..i + 1] == names[..i] + [names[i]]
  {
    assert names[i..] == [names[i]] + names[i + 1..];
  }

  lemma StartClaims(s: Story, a: Files, from: nat, token: nat)
    ensures ClaimedFrom(s, a, from, a, from, token)
  {
  }

  lemma AllGone(s: Story, a: Files, from: nat, f: Files, t: nat, token: nat)
    requires ClaimedFrom(s, a, from, f, t, token)
    requires AllClaimed(s, a, from, f, t, token, false, {}) && AllClaimed(s, a, from, f, t, token, true, {})
    ensures NewcomersOnly(s, from, f, t)
    ensures forall d :: Here(a, d) ==> InClaims(f.claims, d) || Withdrawn(s, d, from, t)
  {
    hide Withdrawn, PutIn;
  }

  /** What a pass over the claims that fails nowhere leaves. */
  ghost predicate AllSettled(w: ManifestChain.World, f: Files, claims: map<Claim, Bytes>) {
    && (forall c :: c in claims && !c.name.proof ==> DealtWith(w, f, c.name, claims[c]))
    && GoneSettled(w, f, claims, true)
    && (forall c :: c in f.claims ==>
                      c in claims && f.claims[c] == claims[c] && c.name.proof && Left(w.h, f, c.name.base, claims[c]))
  }

  lemma NoneGone(w: ManifestChain.World, f: Files, claims: map<Claim, Bytes>)
    requires f.claims == claims
    ensures GoneSettled(w, f, claims, false)
  {
  }

  lemma ClaimsStay(s: Story, a: Files, from: nat, f: Files, t: nat, token: nat)
    requires ClaimedFrom(s, a, from, f, t, token)
    ensures f.witnessed == a.witnessed && forall c :: c in a.claims ==> c in f.claims && f.claims[c] == a.claims[c]
  {
  }

  lemma WithdrawnSince(s: Story, a: Files, from: nat, t: nat, claims: map<Claim, Bytes>)
    requires from < t
    requires forall d :: Here(Arrived(a, s.acts(from)), d) ==> InClaims(claims, d) || Withdrawn(s, d, from + 1, t)
    ensures forall d :: Here(a, d) ==> InClaims(claims, d) || Withdrawn(s, d, from, t)
  {
    hide InClaims;
    forall d | Here(a, d) && !InClaims(claims, d) ensures Withdrawn(s, d, from, t) {
      DeliversOrNot(s, a, from, from, d);
    }
  }

  lemma WithdrawnUntil(s: Story, a: Files, from: nat, mid: nat, until: nat, claims: map<Claim, Bytes>)
    requires mid <= until && forall d :: Here(a, d) ==> InClaims(claims, d) || Withdrawn(s, d, from, mid)
    ensures forall d :: Here(a, d) ==> InClaims(claims, d) || Withdrawn(s, d, from, until)
  {
    hide InClaims, Here;
  }

  lemma NewcomersSince(s: Story, from: nat, f: Files, t: nat)
    requires NewcomersOnly(s, from + 1, f, t)
    ensures forall d :: Here(f, d) ==> PutIn(s, d, from, t)
  {
    hide Here;
  }

  // --- what a rejected manifest does to a proof --------------------------------------------------

  /** After a pass that fails nowhere a proof that came alone is still claimed exactly when the test leaves it. */
  lemma LeftIff(w: ManifestChain.World, f: Files, claims: map<Claim, Bytes>, p: Claim)
    requires AllSettled(w, f, claims) && p in claims && p.name.proof
    requires !BesideAnother(w, claims, p.name.base, claims[p])
    ensures p in f.claims <==> Left(w.h, f, p.name.base, claims[p])
  {
    hide ProofOf, WasRejected, DealtWith, BesideAnother, LinearReader.ParseOts;
    if p !in f.claims { assert Settled(w, f, claims, true, p.name, claims[p]); }
  }

  /**
   * What the documentation promises of a proof that awaits its copy is that it goes exactly when the manifest of its
   * own name was rejected. It holds exactly when that manifest was, or no rejected one has a name ending in -X.json.
   */
  lemma GoesForItsOwnIff(w: ManifestChain.World, f: Files, claims: map<Claim, Bytes>, p: Claim)
    requires AllSettled(w, f, claims) && p in claims && p.name.proof
    requires !BesideAnother(w, claims, p.name.base, claims[p])
    requires Awaiting(w.h, f.witnessed, claims[p])
    ensures (p !in f.claims <==> OwnRejected(f.rejected, p.name.base))
       <==> (OwnRejected(f.rejected, p.name.base) || !OtherRejected(f.rejected, p.name.base))
  {
    hide AllSettled, BesideAnother, Awaiting, OwnRejected, OtherRejected;
    LeftIff(w, f, claims, p);
  }

  lemma AtZeroIsLinear(h: HashFn)
    ensures LinearReader.ParseOts(h, ProofParser.Print(ProofParser.AtZero())).Success?
  {
    hide ProofParser.ParseProof, LinearReader.ParseOts, ProofParser.Print, ProofParser.AtZero;
    ProofParser.AtZeroParses(h);
    LinearReader.ReadersAgree(h, ProofParser.Print(ProofParser.AtZero()));
  }

  /** One that does not: nothing fails, only a-X.json was ever rejected, and X.json.ots goes from its claim. */
  method SetAsideForAnother(w: ManifestChain.World, base: string, raw: Bytes) returns (box: Box, c: Claim)
    requires !IsManifest(w, raw)
    ensures fresh(box) && box.w == w && c.name == Name(base, true)
    ensures box.story.start.rejected == {Delivery(Name("a-" + base, false), raw)}
    ensures !OwnRejected(box.story.start.rejected, base)
    ensures c in box.story.start.claims && Awaiting(w.h, box.story.start.witnessed, box.story.start.claims[c])
    ensures c !in box.files.claims && Delivery(c.name, box.story.start.claims[c]) in box.files.rejected
  {
    hide LinearReader.ParseOts, ProofParser.Print, ProofParser.AtZero, IsManifest;
    var data := ProofParser.Print(ProofParser.AtZero());
    AtZeroIsLinear(w.h);
    c := Claim(0, Name(base, true));
    var other := Delivery(Name("a-" + base, false), raw);
    var start := Files(map[], map[c := data], {other}, map[], map[], {});
    box := new Box(w, _ => Works, Story(start, _ => Act(map[], {})));
    EndsInOther(base);
    assert WasRejected(start.rejected, base) by { assert other in start.rejected; }
    var end := box.ConsumeProof(c, start.claims, true);
    assert Settled(w, box.files, start.claims, true, c.name, data);
  }

  lemma EndsInOther(base: string)
    ensures EndsIn("a-" + base, base)
  {
    assert ("a-" + base)[1..] == "-" + base;
  }
}
