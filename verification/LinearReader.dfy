/**
 * The self-stamp's reader of linear proofs (ops/selfstamp.py: parse_ots, build_ots, splice_upgrade). It agrees with
 * the claim verifier's parser on exactly the proofs with one attestation; an upgrade keeps the old operations and
 * replays the calendar's answer from the old commitment.
 */
module LinearReader {
  import opened Octets
  import opened Wrappers
  import opened OtsFormat
  import opened ProofParser

  /** What parse_ots returns: the digest, the message attested, the attestation, and where its marker stands. */
  datatype LinearProof = LinearProof(digest: Bytes, msg: Bytes, kind: Kind, opsEnd: nat)

  /** A chain of operations and one attestation, to the last byte. */
  function ReadChain(h: HashFn, data: Bytes, pos: nat, digest: Bytes, msg: Bytes,
                     ops: nat): (r: Result<LinearProof, ParseError>)
    requires pos <= |data|
    ensures r.Success? ==> pos <= r.value.opsEnd < |data| && r.value.digest == digest
    decreases |data| - pos
  {
    if pos >= |data| then Failure(NoAttestation)
    else if data[pos] == ATTESTATION_MARKER then
      var kind :- ReadAttestation(data, pos + 1);
      if kind.end != |data| then Failure(TrailingBytes) else Success(LinearProof(digest, msg, kind.value, pos))
    else if data[pos] == FORK_MARKER then Failure(ForkRefused)
    else
      var op :- Step(h, data, pos + 1, data[pos], msg, ops);
      ReadChain(h, data, op.end, digest, Apply(h, op.value, msg), ops + 1)
  }

  function ParseOts(h: HashFn, data: Bytes): (r: Result<LinearProof, ParseError>)
    ensures r.Success? ==> r.value.opsEnd < |data|
  {
    var header :- ReadHeader(data);
    ReadChain(h, data, header.end, header.value, header.value, 0)
  }

  /** parse_ots, as its loop. */
  method ParseOtsLoop(h: HashFn, data: Bytes) returns (r: Result<LinearProof, ParseError>)
    ensures r == ParseOts(h, data)
  {
    hide Step, ReadAttestation, Apply, ReadHeader;
    var header := ReadHeaderBytes(data);
    if header.Failure? { return Failure(header.error); }
    var digest := header.value.value;
    var pos, msg, ops := header.value.end, digest, 0;
    while true
      invariant pos <= |data|
      invariant ParseOts(h, data) == ReadChain(h, data, pos, digest, msg, ops)
      decreases |data| - pos
    {
      if pos >= |data| { return Failure(NoAttestation); }
      var tag := data[pos];
      if tag == ATTESTATION_MARKER {
        var kind := ReadAttestation(data, pos + 1);
        if kind.Failure? { return Failure(kind.error); }
        if kind.value.end != |data| { return Failure(TrailingBytes); }
        return Success(LinearProof(digest, msg, kind.value.value, pos));
      }
      if tag == FORK_MARKER { return Failure(ForkRefused); }
      var op := Step(h, data, pos + 1, tag, msg, ops);
      if op.Failure? { return Failure(op.error); }
      msg, pos, ops := Apply(h, op.value.value, msg), op.value.end, ops + 1;
    }
  }

  // --- the two readers agree ---------------------------------------------------------------------

  /** One attestation read to the last byte, as the linear reader reports it. */
  ghost predicate Same(stamp: Result<Read<seq<Attestation>>, ParseError>, length: nat,
                       chain: Result<LinearProof, ParseError>) {
    && stamp.Success? && stamp.value.end == length && |stamp.value.value| == 1
    && chain.Success? && stamp.value.value[0].msg == chain.value.msg && stamp.value.value[0].kind == chain.value.kind
  }

  lemma {:induction false} ChainAgrees(h: HashFn, data: Bytes, pos: nat, digest: Bytes, msg: Bytes, path: seq<PathStep>)
    requires pos <= |data|
    ensures var stamp, chain := ReadStamp(h, data, pos, msg, path), ReadChain(h, data, pos, digest, msg, |path|);
            && (chain.Success? ==> Same(stamp, |data|, chain))
            && (stamp.Success? && stamp.value.end == |data| && |stamp.value.value| == 1 ==> chain.Success?)
    decreases |data| - pos
  {
    hide Step, ReadAttestation, Apply;
    if pos < |data| && data[pos] == FORK_MARKER {
      var branch := ReadBranch(h, data, pos + 1, msg, path);
      if branch.Success? {
        SomeFound(h, data, pos + 1, msg, path);
        SomeFoundInStamp(h, data, branch.value.end, msg, path);
      }
    } else if pos < |data| && data[pos] != ATTESTATION_MARKER {
      var op := Step(h, data, pos + 1, data[pos], msg, |path|);
      if op.Success? {
        ChainAgrees(h, data, op.value.end, digest, Apply(h, op.value.value, msg),
                    Extended(h, op.value.value, msg, path));
      }
    }
  }

  lemma {:induction false} SomeFound(h: HashFn, data: Bytes, pos: nat, msg: Bytes, path: seq<PathStep>)
    requires pos <= |data| && ReadBranch(h, data, pos, msg, path).Success?
    ensures |ReadBranch(h, data, pos, msg, path).value.value| >= 1
    decreases |data| - pos, 0
  {
    hide Step, ReadAttestation, Apply, ReadStamp, Extended;
    if data[pos] != ATTESTATION_MARKER {
      var op := Step(h, data, pos + 1, data[pos], msg, |path|).value;
      SomeFoundInStamp(h, data, op.end, Apply(h, op.value, msg), Extended(h, op.value, msg, path));
    }
  }

  lemma {:induction false} SomeFoundInStamp(h: HashFn, data: Bytes, pos: nat, msg: Bytes, path: seq<PathStep>)
    requires pos <= |data|
    ensures ReadStamp(h, data, pos, msg, path).Success? ==> |ReadStamp(h, data, pos, msg, path).value.value| >= 1
    decreases |data| - pos, 1
  {
    hide ReadBranch;
    if ReadStamp(h, data, pos, msg, path).Success? {
      SomeFound(h, data, if data[pos] == FORK_MARKER then pos + 1 else pos, msg, path);
    }
  }

  /** The linear reader accepts exactly the proofs the verifier accepts with one attestation, and reports them alike. */
  lemma ReadersAgree(h: HashFn, data: Bytes)
    ensures var all, one := ParseProof(h, data), ParseOts(h, data);
            && (one.Success? <==> all.Success? && |all.value.attestations| == 1)
            && (one.Success? ==>
                  && one.value.digest == all.value.digest
                  && one.value.msg == all.value.attestations[0].msg && one.value.kind == all.value.attestations[0].kind)
  {
    hide ReadHeader, ReadStamp, ReadChain;
    var header := ReadHeader(data);
    if header.Success? { ChainAgrees(h, data, header.value.end, header.value.value, header.value.value, []); }
  }

  // --- building and upgrading --------------------------------------------------------------------

  function Header(digest: Bytes): Bytes {
    MAGIC + (Varuint(VERSION) + ([OP_SHA256] + digest))
  }

  /**
   * build_ots: the header of a digest before a calendar's answer, kept only if it then parses as that digest's proof.
   */
  function BuildOts(h: HashFn, digest: Bytes, answer: Bytes): Result<Bytes, ParseError> {
    var ots := Header(digest) + answer;
    var proof :- ParseOts(h, ots);
    if proof.digest != digest then Failure(DigestChanged) else Success(ots)
  }

  /** splice_upgrade: the proof up to its pending attestation, then the calendar's answer about the commitment. */
  function SpliceUpgrade(h: HashFn, ots: Bytes, answer: Bytes): Result<Bytes, ParseError> {
    var proof :- ParseOts(h, ots);
    if !proof.kind.Pending? then Failure(NotPending)
    else
      var upgraded := ots[..proof.opsEnd] + answer;
      var spliced :- ParseOts(h, upgraded);
      if !spliced.kind.Bitcoin? then Failure(NoBitcoin)
      else if spliced.digest != proof.digest then Failure(DigestChanged)
      else Success(upgraded)
  }

  /** `data` stands at the end of `whole`, `shift` bytes in. */
  predicate EndsWith(whole: Bytes, shift: nat, data: Bytes) {
    shift <= |whole| && whole[shift..] == data
  }

  /** A timestamp at the end of an input is the timestamp it is on its own: each is the print of one tree. */
  lemma StampMoves(h: HashFn, whole: Bytes, shift: nat, data: Bytes, msg: Bytes, path: seq<PathStep>)
    requires EndsWith(whole, shift, data)
    ensures var mine, its := ReadStamp(h, data, 0, msg, path), ReadStamp(h, whole, shift, msg, path);
            && (mine.Success? <==> its.Success?)
            && (mine.Success? ==> its.value.value == mine.value.value && its.value.end == shift + mine.value.end)
  {
    hide ReadStamp, StampOk, Attested, PrintStamp;
    var mine, its := ReadStamp(h, data, 0, msg, path), ReadStamp(h, whole, shift, msg, path);
    if mine.Success? {
      var s := StampSound(h, data, 0, msg, path);
      Slices(whole, shift, data, mine.value.end);
      StampComplete(h, data, 0, mine.value.end, s, msg, path);
      StampComplete(h, whole, shift, shift + mine.value.end, s, msg, path);
    }
    if its.Success? {
      var s := StampSound(h, whole, shift, msg, path);
      Slices(whole, shift, data, its.value.end - shift);
      StampComplete(h, data, 0, its.value.end - shift, s, msg, path);
    }
  }

  lemma Slices(whole: Bytes, shift: nat, data: Bytes, end: nat)
    requires EndsWith(whole, shift, data) && end <= |data|
    ensures |whole| == shift + |data| && whole[shift..shift + end] == data[0..end]
  {
    assert whole[shift..][..end] == whole[shift..shift + end];
  }

  type Reading = Result<Read<seq<Attestation>>, ParseError>

  /** A fork's branch and the rest of its timestamp. */
  function Both(branch: Reading, rest: Reading): Reading {
    if branch.Failure? then branch
    else if rest.Failure? then rest
    else Success(Read(branch.value.value + rest.value.value, rest.value.end))
  }

  function RestOf(h: HashFn, data: Bytes, branch: Reading, msg: Bytes, path: seq<PathStep>): Reading
    requires branch.Success? ==> branch.value.end <= |data|
  {
    if branch.Failure? then branch else ReadStamp(h, data, branch.value.end, msg, path)
  }

  function AfterOp(h: HashFn, data: Bytes, op: Result<Read<Op>, ParseError>, msg: Bytes, path: seq<PathStep>): Reading
    requires op.Success? ==> op.value.end <= |data|
  {
    if op.Failure? then Failure(op.error)
    else ReadStamp(h, data, op.value.end, Apply(h, op.value.value, msg), Extended(h, op.value.value, msg, path))
  }

  function AttestedAt(kind: Result<Read<Kind>, ParseError>, msg: Bytes, path: seq<PathStep>): Reading {
    if kind.Failure? then Failure(kind.error)
    else Success(Read([Attestation(kind.value.value, msg, path)], kind.value.end))
  }

  /** One step of the grammar, as the lemmas below use it. */
  lemma StampIs(h: HashFn, data: Bytes, pos: nat, msg: Bytes, path: seq<PathStep>)
    requires pos <= |data|
    ensures pos < |data| && data[pos] == FORK_MARKER ==>
              var branch := ReadBranch(h, data, pos + 1, msg, path);
              ReadStamp(h, data, pos, msg, path) == Both(branch, RestOf(h, data, branch, msg, path))
    ensures pos == |data| || data[pos] != FORK_MARKER ==>
              ReadStamp(h, data, pos, msg, path) == ReadBranch(h, data, pos, msg, path)
  {
    hide ReadBranch;
  }

  lemma BranchIs(h: HashFn, data: Bytes, pos: nat, msg: Bytes, path: seq<PathStep>)
    requires pos <= |data|
    ensures ReadBranch(h, data, pos, msg, path) ==
            if pos >= |data| then Failure(NoAttestation)
            else if data[pos] == FORK_MARKER then Failure(DoubleFork)
            else if data[pos] == ATTESTATION_MARKER then AttestedAt(ReadAttestation(data, pos + 1), msg, path)
            else AfterOp(h, data, Step(h, data, pos + 1, data[pos], msg, |path|), msg, path)
  {
    hide ReadStamp, Step, ReadAttestation, Apply, Extended;
  }

  /** Two inputs that share their first `e` bytes. */
  predicate Share(data: Bytes, other: Bytes, e: nat) {
    e <= |data| && e <= |other| && forall i :: 0 <= i < e ==> other[i] == data[i]
  }

  /** What is read before a point depends on nothing after it. */
  lemma {:induction false} VaruintPrefix(data: Bytes, other: Bytes, e: nat, pos: nat, n: nat)
    requires Share(data, other, e) && pos <= e
    requires VaruintFrom(data, pos, n).Success? && VaruintFrom(data, pos, n).value.end <= e
    ensures VaruintFrom(other, pos, n) == VaruintFrom(data, pos, n)
    decreases |data| - pos
  {
    if data[pos] >= 128 { VaruintPrefix(data, other, e, pos + 1, n + 1); }
  }

  lemma SlicePrefix(data: Bytes, other: Bytes, e: nat, a: nat, b: nat)
    requires Share(data, other, e) && a <= b <= e
    ensures other[a..b] == data[a..b]
  {
  }

  lemma VarbytesPrefix(data: Bytes, other: Bytes, e: nat, pos: nat, max: nat, min: nat)
    requires Share(data, other, e) && pos <= e
    requires ReadVarbytes(data, pos, max, min).Success? && ReadVarbytes(data, pos, max, min).value.end <= e
    ensures ReadVarbytes(other, pos, max, min) == ReadVarbytes(data, pos, max, min)
  {
    hide VaruintFrom;
    VaruintPrefix(data, other, e, pos, 0);
    var length := ReadVaruint(data, pos).value;
    SlicePrefix(data, other, e, length.end, length.end + length.value);
  }

  lemma OpPrefix(data: Bytes, other: Bytes, e: nat, pos: nat, tag: Byte)
    requires Share(data, other, e) && pos <= e
    requires ReadOp(data, pos, tag).Success? && ReadOp(data, pos, tag).value.end <= e
    ensures e <= |other| && ReadOp(other, pos, tag) == ReadOp(data, pos, tag)
  {
    hide ReadVarbytes;
    if tag != OP_SHA256 { VarbytesPrefix(data, other, e, pos, MAX_OPERAND, 1); }
  }

  lemma StepPrefix(h: HashFn, data: Bytes, other: Bytes, e: nat, pos: nat, tag: Byte, msg: Bytes, ops: nat)
    requires Share(data, other, e) && pos <= e <= |data| && e <= |other|
    requires Step(h, data, pos, tag, msg, ops).Success? && Step(h, data, pos, tag, msg, ops).value.end <= e
    ensures Step(h, other, pos, tag, msg, ops) == Step(h, data, pos, tag, msg, ops)
  {
    hide ReadOp, Apply, Share;
    OpPrefix(data, other, e, pos, tag);
  }

  lemma HeaderPrefix(data: Bytes, other: Bytes, e: nat)
    requires Share(data, other, e) && ReadHeader(data).Success? && ReadHeader(data).value.end <= e
    ensures ReadHeader(other) == ReadHeader(data)
  {
    hide MagicBytes, VaruintFrom;
    var version := ReadVaruint(data, |MAGIC|).value;
    assert MAGIC <= other;
    VaruintPrefix(data, other, e, |MAGIC|, 0);
    SlicePrefix(data, other, e, version.end + 1, version.end + 33);
  }

  lemma ChainIs(h: HashFn, data: Bytes, pos: nat, digest: Bytes, msg: Bytes, ops: nat)
    requires pos <= |data| && ReadChain(h, data, pos, digest, msg, ops).Success?
    ensures var chain := ReadChain(h, data, pos, digest, msg, ops);
            && pos < |data| && data[pos] != FORK_MARKER
            && if data[pos] == ATTESTATION_MARKER then chain.value.opsEnd == pos
              && ReadAttestation(data, pos + 1).Success?
               else Step(h, data, pos + 1, data[pos], msg, ops).Success? &&
                    var op := Step(h, data, pos + 1, data[pos], msg, ops).value;
                    chain == ReadChain(h, data, op.end, digest, Apply(h, op.value, msg), ops + 1)
  {
    hide Step, ReadAttestation, Apply;
  }

  /**
   * Read up to its attestation's marker, a linear proof is where the answer that replaces the attestation is read from.
   */
  lemma {:induction false} ChainSplice(h: HashFn, data: Bytes, other: Bytes, pos: nat, digest: Bytes, msg: Bytes,
                                       path: seq<PathStep>)
    requires pos <= |data| && ReadChain(h, data, pos, digest, msg, |path|).Success?
    requires Share(data, other, ReadChain(h, data, pos, digest, msg, |path|).value.opsEnd)
    ensures var e := ReadChain(h, data, pos, digest, msg, |path|).value.opsEnd;
            var stamp := ReadStamp(h, data, pos, msg, path);
            && Same(stamp, |data|, ReadChain(h, data, pos, digest, msg, |path|)) && e <= |other|
            && ReadStamp(h, other, pos, msg, path)
              == ReadStamp(h, other, e, stamp.value.value[0].msg, stamp.value.value[0].path)
    decreases |data| - pos
  {
    hide Step, ReadAttestation, Apply, Share, ReadStamp, ReadBranch, ReadChain, Extended;
    var e := ReadChain(h, data, pos, digest, msg, |path|).value.opsEnd;
    ChainAgrees(h, data, pos, digest, msg, path);
    ChainIs(h, data, pos, digest, msg, |path|);
    StampIs(h, data, pos, msg, path);
    BranchIs(h, data, pos, msg, path);
    Shared(data, other, e, pos);
    if data[pos] != ATTESTATION_MARKER {
      var op := Step(h, data, pos + 1, data[pos], msg, |path|).value;
      ChainSplice(h, data, other, op.end, digest, Apply(h, op.value, msg), Extended(h, op.value, msg, path));
      StepPrefix(h, data, other, e, pos + 1, data[pos], msg, |path|);
      StampIs(h, other, pos, msg, path);
      BranchIs(h, other, pos, msg, path);
    }
  }

  lemma Shared(data: Bytes, other: Bytes, e: nat, pos: nat)
    requires Share(data, other, e)
    ensures e <= |data| && e <= |other| && (pos < e ==> other[pos] == data[pos])
  {
  }

  /**
   * The answer, read on its own from the commitment an old proof ends in, is one Bitcoin attestation to its last byte.
   */
  predicate Upgrades(h: HashFn, answer: Bytes, was: Attestation) {
    OneStamp(h, answer, was.msg, was.path) && ReadStamp(h, answer, 0, was.msg, was.path).value.value[0].kind.Bitcoin?
  }

  /** The bytes are a timestamp of the message with one attestation and nothing after it. */
  predicate OneStamp(h: HashFn, bytes: Bytes, msg: Bytes, path: seq<PathStep>) {
    var stamp := ReadStamp(h, bytes, 0, msg, path);
    stamp.Success? && stamp.value.end == |bytes| && |stamp.value.value| == 1
  }

  /** A linear proof's one attestation, with its path. */
  function OnlyAttestation(h: HashFn, ots: Bytes): Attestation
    requires ParseOts(h, ots).Success?
  {
    ReadersAgree(h, ots);
    ParseProof(h, ots).value.attestations[0]
  }

  /** What the splice parses: the old header, then, from the old marker on, the answer. */
  lemma SpliceParses(h: HashFn, ots: Bytes, answer: Bytes)
    requires ParseOts(h, ots).Success?
    ensures var was, up := OnlyAttestation(h, ots), ots[..ParseOts(h, ots).value.opsEnd] + answer;
            && (ParseOts(h, up).Success? <==> OneStamp(h, answer, was.msg, was.path))
            && (ParseOts(h, up).Success? ==>
                  && ParseOts(h, up).value.digest == ParseOts(h, ots).value.digest
                  && ParseProof(h, up) == Success(Parsed(ParseOts(h, ots).value.digest,
                                                         ReadStamp(h, answer, 0, was.msg, was.path).value.value)))
  {
    hide ReadHeader, ReadStamp, ReadChain;
    ReadersAgree(h, ots);
    var proof, header, was := ParseOts(h, ots).value, ReadHeader(ots).value, OnlyAttestation(h, ots);
    var up := ots[..proof.opsEnd] + answer;
    HeaderPrefix(ots, up, proof.opsEnd);
    ChainSplice(h, ots, up, header.end, header.value, header.value, []);
    StampMoves(h, up, proof.opsEnd, answer, was.msg, was.path);
    ReadersAgree(h, up);
  }

  /**
   * splice_upgrade succeeds exactly when the old proof has one attestation, a pending one, and the calendar's answer
   * upgrades its commitment. The new proof is then the old operations followed by the answer's own, which replay from
   * the old commitment; its digest is the old one, so the last test of the code never fails.
   */
  lemma SpliceReplays(h: HashFn, ots: Bytes, answer: Bytes)
    ensures SpliceUpgrade(h, ots, answer).Success? <==>
            (ParseOts(h, ots).Success? && ParseOts(h, ots).value.kind.Pending?
             && Upgrades(h, answer, OnlyAttestation(h, ots)))
    ensures SpliceUpgrade(h, ots, answer).Success? ==>
              var was := OnlyAttestation(h, ots);
              ParseProof(h, SpliceUpgrade(h, ots, answer).value) ==
              Success(Parsed(ParseOts(h, ots).value.digest, ReadStamp(h, answer, 0, was.msg, was.path).value.value))
  {
    hide ParseProof, ParseOts, ReadStamp, OnlyAttestation;
    if ParseOts(h, ots).Success? {
      SpliceParses(h, ots, answer);
      ReadersAgree(h, ots[..ParseOts(h, ots).value.opsEnd] + answer);
    }
  }

  /**
   * The upgraded proof's path is the old one and then the answer's, and replays from the same digest to what Bitcoin
   * attests.
   */
  lemma UpgradeKeepsPath(h: HashFn, ots: Bytes, answer: Bytes)
    requires SpliceUpgrade(h, ots, answer).Success?
    ensures var up := SpliceUpgrade(h, ots, answer).value;
            && ParseOts(h, ots).Success? && ParseOts(h, up).Success?
            && var was, now := OnlyAttestation(h, ots), OnlyAttestation(h, up);
               && now.kind.Bitcoin? && |was.path| <= |now.path| && now.path[..|was.path|] == was.path
               && Replays(h, ParseOts(h, ots).value.digest, now.path, now.msg)
  {
    hide ParseProof, ParseOts, ReadStamp, Replays;
    SpliceReplays(h, ots, answer);
    var up, was := SpliceUpgrade(h, ots, answer).value, OnlyAttestation(h, ots);
    ReadersAgree(h, ots);
    ReadersAgree(h, up);
    AttestationsReplay(h, ots);
    assert was in ParseProof(h, ots).value.attestations;
    StampReplays(h, ParseOts(h, ots).value.digest, answer, 0, was.msg, was.path);
    assert OnlyAttestation(h, up) in ReadStamp(h, answer, 0, was.msg, was.path).value.value;
  }

  lemma VersionWritten()
    ensures IsVaruint(Varuint(VERSION)) && VaruintValue(Varuint(VERSION)) == VERSION
  {
    assert Varuint(VERSION)[1..] == [];
  }

  lemma HeaderThen(digest: Bytes, answer: Bytes)
    ensures Header(digest) + answer == MAGIC + (Varuint(VERSION) + ([OP_SHA256] + (digest + answer)))
  {
    hide MagicBytes, Varuint;
  }

  /** Where the answer stands in what build_ots parses. */
  lemma HeaderRead(digest: Bytes, answer: Bytes) returns (start: nat)
    requires |digest| == 32
    ensures ReadHeader(Header(digest) + answer) == Success(Read(digest, start))
    ensures EndsWith(Header(digest) + answer, start, answer)
  {
    hide ReadHeader, MagicBytes, Varuint, IsVaruint, VaruintValue, Header;
    var ots := Header(digest) + answer;
    VersionWritten();
    HeaderThen(digest, answer);
    HeaderComplete(ots, Varuint(VERSION), digest, answer);
    start := |MAGIC| + |Varuint(VERSION)| + 33;
  }

  lemma DigestSize(h: HashFn, ots: Bytes)
    requires ParseOts(h, ots).Success?
    ensures |ParseOts(h, ots).value.digest| == 32
  {
    hide ReadHeader, ReadChain;
  }

  /** build_ots succeeds exactly on a 32-byte digest and an answer that is a linear timestamp of it. */
  lemma BuildsExactly(h: HashFn, digest: Bytes, answer: Bytes)
    ensures BuildOts(h, digest, answer).Success? <==> |digest| == 32 && OneStamp(h, answer, digest, [])
    ensures BuildOts(h, digest, answer).Success? ==>
              ParseProof(h, BuildOts(h, digest, answer).value)
                == Success(Parsed(digest, ReadStamp(h, answer, 0, digest, []).value.value))
  {
    var ots := Header(digest) + answer;
    hide ParseOts, ReadHeader, ReadStamp, Header;
    if |digest| == 32 {
      var start := HeaderRead(digest, answer);
      StampMoves(h, ots, start, answer, digest, []);
      Slices(ots, start, answer, 0);
      ReadersAgree(h, ots);
    } else if ParseOts(h, ots).Success? {
      DigestSize(h, ots);
    }
  }
}
