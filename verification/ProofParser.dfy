/**
 * The claim verifier's proof parser (ops/verify_claim.py, parse_proof): a loop over the bytes with a stack of
 * open forks. It is proved to be the recursive grammar of its own docstring, and that grammar to accept exactly
 * the printed forms of well-formed proof trees, each with the tree's own attestations.
 */
module ProofParser {
  import opened Octets
  import opened Wrappers
  import opened OtsFormat

  datatype PathStep = PathStep(op: Op, result: Bytes)

  datatype Attestation = Attestation(kind: Kind, msg: Bytes, path: seq<PathStep>)

  datatype Parsed = Parsed(digest: Bytes, attestations: seq<Attestation>)

  function Extended(h: HashFn, op: Op, msg: Bytes, path: seq<PathStep>): (r: seq<PathStep>)
    ensures |r| == |path| + 1 && r[..|path|] == path
  {
    path + [PathStep(op, Apply(h, op, msg))]
  }

  // --- the grammar, as recursive descent ---------------------------------------------------------

  /** A timestamp: fork-marked branches, each promising one more branch of it, then a last branch. */
  function ReadStamp(h: HashFn, data: Bytes, pos: nat, msg: Bytes, path: seq<PathStep>)
    : (r: Result<Read<seq<Attestation>>, ParseError>)
    requires pos <= |data|
    ensures r.Success? ==> pos < r.value.end <= |data|
    decreases |data| - pos, 1
  {
    if pos < |data| && data[pos] == FORK_MARKER then
      var branch :- ReadBranch(h, data, pos + 1, msg, path);
      var rest :- ReadStamp(h, data, branch.end, msg, path);
      Success(Read(branch.value + rest.value, rest.end))
    else ReadBranch(h, data, pos, msg, path)
  }

  /** A branch: an attestation, or an operation and the timestamp of its result. */
  function ReadBranch(h: HashFn, data: Bytes, pos: nat, msg: Bytes, path: seq<PathStep>)
    : (r: Result<Read<seq<Attestation>>, ParseError>)
    requires pos <= |data|
    ensures r.Success? ==> pos < r.value.end <= |data|
    decreases |data| - pos, 0
  {
    if pos >= |data| then Failure(NoAttestation)
    else if data[pos] == FORK_MARKER then Failure(DoubleFork)
    else if data[pos] == ATTESTATION_MARKER then
      var kind :- ReadAttestation(data, pos + 1);
      Success(Read([Attestation(kind.value, msg, path)], kind.end))
    else
      var op :- Step(h, data, pos + 1, data[pos], msg, |path|);
      ReadStamp(h, data, op.end, Apply(h, op.value, msg), Extended(h, op.value, msg, path))
  }

  /** The header: magic, version, the sha256 file hash and the digest; where the timestamp starts. */
  function ReadHeader(data: Bytes): (r: Result<Read<Bytes>, ParseError>)
    ensures r.Success? ==> r.value.end <= |data| && |r.value.value| == 32
  {
    if !(MAGIC <= data) then Failure(BadMagic)
    else
      var version :- ReadVaruint(data, |MAGIC|);
      if version.value != VERSION then Failure(BadVersion)
      else if version.end >= |data| || data[version.end] != OP_SHA256 then Failure(NotSha256)
      else if version.end + 33 > |data| then Failure(TruncatedDigest)
      else Success(Read(data[version.end + 1..version.end + 33], version.end + 33))
  }

  function ParseProof(h: HashFn, data: Bytes): Result<Parsed, ParseError> {
    var header :- ReadHeader(data);
    var stamp :- ReadStamp(h, data, header.end, header.value, []);
    if stamp.end != |data| then Failure(TrailingBytes) else Success(Parsed(header.value, stamp.value))
  }

  // --- the loop ----------------------------------------------------------------------------------

  /** What an open fork resumes with: the message, the path and the operation count of its timestamp. */
  datatype Frame = Frame(msg: Bytes, path: seq<PathStep>, ops: nat)

  /**
   * The rest of the walk once the branch or timestamp being read has ended: one timestamp per open fork, innermost
   * first.
   */
  function Resume(h: HashFn, data: Bytes, out: seq<Attestation>, inner: Result<Read<seq<Attestation>>, ParseError>,
                  pending: seq<Frame>): Result<Read<seq<Attestation>>, ParseError>
    requires inner.Success? ==> inner.value.end <= |data|
    decreases |pending|
  {
    match inner
    case Failure(e) => Failure(e)
    case Success(read) =>
      if pending == [] then Success(Read(out + read.value, read.end))
      else
        var top := pending[|pending| - 1];
        Resume(h, data, out + read.value, ReadStamp(h, data, read.end, top.msg, top.path), pending[..|pending| - 1])
  }

  method ReadHeaderBytes(data: Bytes) returns (r: Result<Read<Bytes>, ParseError>)
    ensures r == ReadHeader(data)
  {
    if !(MAGIC <= data) { return Failure(BadMagic); }
    var version := ReadVaruintLoop(data, |MAGIC|);
    if version.Failure? { return Failure(version.error); }
    var pos := version.value.end;
    if version.value.value != VERSION { return Failure(BadVersion); }
    if pos >= |data| || data[pos] != OP_SHA256 { return Failure(NotSha256); }
    pos := pos + 1;
    if pos + 32 > |data| { return Failure(TruncatedDigest); }
    return Success(Read(data[pos..pos + 32], pos + 32));
  }

  /** parse_proof's walk: position, message, path, operation count, a fork just opened, the stack of open forks. */
  method WalkStamp(h: HashFn, data: Bytes, start: nat, digest: Bytes)
    returns (r: Result<Read<seq<Attestation>>, ParseError>)
    requires start <= |data|
    ensures r == ReadStamp(h, data, start, digest, [])
  {
    hide Step, ReadAttestation, Apply, ReadStamp, ReadBranch, Resume, Extended;
    Starts(h, data, start, digest);
    var out: seq<Attestation>, pending: seq<Frame> := [], [];
    var pos, msg, path: seq<PathStep>, ops, afterFork := start, digest, [], 0, false;
    while true
      invariant pos <= |data| && ops == |path|
      invariant forall f :: f in pending ==> f.ops == |f.path|
      invariant ReadStamp(h, data, start, digest, []) ==
                Resume(h, data, out,
                       if afterFork then ReadBranch(h, data, pos, msg, path)
                       else ReadStamp(h, data, pos, msg, path), pending)
      decreases |data| - pos
    {
      Meets(h, data, out, pos, msg, path, afterFork, pending);
      if pos >= |data| { return Failure(NoAttestation); }
      var tag := data[pos];
      if tag == FORK_MARKER {
        if afterFork { return Failure(DoubleFork); }
        ForkOpens(h, data, out, pos, msg, path, ops, pending);
        pending := pending + [Frame(msg, path, ops)];
        afterFork, pos := true, pos + 1;
        continue;
      }
      afterFork := false;
      if tag == ATTESTATION_MARKER {
        var kind := ReadAttestation(data, pos + 1);
        if kind.Failure? { return Failure(kind.error); }
        out := out + [Attestation(kind.value.value, msg, path)];
        pos := kind.value.end;
        if pending == [] { return Success(Read(out, pos)); }
        var top := pending[|pending| - 1];
        msg, path, ops := top.msg, top.path, top.ops;
        pending := pending[..|pending| - 1];
        continue;
      }
      var op := Step(h, data, pos + 1, tag, msg, ops);
      if op.Failure? { return Failure(op.error); }
      path := Extended(h, op.value.value, msg, path);
      msg, pos, ops := Apply(h, op.value.value, msg), op.value.end, ops + 1;
    }
  }

  lemma Starts(h: HashFn, data: Bytes, start: nat, digest: Bytes)
    requires start <= |data|
    ensures ReadStamp(h, data, start, digest, []) == Resume(h, data, [], ReadStamp(h, data, start, digest, []), [])
  {
    hide ReadStamp;
    var stamp := ReadStamp(h, data, start, digest, []);
    if stamp.Success? { assert [] + stamp.value.value == stamp.value.value; }
  }

  /** One turn of the walk: what the byte at `pos` makes of what remains. */
  lemma Meets(h: HashFn, data: Bytes, out: seq<Attestation>, pos: nat, msg: Bytes, path: seq<PathStep>,
              afterFork: bool, pending: seq<Frame>)
    requires pos <= |data|
    ensures var rest := if afterFork then ReadBranch(h, data, pos, msg, path) else ReadStamp(h, data, pos, msg, path);
            var left := Resume(h, data, out, rest, pending);
            if pos == |data| then left == Failure(NoAttestation)
            else if data[pos] == FORK_MARKER then afterFork ==> left == Failure(DoubleFork)
            else if data[pos] == ATTESTATION_MARKER then
              match ReadAttestation(data, pos + 1)
              case Failure(e) => left == Failure(e)
              case Success(kind) =>
                var more, last := out + [Attestation(kind.value, msg, path)], |pending| - 1;
                left == if pending == [] then Success(Read(more, kind.end))
                        else Resume(h, data, more,
                                    ReadStamp(h, data, kind.end, pending[last].msg, pending[last].path),
                                    pending[..last])
            else
              match Step(h, data, pos + 1, data[pos], msg, |path|)
              case Failure(e) => left == Failure(e)
              case Success(op) =>
                left == Resume(h, data, out,
                               ReadStamp(h, data, op.end, Apply(h, op.value, msg), Extended(h, op.value, msg, path)),
                               pending)
  {
    hide Step, ReadAttestation, Apply, Extended;
  }

  /** Opening a fork changes nothing that remains to be read. */
  lemma ForkOpens(h: HashFn, data: Bytes, out: seq<Attestation>, pos: nat, msg: Bytes, path: seq<PathStep>, ops: nat,
                  pending: seq<Frame>)
    requires pos < |data| && data[pos] == FORK_MARKER
    ensures Resume(h, data, out, ReadStamp(h, data, pos, msg, path), pending) ==
            Resume(h, data, out, ReadBranch(h, data, pos + 1, msg, path), pending + [Frame(msg, path, ops)])
  {
    var deeper := pending + [Frame(msg, path, ops)];
    assert deeper[..|deeper| - 1] == pending;
    var branch := ReadBranch(h, data, pos + 1, msg, path);
    if branch.Success? {
      var rest := ReadStamp(h, data, branch.value.end, msg, path);
      if rest.Success? {
        OutMoves(h, data, out, branch.value.value, rest, pending);
      }
    }
  }

  /** Attestations already found may be counted with the branch or before it. */
  lemma OutMoves(h: HashFn, data: Bytes, out: seq<Attestation>, found: seq<Attestation>,
                 rest: Result<Read<seq<Attestation>>, ParseError>, pending: seq<Frame>)
    requires rest.Success? && rest.value.end <= |data|
    ensures Resume(h, data, out + found, rest, pending) ==
            Resume(h, data, out, Success(Read(found + rest.value.value, rest.value.end)), pending)
  {
    assert out + found + rest.value.value == out + (found + rest.value.value);
  }

  /** parse_proof does what the grammar says, error for error. */
  method ParseProofLoop(h: HashFn, data: Bytes) returns (r: Result<Parsed, ParseError>)
    ensures r == ParseProof(h, data)
  {
    var header := ReadHeaderBytes(data);
    if header.Failure? { return Failure(header.error); }
    var stamp := WalkStamp(h, data, header.value.end, header.value.value);
    if stamp.Failure? { return Failure(stamp.error); }
    if stamp.value.end != |data| { return Failure(TrailingBytes); }
    return Success(Parsed(header.value.value, stamp.value.value));
  }

  // --- proof trees -------------------------------------------------------------------------------

  // The grammar spells its bytes and limits out, all but the magic; only the readers go by the constants.

  /** A timestamp as written; a node keeps the bytes of its varuints, which need not be the shortest. */
  datatype Stamp = Last(branch: Branch) | Fork(branch: Branch, rest: Stamp)

  datatype Branch =
    | Attest(mark: Mark)
    | Hash(next: Stamp)
    | Join(after: bool, operand: VarBytes, next: Stamp) // append when `after`, else prepend

  function PrintStamp(s: Stamp): Bytes {
    match s
    case Last(b) => PrintBranch(b)
    case Fork(b, rest) => [0xff] + PrintBranch(b) + PrintStamp(rest)
  }

  function PrintBranch(b: Branch): (r: Bytes)
    ensures r != [] && r[0] != 0xff
  {
    match b
    case Attest(mark) => [0x00] + mark.Print()
    case Hash(next) => [0x08] + PrintStamp(next)
    case Join(after, operand, next) => [if after then 0xf0 else 0xf1] + operand.Print() + PrintStamp(next)
  }

  function OpOf(b: Branch): Op
    requires !b.Attest?
  {
    match b
    case Hash(_) => Sha256
    case Join(after, operand, _) => if after then Append(operand.body) else Prepend(operand.body)
  }

  /** Within the limits on every path, and every leaf an attestation its tag allows. */
  ghost predicate StampOk(h: HashFn, s: Stamp, msg: Bytes, ops: nat) {
    match s
    case Last(b) => BranchOk(h, b, msg, ops)
    case Fork(b, rest) => BranchOk(h, b, msg, ops) && StampOk(h, rest, msg, ops)
  }

  ghost predicate BranchOk(h: HashFn, b: Branch, msg: Bytes, ops: nat) {
    match b
    case Attest(mark) => exists kind :: mark.Says(kind)
    case Hash(next) => OpOk(h, Sha256, msg, ops) && StampOk(h, next, Apply(h, Sha256, msg), ops + 1)
    case Join(_, operand, next) =>
      operand.Ok(4096, 1) && OpOk(h, OpOf(b), msg, ops) && StampOk(h, next, Apply(h, OpOf(b), msg), ops + 1)
  }

  predicate OpOk(h: HashFn, op: Op, msg: Bytes, ops: nat) {
    |msg| <= 4096 && |Apply(h, op, msg)| <= 4096 && ops < 255
  }

  /** What a tree attests: every leaf, left to right, with the message and the path that lead to it. */
  ghost function Attested(h: HashFn, s: Stamp, msg: Bytes, path: seq<PathStep>): seq<Attestation>
    requires StampOk(h, s, msg, |path|)
  {
    match s
    case Last(b) => AttestedBy(h, b, msg, path)
    case Fork(b, rest) => AttestedBy(h, b, msg, path) + Attested(h, rest, msg, path)
  }

  ghost function AttestedBy(h: HashFn, b: Branch, msg: Bytes, path: seq<PathStep>): seq<Attestation>
    requires BranchOk(h, b, msg, |path|)
  {
    match b
    case Attest(mark) =>
      var kind :| mark.Says(kind);
      [Attestation(kind, msg, path)]
    case Hash(next) => Attested(h, next, Apply(h, Sha256, msg), Extended(h, Sha256, msg, path))
    case Join(_, _, next) => Attested(h, next, Apply(h, OpOf(b), msg), Extended(h, OpOf(b), msg, path))
  }

  lemma OpComplete(h: HashFn, data: Bytes, pos: nat, end: nat, b: Branch, next: Bytes, msg: Bytes, ops: nat)
    requires pos < end <= |data| && !b.Attest? && OpOk(h, OpOf(b), msg, ops)
    requires b.Join? ==> b.operand.Ok(MAX_OPERAND, 1)
    requires data[pos..end] == PrintBranch(b) && next == PrintStamp(b.next)
    ensures var at := end - |next|;
            && pos < at <= end && data[at..end] == next && data[pos] != FORK_MARKER && data[pos] != ATTESTATION_MARKER
            && Step(h, data, pos + 1, data[pos], msg, ops) == Success(Read(OpOf(b), at))
  {
    hide ReadVarbytes, Apply, PrintBranch, PrintStamp;
    FirstByte(data, pos, end, b);
    if b.Hash? {
      HashComplete(data, pos, end, b, next);
    } else {
      JoinComplete(data, pos, end, b, next);
    }
  }

  lemma FirstByte(data: Bytes, pos: nat, end: nat, b: Branch)
    requires pos < end <= |data| && data[pos..end] == PrintBranch(b)
    ensures data[pos] == if b.Attest? then ATTESTATION_MARKER
                         else if b.Hash? then OP_SHA256
                         else if b.after then OP_APPEND
                         else OP_PREPEND
  {
    assert data[pos] == data[pos..end][0];
  }

  lemma HashComplete(data: Bytes, pos: nat, end: nat, b: Branch, next: Bytes)
    requires pos < end <= |data| && b.Hash? && data[pos..end] == PrintBranch(b) && next == PrintStamp(b.next)
    ensures end - |next| == pos + 1 && data[pos + 1..end] == next
  {
    hide PrintStamp;
    Cut(data, pos, end, [OP_SHA256], next);
  }

  lemma JoinComplete(data: Bytes, pos: nat, end: nat, b: Branch, next: Bytes)
    requires pos < end <= |data| && b.Join? && b.operand.Ok(MAX_OPERAND, 1)
    requires data[pos..end] == PrintBranch(b) && next == PrintStamp(b.next)
    ensures pos < end - |next| <= end && data[end - |next|..end] == next
    ensures ReadVarbytes(data, pos + 1, MAX_OPERAND, 1) == Success(Read(b.operand.body, end - |next|))
  {
    hide ReadVarbytes, PrintStamp, IsVaruint, VaruintValue;
    var tag: Byte, printed := if b.after then OP_APPEND else OP_PREPEND, b.operand.Print();
    assert PrintBranch(b) == [tag] + (printed + next) by { Associate([tag], printed, next); }
    Cut(data, pos, end, [tag], printed + next);
    Cut(data, pos + 1, end, printed, next);
    VarbytesComplete(data, pos + 1, end - |next|, b.operand, MAX_OPERAND, 1);
  }

  lemma Associate(a: Bytes, b: Bytes, c: Bytes)
    ensures a + b + c == a + (b + c)
  {
  }

  lemma ForkCut(data: Bytes, pos: nat, end: nat, branch: Bytes, rest: Bytes)
    requires pos <= end <= |data| && data[pos..end] == [FORK_MARKER] + branch + rest
    ensures var cut := pos + 1 + |branch|;
            pos < |data| && data[pos] == FORK_MARKER && cut <= end && data[pos + 1..cut] == branch
              && data[cut..end] == rest
  {
    assert data[pos..end][0] == data[pos];
    Cut(data, pos, end, [FORK_MARKER] + branch, rest);
    Cut(data, pos, pos + 1 + |branch|, [FORK_MARKER], branch);
  }

  /** A well-formed timestamp is read, to its last byte, as what it attests. */
  lemma {:induction false} StampComplete(h: HashFn, data: Bytes, pos: nat, end: nat, s: Stamp, msg: Bytes,
                                         path: seq<PathStep>)
    requires pos <= end <= |data| && data[pos..end] == PrintStamp(s) && StampOk(h, s, msg, |path|)
    ensures ReadStamp(h, data, pos, msg, path) == Success(Read(Attested(h, s, msg, path), end))
    decreases s, 1
  {
    hide OpOk, ReadBranch, PrintBranch, BranchOk, AttestedBy;
    match s
    case Last(b) =>
      assert data[pos..end][0] == data[pos];
      BranchComplete(h, data, pos, end, b, msg, path);
    case Fork(b, rest) =>
      ForkCut(data, pos, end, PrintBranch(b), PrintStamp(rest));
      var cut := pos + 1 + |PrintBranch(b)|;
      BranchComplete(h, data, pos + 1, cut, b, msg, path);
      StampComplete(h, data, cut, end, rest, msg, path);
  }

  lemma {:induction false} BranchComplete(h: HashFn, data: Bytes, pos: nat, end: nat, b: Branch, msg: Bytes,
                                          path: seq<PathStep>)
    requires pos <= end <= |data| && data[pos..end] == PrintBranch(b) && BranchOk(h, b, msg, |path|)
    ensures ReadBranch(h, data, pos, msg, path) == Success(Read(AttestedBy(h, b, msg, path), end))
    decreases b, 0
  {
    hide Step, PrintBranch, ReadAttestation, Apply;
    if b.Attest? {
      AttestComplete(h, data, pos, end, b, msg, path);
    } else {
      var next := PrintStamp(b.next);
      assert pos < end by { NotEmpty(b); }
      OpComplete(h, data, pos, end, b, next, msg, |path|);
      StampComplete(h, data, end - |next|, end, b.next, Apply(h, OpOf(b), msg), Extended(h, OpOf(b), msg, path));
    }
  }

  lemma NotEmpty(b: Branch)
    ensures PrintBranch(b) != []
  {
  }

  lemma AttestComplete(h: HashFn, data: Bytes, pos: nat, end: nat, b: Branch, msg: Bytes, path: seq<PathStep>)
    requires b.Attest? && pos <= end <= |data| && data[pos..end] == PrintBranch(b) && BranchOk(h, b, msg, |path|)
    ensures ReadBranch(h, data, pos, msg, path) == Success(Read(AttestedBy(h, b, msg, path), end))
  {
    hide PrintBranch, ReadAttestation;
    MarkPrinted(b);
    Cut(data, pos, end, [ATTESTATION_MARKER], b.mark.Print());
    assert data[pos..pos + 1][0] == data[pos];
    var found := AttestedBy(h, b, msg, path)[0].kind;
    assert b.mark.Says(found);
    AttestationComplete(data, pos + 1, end, b.mark, found);
  }

  lemma MarkPrinted(b: Branch)
    requires b.Attest?
    ensures PrintBranch(b) == [ATTESTATION_MARKER] + b.mark.Print()
  {
  }

  lemma Spliced(data: Bytes, pos: nat, cut: nat, end: nat)
    requires pos < cut <= end <= |data|
    ensures data[pos..end] == [data[pos]] + data[pos + 1..cut] + data[cut..end]
  {
  }

  /** Whatever is read is the print of a well-formed timestamp. */
  lemma {:induction false} StampSound(h: HashFn, data: Bytes, pos: nat, msg: Bytes,
                                      path: seq<PathStep>) returns (s: Stamp)
    requires pos <= |data| && ReadStamp(h, data, pos, msg, path).Success?
    ensures StampOk(h, s, msg, |path|) && data[pos..ReadStamp(h, data, pos, msg, path).value.end] == PrintStamp(s)
    decreases |data| - pos, 1
  {
    hide ReadBranch, PrintBranch, BranchOk;
    if pos < |data| && data[pos] == FORK_MARKER {
      var branch := ReadBranch(h, data, pos + 1, msg, path).value;
      var b := BranchSound(h, data, pos + 1, msg, path);
      var rest := StampSound(h, data, branch.end, msg, path);
      s := Fork(b, rest);
      Spliced(data, pos, branch.end, ReadStamp(h, data, pos, msg, path).value.end);
    } else {
      var b := BranchSound(h, data, pos, msg, path);
      s := Last(b);
    }
  }

  lemma {:induction false} BranchSound(h: HashFn, data: Bytes, pos: nat, msg: Bytes,
                                       path: seq<PathStep>) returns (b: Branch)
    requires pos <= |data| && ReadBranch(h, data, pos, msg, path).Success?
    ensures BranchOk(h, b, msg, |path|) && data[pos..ReadBranch(h, data, pos, msg, path).value.end] == PrintBranch(b)
    decreases |data| - pos, 0
  {
    hide ReadStamp, PrintStamp, StampOk, ReadAttestation, Step;
    var end := ReadBranch(h, data, pos, msg, path).value.end;
    if data[pos] == ATTESTATION_MARKER {
      var mark := AttestationSound(data, pos + 1);
      Spliced(data, pos, end, end);
      b := Attest(mark);
    } else {
      var op := Step(h, data, pos + 1, data[pos], msg, |path|).value;
      var next := StampSound(h, data, op.end, Apply(h, op.value, msg), Extended(h, op.value, msg, path));
      b := OpSound(h, data, pos, msg, |path|, next);
      Spliced(data, pos, op.end, end);
    }
  }

  /** An operation read is one a tree may hold, printed as it was read. */
  lemma OpSound(h: HashFn, data: Bytes, pos: nat, msg: Bytes, ops: nat, next: Stamp) returns (b: Branch)
    requires pos < |data| && Step(h, data, pos + 1, data[pos], msg, ops).Success?
    ensures var op := Step(h, data, pos + 1, data[pos], msg, ops).value;
            && !b.Attest? && b.next == next && OpOf(b) == op.value && OpOk(h, op.value, msg, ops)
            && (b.Join? ==> b.operand.Ok(MAX_OPERAND, 1))
            && PrintBranch(b) == [data[pos]] + data[pos + 1..op.end] + PrintStamp(next)
  {
    hide PrintStamp, Apply, ReadVarbytes, VarBytes.Ok;
    if data[pos] == OP_SHA256 {
      b := Hash(next);
    } else {
      var operand := VarbytesSound(data, pos + 1, MAX_OPERAND, 1);
      b := Join(data[pos] == OP_APPEND, operand, next);
    }
  }

  // --- whole proofs ------------------------------------------------------------------------------

  datatype Proof = Proof(version: Bytes, digest: Bytes, stamp: Stamp)

  ghost predicate ProofOk(h: HashFn, p: Proof) {
    IsVaruint(p.version) && VaruintValue(p.version) == 1 && |p.digest| == 32 && StampOk(h, p.stamp, p.digest, 0)
  }

  function Print(p: Proof): Bytes {
    MAGIC + (p.version + ([0x08] + (p.digest + PrintStamp(p.stamp))))
  }

  ghost function Meaning(h: HashFn, p: Proof): Parsed
    requires ProofOk(h, p)
  {
    Parsed(p.digest, Attested(h, p.stamp, p.digest, []))
  }

  lemma HeaderCuts(data: Bytes, magic: Bytes, version: Bytes, digest: Bytes, rest: Bytes)
    requires |digest| == 32 && data == magic + (version + ([OP_SHA256] + (digest + rest)))
    ensures var m, v := |magic|, |magic| + |version|;
            && v + 33 <= |data| && data[..m] == magic && data[m..v] == version && data[v] == OP_SHA256
            && data[v + 1..v + 33] == digest && data[v + 33..] == rest
  {
    CutFront(data, magic, version + ([OP_SHA256] + (digest + rest)));
    var tail := data[|magic|..];
    CutFront(tail, version, [OP_SHA256] + (digest + rest));
    CutOp(data, |magic| + |version|, digest, rest);
  }

  lemma CutFront(data: Bytes, a: Bytes, b: Bytes)
    requires data == a + b
    ensures data[..|a|] == a && data[|a|..] == b
  {
  }

  lemma CutOp(data: Bytes, v: nat, digest: Bytes, rest: Bytes)
    requires v <= |data| && data[v..] == [OP_SHA256] + (digest + rest)
    ensures v + 1 + |digest| <= |data| && data[v] == OP_SHA256
    ensures data[v + 1..v + 1 + |digest|] == digest && data[v + 1 + |digest|..] == rest
  {
    var tail := data[v..];
    assert tail[0] == data[v] && tail[1..] == digest + rest;
    CutFront(tail[1..], digest, rest);
    assert data[v + 1..] == tail[1..];
  }

  /** A header printed is read, wherever the timestamp after it goes. */
  lemma HeaderComplete(data: Bytes, version: Bytes, digest: Bytes, rest: Bytes)
    requires IsVaruint(version) && VaruintValue(version) == VERSION && |digest| == 32
    requires data == MAGIC + (version + ([OP_SHA256] + (digest + rest)))
    ensures var start := |MAGIC| + |version| + 33;
            start <= |data| && ReadHeader(data) == Success(Read(digest, start)) && data[start..] == rest
  {
    hide MagicBytes, ReadVaruint, IsVaruint, VaruintValue;
    HeaderCuts(data, MAGIC, version, digest, rest);
    VaruintIff(data, |MAGIC|, VERSION, |MAGIC| + |version|);
  }

  lemma Split(data: Bytes, a: nat, b: nat)
    requires a <= b <= |data|
    ensures data[a..] == data[a..b] + data[b..]
  {
  }

  lemma HeaderJoins(data: Bytes, m: nat, v: nat)
    requires m <= v && v + 33 <= |data|
    ensures data == data[..m] + (data[m..v] + ([data[v]] + (data[v + 1..v + 33] + data[v + 33..])))
  {
    Split(data, m, v);
    Split(data, v, v + 1);
    Split(data, v + 1, v + 33);
  }

  lemma HeaderSound(data: Bytes) returns (version: Bytes)
    requires ReadHeader(data).Success?
    ensures var header := ReadHeader(data).value;
            && IsVaruint(version) && VaruintValue(version) == VERSION && header.end == |MAGIC| + |version| + 33
            && data == MAGIC + (version + ([OP_SHA256] + (header.value + data[header.end..])))
  {
    hide MagicBytes, ReadVaruint, IsVaruint, VaruintValue;
    var read := ReadVaruint(data, |MAGIC|).value;
    VaruintIff(data, |MAGIC|, read.value, read.end);
    version := data[|MAGIC|..read.end];
    HeaderJoins(data, |MAGIC|, read.end);
  }

  /** Parsing inverts printing: every well-formed proof is accepted and means what its tree means. */
  lemma ParseInvertsPrint(h: HashFn, p: Proof)
    requires ProofOk(h, p)
    ensures ParseProof(h, Print(p)) == Success(Meaning(h, p))
  {
    hide ReadHeader, ReadStamp, IsVaruint, VaruintValue;
    var data, start := Print(p), |MAGIC| + |p.version| + 33;
    HeaderComplete(data, p.version, p.digest, PrintStamp(p.stamp));
    assert data[start..|data|] == PrintStamp(p.stamp);
    StampComplete(h, data, start, |data|, p.stamp, p.digest, []);
  }

  /** A proof that 32 zero bytes are the merkle root of block 0. */
  function AtZero(): Proof {
    Proof([1], Zeros(32), Last(Attest(Mark(BITCOIN_TAG, VarBytes([1], [0])))))
  }

  lemma AtZeroParses(h: HashFn)
    ensures ParseProof(h, Print(AtZero())) == Success(Parsed(Zeros(32), [Attestation(Bitcoin(0), Zeros(32), [])]))
  {
    hide ParseProof, Print;
    var mark := Mark(BITCOIN_TAG, VarBytes([1], [0]));
    assert mark.Says(Bitcoin(0));
    assert forall kind | mark.Says(kind) :: kind == Bitcoin(0);
    assert BranchOk(h, Attest(mark), Zeros(32), 0);
    assert AttestedBy(h, Attest(mark), Zeros(32), []) == [Attestation(Bitcoin(0), Zeros(32), [])];
    ParseInvertsPrint(h, AtZero());
  }

  /** Nothing else is accepted. */
  lemma AcceptedIsPrinted(h: HashFn, data: Bytes) returns (p: Proof)
    requires ParseProof(h, data).Success?
    ensures ProofOk(h, p) && Print(p) == data && ParseProof(h, data) == Success(Meaning(h, p))
  {
    hide ReadHeader, ReadStamp, PrintStamp, StampOk, IsVaruint, VaruintValue;
    var header := ReadHeader(data).value;
    var version := HeaderSound(data);
    var s := StampSound(h, data, header.end, header.value, []);
    assert data[header.end..] == data[header.end..|data|];
    p := Proof(version, header.value, s);
    ParseInvertsPrint(h, p);
  }

  /** The language: the accepted inputs are the printed forms of the well-formed proofs, with their meanings. */
  lemma Language(h: HashFn, data: Bytes, parsed: Parsed)
    ensures ParseProof(h, data) == Success(parsed)
            <==> exists p :: ProofOk(h, p) && Print(p) == data && Meaning(h, p) == parsed
  {
    if ParseProof(h, data) == Success(parsed) {
      var p := AcceptedIsPrinted(h, data);
    }
    if exists p :: ProofOk(h, p) && Print(p) == data && Meaning(h, p) == parsed {
      var p :| ProofOk(h, p) && Print(p) == data && Meaning(h, p) == parsed;
      ParseInvertsPrint(h, p);
    }
  }

  /** No accepted input is a strict prefix, or an extension, of another. */
  lemma PrefixFree(h: HashFn, data: Bytes, longer: Bytes)
    requires data <= longer && ParseProof(h, data).Success? && ParseProof(h, longer).Success?
    ensures data == longer
  {
    hide ReadHeader, ReadStamp, PrintStamp, StampOk, IsVaruint, VaruintValue, Attested;
    var p := AcceptedIsPrinted(h, data);
    var stamp, more := PrintStamp(p.stamp), longer[|data|..];
    ProofThen(p, stamp, more, longer);
    var start := |MAGIC| + |p.version| + 33;
    HeaderComplete(longer, p.version, p.digest, stamp + more);
    assert longer[start..|longer|] == stamp + more;
    Cut(longer, start, |longer|, stamp, more);
    StampComplete(h, longer, start, |data|, p.stamp, p.digest, []);
  }

  lemma ProofThen(p: Proof, stamp: Bytes, more: Bytes, longer: Bytes)
    requires stamp == PrintStamp(p.stamp) && Print(p) <= longer && more == longer[|Print(p)|..]
    ensures longer == MAGIC + (p.version + ([OP_SHA256] + (p.digest + (stamp + more))))
  {
    hide PrintStamp;
    assert longer == Print(p) + more;
  }

  ghost predicate SaysVersionOne(b: Bytes) {
    IsVaruint(b) && VaruintValue(b) == VERSION
  }

  /** However the version is written, the proof is read alike. */
  lemma VersionsAgree(h: HashFn, version: Bytes, other: Bytes, rest: Bytes)
    requires SaysVersionOne(version) && SaysVersionOne(other) && ParseProof(h, MAGIC + (version + rest)).Success?
    ensures ParseProof(h, MAGIC + (other + rest)) == ParseProof(h, MAGIC + (version + rest))
  {
    hide ParseProof, PrintStamp, StampOk, Attested, IsVaruint, VaruintValue;
    var data := MAGIC + (version + rest);
    var p := AcceptedIsPrinted(h, data);
    var tail := [OP_SHA256] + (p.digest + PrintStamp(p.stamp));
    assert data[|MAGIC|..] == version + rest && data[|MAGIC|..] == p.version + tail;
    SameVaruint(version, rest, p.version, tail);
    ParseInvertsPrint(h, p.(version := other));
  }

  /** Printing does not invert parsing: a version in two bytes is read like the one byte the writer writes. */
  lemma TwoBytesForVersionOne(h: HashFn, rest: Bytes, parsed: Parsed)
    ensures ParseProof(h, MAGIC + ([0x81, 0x00] + rest)) == Success(parsed) <==>
            ParseProof(h, MAGIC + (Varuint(VERSION) + rest)) == Success(parsed)
  {
    hide ParseProof;
    var two: Bytes := [0x81, 0x00];
    assert SaysVersionOne(two) by { assert two[1..] == [0x00] && two[1..][1..] == []; }
    assert SaysVersionOne(Varuint(VERSION)) by { assert Varuint(VERSION)[1..] == []; }
    hide SaysVersionOne;
    if ParseProof(h, MAGIC + (two + rest)).Success? { VersionsAgree(h, two, Varuint(VERSION), rest); }
    if ParseProof(h, MAGIC + (Varuint(VERSION) + rest)).Success? { VersionsAgree(h, Varuint(VERSION), two, rest); }
  }

  /** A varuint ends itself: two that begin the same bytes are the same. */
  lemma SameVaruint(a: Bytes, restA: Bytes, b: Bytes, restB: Bytes)
    requires IsVaruint(a) && IsVaruint(b) && a + restA == b + restB
    ensures a == b && restA == restB
  {
    hide VaruintValue;
    var data := a + restA;
    assert data[..|a|] == a && data[..|b|] == b && data[|a|..] == restA && data[|b|..] == restB;
    assert data[|a| - 1] == a[|a| - 1] && data[|b| - 1] == b[|b| - 1];
    assert forall i :: 0 <= i < |a| - 1 ==> data[i] == a[i];
    assert forall i :: 0 <= i < |b| - 1 ==> data[i] == b[i];
    assert |a| == |b|;
  }

  // --- what an accepted proof means --------------------------------------------------------------

  /** A path replays from the digest to the message: each result is its operation applied to the result before it. */
  ghost predicate Replays(h: HashFn, digest: Bytes, path: seq<PathStep>, msg: Bytes) {
    && |path| <= 255
    && msg == ResultOf(digest, path)
    && forall k :: 0 <= k < |path| ==>
         path[k].result == Apply(h, path[k].op, ResultOf(digest, path[..k])) && |path[k].result| <= 4096
  }

  function ResultOf(digest: Bytes, path: seq<PathStep>): Bytes {
    if path == [] then digest else path[|path| - 1].result
  }

  lemma ReplaysFurther(h: HashFn, digest: Bytes, path: seq<PathStep>, msg: Bytes, op: Op)
    requires Replays(h, digest, path, msg) && |path| < MAX_OPS_ON_A_PATH && |Apply(h, op, msg)| <= MAX_OPERAND
    ensures Replays(h, digest, Extended(h, op, msg, path), Apply(h, op, msg))
  {
    hide Apply;
    var longer := Extended(h, op, msg, path);
    forall k | 0 <= k < |longer|
      ensures longer[k].result == Apply(h, longer[k].op, ResultOf(digest, longer[..k]))
      ensures |longer[k].result| <= MAX_OPERAND
    {
      assert longer[..k] == path[..k];
      if k == |path| { assert path[..k] == path; }
    }
  }

  /** Some attestations, each about the message its path, a continuation of `path`, replays to. */
  ghost predicate AllReplay(h: HashFn, digest: Bytes, path: seq<PathStep>, found: seq<Attestation>) {
    && found != []
    && forall a :: a in found ==> |path| <= |a.path| && a.path[..|path|] == path && Replays(h, digest, a.path, a.msg)
  }

  lemma FromShorter(h: HashFn, digest: Bytes, longer: seq<PathStep>, path: seq<PathStep>, found: seq<Attestation>)
    requires AllReplay(h, digest, longer, found) && |path| <= |longer| && longer[..|path|] == path
    ensures AllReplay(h, digest, path, found)
  {
    hide Replays;
    forall a | a in found ensures |path| <= |a.path| && a.path[..|path|] == path {
      assert a.path[..|longer|][..|path|] == a.path[..|path|];
    }
  }

  /** Every attestation is about the message its path replays to, and there is at least one. */
  lemma {:induction false} StampReplays(h: HashFn, digest: Bytes, data: Bytes, pos: nat, msg: Bytes,
                                        path: seq<PathStep>)
    requires pos <= |data| && Replays(h, digest, path, msg)
    ensures ReadStamp(h, data, pos, msg, path).Success? ==>
              AllReplay(h, digest, path, ReadStamp(h, data, pos, msg, path).value.value)
    decreases |data| - pos, 1
  {
    hide Replays, ReadBranch;
    if pos < |data| && data[pos] == FORK_MARKER {
      BranchReplays(h, digest, data, pos + 1, msg, path);
      var branch := ReadBranch(h, data, pos + 1, msg, path);
      if branch.Success? { StampReplays(h, digest, data, branch.value.end, msg, path); }
    } else {
      BranchReplays(h, digest, data, pos, msg, path);
    }
  }

  lemma {:induction false} BranchReplays(h: HashFn, digest: Bytes, data: Bytes, pos: nat, msg: Bytes,
                                         path: seq<PathStep>)
    requires pos <= |data| && Replays(h, digest, path, msg)
    ensures ReadBranch(h, data, pos, msg, path).Success? ==>
              AllReplay(h, digest, path, ReadBranch(h, data, pos, msg, path).value.value)
    decreases |data| - pos, 0
  {
    hide Replays, Step, ReadAttestation, Apply, ReadStamp, Extended;
    if pos < |data| && data[pos] != FORK_MARKER && data[pos] != ATTESTATION_MARKER {
      hide AllReplay;
      var op := Step(h, data, pos + 1, data[pos], msg, |path|);
      if op.Success? {
        var longer := Extended(h, op.value.value, msg, path);
        ReplaysFurther(h, digest, path, msg, op.value.value);
        StampReplays(h, digest, data, op.value.end, Apply(h, op.value.value, msg), longer);
        var stamp := ReadStamp(h, data, op.value.end, Apply(h, op.value.value, msg), longer);
        if stamp.Success? { FromShorter(h, digest, longer, path, stamp.value.value); }
      }
    }
  }

  lemma AttestationsReplay(h: HashFn, data: Bytes)
    requires ParseProof(h, data).Success?
    ensures var parsed := ParseProof(h, data).value;
            |parsed.digest| == 32 && AllReplay(h, parsed.digest, [], parsed.attestations)
  {
    hide ReadHeader, ReadStamp, AllReplay;
    var header := ReadHeader(data).value;
    StampReplays(h, header.value, data, header.end, header.value, []);
  }
}
