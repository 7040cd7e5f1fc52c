/**
 * The claim verifier's header-chain check and its verdict (ops/verify_claim.py: verify_chain, main). Its meaning is
 * pinning: under one checkpoint every header at or below it is determined, or two inputs of sha256d collide.
 */
module HeaderChain {
  import opened Octets
  import opened Wrappers
  import opened OtsFormat
  import opened ProofParser
  import opened CompactTarget

  const HEADER_SIZE := 80

  /** The genesis block's hash, in the byte order hashes have inside headers. */
  function Genesis(network: Network): (r: Bytes)
    ensures |r| == 32
  {
    match network
    case Mainnet =>
      [0x6f, 0xe2, 0x8c, 0x0a, 0xb6, 0xf1, 0xb3, 0x72, 0xc1, 0xa6, 0xa2, 0x46, 0xae, 0x63, 0xf7, 0x4f,
       0x93, 0x1e, 0x83, 0x65, 0xe1, 0x5a, 0x08, 0x9c, 0x68, 0xd6, 0x19, 0x00, 0x00, 0x00, 0x00, 0x00]
    case Regtest =>
      [0x06, 0x22, 0x6e, 0x46, 0x11, 0x1a, 0x0b, 0x59, 0xca, 0xaf, 0x12, 0x60, 0x43, 0xeb, 0x5b, 0xbf,
       0x28, 0xc3, 0x4f, 0x3a, 0x5e, 0x33, 0x2a, 0x1f, 0xc7, 0xb2, 0xb7, 0x3c, 0xf1, 0x88, 0x91, 0x0f]
  }

  function LittleEndian(b: Bytes): nat {
    if b == [] then 0 else b[0] + 256 * LittleEndian(b[1..])
  }

  function U32(b: Bytes): Bits
    requires |b| == 4
  {
    (b[0] as int) + 0x100 * (b[1] as int) + 0x1_0000 * (b[2] as int) + 0x100_0000 * (b[3] as int)
  }

  /** Four of its bytes as hashes are displayed, last byte first. */
  function Displayed(b: Bytes, at: nat): nat
    requires |b| == 32 && 3 <= at < 32
  {
    (((b[at] as nat) * 0x100 + b[at - 1]) * 0x100 + b[at - 2]) * 0x100 + b[at - 3]
  }

  lemma MainnetDisplayed()
    ensures var g := Genesis(Mainnet);
            && Displayed(g, 31) == 0x00000000 && Displayed(g, 27) == 0x0019d668 && Displayed(g, 23) == 0x9c085ae1
            && Displayed(g, 19) == 0x65831e93 && Displayed(g, 15) == 0x4ff763ae && Displayed(g, 11) == 0x46a2a6c1
            && Displayed(g, 7) == 0x72b3f1b6 && Displayed(g, 3) == 0x0a8ce26f
  {
  }

  lemma RegtestDisplayed()
    ensures var g := Genesis(Regtest);
            && Displayed(g, 31) == 0x0f9188f1 && Displayed(g, 27) == 0x3cb7b2c7 && Displayed(g, 23) == 0x1f2a335e
            && Displayed(g, 19) == 0x3a4fc328 && Displayed(g, 15) == 0xbf5beb43 && Displayed(g, 11) == 0x6012afca
            && Displayed(g, 7) == 0x590b1a11 && Displayed(g, 3) == 0x466e2206
  {
  }

  // --- headers -----------------------------------------------------------------------------------

  function Count(raw: Bytes): nat {
    |raw| / HEADER_SIZE
  }

  function Header(raw: Bytes, i: nat): (r: Bytes)
    requires i < Count(raw)
    ensures |r| == HEADER_SIZE
  {
    raw[i * HEADER_SIZE..(i + 1) * HEADER_SIZE]
  }

  /** What the check reads of a header: its own hash and its fields. */
  datatype Head = Head(hash: Bytes, prev: Bytes, root: Bytes, time: Bits, bits: Bits)

  function HeadOf(h: HashFn, header: Bytes): Head
    requires |header| == HEADER_SIZE
  {
    Head(h.Twice(header), header[4..36], Root(header), U32(header[68..72]), U32(header[72..76]))
  }

  function Heads(h: HashFn, raw: Bytes): (r: seq<Head>)
    ensures |r| == Count(raw)
    ensures forall i :: 0 <= i < |r| ==> r[i] == HeadOf(h, Header(raw, i))
  {
    seq(Count(raw), (i: nat) requires i < Count(raw) => HeadOf(h, Header(raw, i)))
  }

  /** A headers file as the verifier is given it: its bytes and the height its first header is said to have. */
  datatype File = File(raw: Bytes, start: int)

  datatype Checkpoint = Checkpoint(height: int, hash: Bytes)

  datatype Problem =
    | PartialHeader | EmptyFile | NoSuchCheckpoint | CheckpointMismatch
    | NotGenesis(height: int) | Unlinked(height: int) | InvalidTarget(height: int, error: TargetError)
    | NoWork(height: int) | BitsChanged(height: int) | WrongRetarget(height: int)

  /** Whether a block at this height starts a new difficulty period. */
  predicate StartsPeriod(height: int) {
    height % RETARGET_INTERVAL == 0
  }

  predicate WholeHeaders(raw: Bytes) {
    |raw| % HEADER_SIZE == 0
  }

  // --- what one header must meet -----------------------------------------------------------------

  /** It links to the header before it; the first is genesis when the file says it starts there. */
  predicate Linked(network: Network, start: int, heads: seq<Head>, i: nat)
    requires i < |heads|
  {
    if i > 0 then heads[i].prev == heads[i - 1].hash
    else start == 0 ==> heads[0].hash == Genesis(network)
  }

  /** Its target is valid and its hash, as a number, does not exceed it. */
  predicate Worked(network: Network, head: Head) {
    var target := CheckTarget(head.bits, network);
    target.Success? && LittleEndian(head.hash) <= target.value
  }

  /** Its bits are the last header's, or at a retarget whose period the file holds, the adjustment's. */
  predicate KeepsDifficulty(network: Network, start: int, heads: seq<Head>, i: nat)
    requires i < |heads|
  {
    network.Retargets() && i > 0 ==>
      if !StartsPeriod(start + i) then heads[i].bits == heads[i - 1].bits
      else i >= RETARGET_INTERVAL ==>
             heads[i].bits == NextBits(heads[i - RETARGET_INTERVAL].time, heads[i - 1].time, heads[i - 1].bits, network)
  }

  predicate HeaderOk(network: Network, start: int, heads: seq<Head>, i: nat)
    requires i < |heads|
  {
    Linked(network, start, heads, i) && Worked(network, heads[i]) && KeepsDifficulty(network, start, heads, i)
  }

  predicate AllOk(network: Network, start: int, heads: seq<Head>, n: nat)
    requires n <= |heads|
  {
    forall i :: 0 <= i < n ==> HeaderOk(network, start, heads, i)
  }

  /** A whole number of headers, at least one, each as it must be. */
  predicate Sound(h: HashFn, network: Network, f: File) {
    var heads := Heads(h, f.raw);
    heads != [] && WholeHeaders(f.raw) && AllOk(network, f.start, heads, |heads|)
  }

  /** The stated checkpoint, if any, is a header of the file. */
  predicate Holds(start: int, heads: seq<Head>, checkpoint: Option<Checkpoint>) {
    checkpoint.Some? ==>
      var cp := checkpoint.value;
      start <= cp.height < start + |heads| && heads[cp.height - start].hash == cp.hash
  }

  // --- verify_chain ------------------------------------------------------------------------------

  /** ChainResult; `authenticated` is the height up to which the tie authenticates headers. */
  datatype ChainResult = ChainResult(problems: seq<Problem>, checked: nat, retargets: nat, unchecked: seq<int>,
                                     found: map<Bytes, int>, authenticated: Option<int>)
  {
    predicate Ok() {
      problems == []
    }
  }

  /** How far the tie reaches: the checkpoint's height or genesis's, whichever is higher; nothing without either. */
  function Authenticated(start: int, checkpoint: Option<Checkpoint>): Option<int> {
    if checkpoint.Some? then Some(if checkpoint.value.height > 0 then checkpoint.value.height else 0)
    else if start == 0 then Some(0)
    else None
  }

  /**
   * The heights of the retargets among the first n headers: those recomputed, or those whose period starts before the
   * file.
   */
  function Retargets(network: Network, start: int, n: nat, known: bool): seq<int> {
    if n == 0 then []
    else Retargets(network, start, n - 1, known) + RetargetAt(network, start, n - 1, known)
  }

  function RetargetAt(network: Network, start: int, i: nat, known: bool): seq<int> {
    if network.Retargets() && i > 0 && StartsPeriod(start + i) && (i >= RETARGET_INTERVAL) == known then [start + i]
    else []
  }

  /** The height of the last of the first n headers with a given hash, for the hashes looked for. */
  function Found(start: int, heads: seq<Head>, wanted: set<Bytes>, n: nat): map<Bytes, int>
    requires n <= |heads|
  {
    if n == 0 then map[]
    else
      var before, hash := Found(start, heads, wanted, n - 1), heads[n - 1].hash;
      if hash in wanted then before[hash := start + n - 1] else before
  }

  /** What a walk over some headers must report. */
  ghost predicate Reported(network: Network, start: int, heads: seq<Head>, wanted: set<Bytes>, r: ChainResult) {
    && r.checked <= |heads| && AllOk(network, start, heads, r.checked)
    && (r.Ok() <==> r.checked == |heads|)
    && (r.checked < |heads| ==> !HeaderOk(network, start, heads, r.checked))
    && r.found == Found(start, heads, wanted, r.checked)
    && r.retargets == |Retargets(network, start, r.checked, true)|
    && r.unchecked == Retargets(network, start, r.checked, false)
  }

  /** One header's tests, in the code's order. */
  method CheckHeader(network: Network, start: int, heads: seq<Head>, i: nat, prevHash: Bytes,
                     prevBits: Bits) returns (problem: Option<Problem>)
    requires i < |heads| && (i > 0 ==> prevHash == heads[i - 1].hash && prevBits == heads[i - 1].bits)
    ensures problem.None? <==> HeaderOk(network, start, heads, i)
  {
    hide CheckTarget, NextBits, LittleEndian, Genesis, StartsPeriod;
    var height, head := start + i, heads[i];
    if i == 0 {
      if height == 0 && head.hash != Genesis(network) { return Some(NotGenesis(height)); }
    } else if head.prev != prevHash {
      return Some(Unlinked(height));
    }
    var target := CheckTarget(head.bits, network);
    if target.Failure? { return Some(InvalidTarget(height, target.error)); }
    if LittleEndian(head.hash) > target.value { return Some(NoWork(height)); }
    if network.Retargets() && i > 0 {
      if !StartsPeriod(height) {
        if head.bits != prevBits { return Some(BitsChanged(height)); }
      } else if i >= RETARGET_INTERVAL {
        var expected := NextBits(heads[i - RETARGET_INTERVAL].time, heads[i - 1].time, prevBits, network);
        if head.bits != expected { return Some(WrongRetarget(height)); }
      }
    }
    return None;
  }

  /** verify_chain's walk: it stops at the first header that is not as it must be. */
  method WalkHeaders(network: Network, start: int, heads: seq<Head>, wanted: set<Bytes>) returns (r: ChainResult)
    ensures Reported(network, start, heads, wanted, r) && r.authenticated == None
  {
    hide HeaderOk, RetargetAt;
    var problems: seq<Problem> := [];
    var found: map<Bytes, int>, unchecked: seq<int>, retargets := map[], [], 0;
    var prevHash: Bytes, prevBits: Bits := [], 0;
    var i := 0;
    while i < |heads|
      invariant 0 <= i <= |heads| && AllOk(network, start, heads, i)
      invariant i > 0 ==> prevHash == heads[i - 1].hash && prevBits == heads[i - 1].bits
      invariant found == Found(start, heads, wanted, i)
      invariant retargets == |Retargets(network, start, i, true)| && unchecked == Retargets(network, start, i, false)
    {
      var problem := CheckHeader(network, start, heads, i, prevHash, prevBits);
      if problem.Some? { return ChainResult([problem.value], i, retargets, unchecked, found, None); }
      retargets := retargets + |RetargetAt(network, start, i, true)|;
      unchecked := unchecked + RetargetAt(network, start, i, false);
      if heads[i].hash in wanted { found := found[heads[i].hash := start + i]; }
      prevHash, prevBits := heads[i].hash, heads[i].bits;
      i := i + 1;
    }
    return ChainResult([], i, retargets, unchecked, found, None);
  }

  /**
   * verify_chain: a file is accepted exactly when it is sound and holds the checkpoint; the tie then reaches as far as
   * it does.
   */
  method VerifyChain(h: HashFn, f: File, checkpoint: Option<Checkpoint>, wanted: set<Bytes>, network: Network)
    returns (r: ChainResult)
    ensures r.Ok() <==> Sound(h, network, f) && Holds(f.start, Heads(h, f.raw), checkpoint)
    ensures Count(f.raw) > 0 && Holds(f.start, Heads(h, f.raw), checkpoint) && WholeHeaders(f.raw) ==>
              Reported(network, f.start, Heads(h, f.raw), wanted, r)
    ensures r.authenticated == if r.Ok() then Authenticated(f.start, checkpoint) else None
  {
    hide Heads, WholeHeaders, Count, HeaderOk, Found, Retargets;
    var heads := Heads(h, f.raw);
    var problems: seq<Problem> := if WholeHeaders(f.raw) then [] else [PartialHeader];
    if heads == [] { return ChainResult(problems + [EmptyFile], 0, 0, [], map[], None); }
    if checkpoint.Some? {
      var cp := checkpoint.value;
      if !(f.start <= cp.height < f.start + |heads|) {
        return ChainResult(problems + [NoSuchCheckpoint], 0, 0, [], map[], None);
      }
      if heads[cp.height - f.start].hash != cp.hash {
        return ChainResult(problems + [CheckpointMismatch], 0, 0, [], map[], None);
      }
    }
    r := WalkHeaders(network, f.start, heads, wanted);
    r := r.(problems := problems + r.problems);
    if r.problems == [] && (checkpoint.Some? || f.start == 0) {
      var reach := if checkpoint.Some? && checkpoint.value.height > 0 then checkpoint.value.height else 0;
      r := r.(authenticated := Some(reach));
    }
  }

  // --- by height ---------------------------------------------------------------------------------

  /** What a header of a given height must be, by the heights its neighbours have. */
  ghost predicate FitsAt(network: Network, start: int, heads: seq<Head>, height: int)
    requires start <= height < start + |heads|
  {
    var head := heads[height - start];
    && (if height > start then head.prev == heads[height - 1 - start].hash
        else height == 0 ==> head.hash == Genesis(network))
    && (exists target :: CheckTarget(head.bits, network) == Success(target) && !(LittleEndian(head.hash) > target))
    && (network == Mainnet && height > start ==>
          && (height % 2016 != 0 ==> head.bits == heads[height - 1 - start].bits)
          && (height % 2016 == 0 && height - 2016 >= start ==>
                head.bits == NextBits(heads[height - 2016 - start].time, heads[height - 1 - start].time,
                                      heads[height - 1 - start].bits, network)))
  }

  /** A file is sound exactly when it is headers of 80 bytes, at least one, each fit for its height. */
  lemma SoundByHeight(h: HashFn, network: Network, f: File)
    ensures Sound(h, network, f)
            <==> (|f.raw| > 0 && |f.raw| % 80 == 0
                  && forall height :: f.start <= height < f.start + |f.raw| / 80 ==>
                       FitsAt(network, f.start, Heads(h, f.raw), height))
  {
    hide Heads, CheckTarget, NextBits, LittleEndian, Genesis;
    var heads := Heads(h, f.raw);
    hide HeaderOk, FitsAt;
    forall i | 0 <= i < |heads| ensures HeaderOk(network, f.start, heads, i)
                                    <==> FitsAt(network, f.start, heads, f.start + i) {
      FitsIs(network, f.start, heads, i);
    }
    if forall height :: f.start <= height < f.start + |heads| ==> FitsAt(network, f.start, heads, height) {
      forall i | 0 <= i < |heads| ensures HeaderOk(network, f.start, heads, i) {
        assert FitsAt(network, f.start, heads, f.start + i);
      }
    }
    if AllOk(network, f.start, heads, |heads|) {
      forall height | f.start <= height < f.start + |heads| ensures FitsAt(network, f.start, heads, height) {
        assert HeaderOk(network, f.start, heads, height - f.start);
      }
    }
  }

  lemma FitsIs(network: Network, start: int, heads: seq<Head>, i: nat)
    requires i < |heads|
    ensures HeaderOk(network, start, heads, i) <==> FitsAt(network, start, heads, start + i)
  {
    hide CheckTarget, NextBits, LittleEndian, Genesis;
  }

  /** A height that starts a period, by whether the file holds the period before it. */
  ghost predicate RetargetHeight(network: Network, start: int, known: bool, height: int) {
    network == Mainnet && start < height && height % 2016 == 0 && (known <==> height - 2016 >= start)
  }

  /** The retargets reported, or reported as not recomputed, are those heights of the file, lowest first. */
  lemma {:induction false} RetargetsAre(network: Network, start: int, n: nat, known: bool)
    ensures var r := Retargets(network, start, n, known);
            && (forall height :: height in r <==> height < start + n && RetargetHeight(network, start, known, height))
            && (forall i, j :: 0 <= i < j < |r| ==> r[i] < r[j])
    decreases n
  {
    if n > 0 {
      RetargetsAre(network, start, n - 1, known);
      var before, at := Retargets(network, start, n - 1, known), start + n - 1;
      var last := RetargetAt(network, start, n - 1, known);
      assert last == if RetargetHeight(network, start, known, at) then [at] else [];
      assert Retargets(network, start, n, known) == before + last;
      hide RetargetAt, RetargetHeight;
      assert forall i :: 0 <= i < |before| ==> before[i] in before;
    }
  }

  // --- pinning -----------------------------------------------------------------------------------

  predicate Collision(h: HashFn, x: Bytes, y: Bytes) {
    x != y && h.Twice(x) == h.Twice(y)
  }

  /** Sound under a network's rules and holding a checkpoint. */
  predicate Anchored(h: HashFn, network: Network, f: File, cp: Checkpoint) {
    Sound(h, network, f) && Holds(f.start, Heads(h, f.raw), Some(cp))
  }

  /**
   * Two sound files that hold one checkpoint have the same bytes at every height both have at or below it, wherever
   * each starts; or here are two inputs that sha256d does not tell apart.
   */
  lemma {:induction false} Pinned(h: HashFn, network: Network, a: File, b: File, cp: Checkpoint,
                                  height: int) returns (x: Bytes, y: Bytes)
    requires Anchored(h, network, a, cp) && Anchored(h, network, b, cp)
    requires Has(a, height) && Has(b, height) && height <= cp.height
    ensures At(a, height) == At(b, height) || Collision(h, x, y)
    decreases cp.height - height
  {
    hide Anchored, At, Collision;
    AtCheckpoint(h, network, a, cp);
    AtCheckpoint(h, network, b, cp);
    if height == cp.height {
      x, y := At(a, height), At(b, height);
      Collides(h, x, y);
    } else {
      x, y := Pinned(h, network, a, b, cp, height + 1);
      if !Collision(h, x, y) {
        SameBelow(h, network, a, b, cp, height);
        x, y := At(a, height), At(b, height);
        Collides(h, x, y);
      }
    }
  }

  predicate Has(f: File, height: int) {
    f.start <= height < f.start + Count(f.raw)
  }

  /** The header a file holds for a height. */
  function At(f: File, height: int): (r: Bytes)
    requires Has(f, height)
    ensures |r| == HEADER_SIZE
  {
    Header(f.raw, height - f.start)
  }

  lemma Collides(h: HashFn, x: Bytes, y: Bytes)
    requires h.Twice(x) == h.Twice(y)
    ensures x == y || Collision(h, x, y)
  {
  }

  lemma AtCheckpoint(h: HashFn, network: Network, f: File, cp: Checkpoint)
    requires Anchored(h, network, f, cp)
    ensures Has(f, cp.height) && h.Twice(At(f, cp.height)) == cp.hash
  {
    hide Sound, Header, HashFn.Twice;
  }

  /** Equal headers name equal headers before them. */
  lemma SameBelow(h: HashFn, network: Network, a: File, b: File, cp: Checkpoint, height: int)
    requires Anchored(h, network, a, cp) && Anchored(h, network, b, cp)
    requires Has(a, height) && Has(b, height) && Has(a, height + 1) && Has(b, height + 1)
    requires At(a, height + 1) == At(b, height + 1)
    ensures h.Twice(At(a, height)) == h.Twice(At(b, height))
  {
    NamesBefore(h, network, a, height + 1 - a.start);
    NamesBefore(h, network, b, height + 1 - b.start);
    hide Sound, Holds, Header, HashFn.Twice, Count;
  }

  lemma NamesBefore(h: HashFn, network: Network, f: File, i: nat)
    requires Sound(h, network, f) && 0 < i < Count(f.raw)
    ensures Header(f.raw, i)[4..36] == h.Twice(Header(f.raw, i - 1))
  {
    hide Header, HashFn.Twice, Worked, KeepsDifficulty;
    assert HeaderOk(network, f.start, Heads(h, f.raw), i);
  }

  // --- the verdict -------------------------------------------------------------------------------

  datatype Verdict = Fails | Incomplete | Held

  function FirstBitcoin(attestations: seq<Attestation>): (r: Option<Attestation>)
    ensures r.Some? ==> r.value in attestations && r.value.kind.Bitcoin?
    ensures r.None? ==> forall a :: a in attestations ==> !a.kind.Bitcoin?
  {
    if attestations == [] then None
    else if attestations[0].kind.Bitcoin? then Some(attestations[0])
    else FirstBitcoin(attestations[1..])
  }

  /** What the verdict needs of a proof: it parses, is about the digest, and has a Bitcoin attestation. */
  function Claim(h: HashFn, digest: Bytes, proof: Bytes): (r: Option<Attestation>)
    ensures r.Some? ==> r.value.kind.Bitcoin?
  {
    var parsed := ParseProof(h, proof);
    if parsed.Failure? || parsed.value.digest != digest then None else FirstBitcoin(parsed.value.attestations)
  }

  /** The file's header at the attested height has the attested message as its merkle root. */
  predicate Carries(f: File, claim: Attestation)
    requires claim.kind.Bitcoin?
  {
    Has(f, claim.kind.height) && Root(At(f, claim.kind.height)) == claim.msg
  }

  function Root(header: Bytes): Bytes
    requires |header| == HEADER_SIZE
  {
    header[36..68]
  }

  /**
   * Everything but the tie: the proof is the digest's, a sound file carries what it attests, the checkpoint is in the
   * file.
   */
  predicate Checked(h: HashFn, digest: Bytes, proof: Bytes, f: File, checkpoint: Option<Checkpoint>, network: Network) {
    var claim := Claim(h, digest, proof);
    claim.Some? && Carries(f, claim.value) && Sound(h, network, f) && Holds(f.start, Heads(h, f.raw), checkpoint)
  }

  predicate TiedAt(f: File, checkpoint: Option<Checkpoint>, height: int) {
    Authenticated(f.start, checkpoint).Some? && height <= Authenticated(f.start, checkpoint).value
  }

  /** A verdict of HOLDS. */
  predicate VerdictHolds(h: HashFn, digest: Bytes, proof: Bytes, f: File, checkpoint: Option<Checkpoint>,
                         network: Network) {
    Checked(h, digest, proof, f, checkpoint, network)
      && TiedAt(f, checkpoint, Claim(h, digest, proof).value.kind.height)
  }

  /** main, from the exhibit's digest on: what each of its three verdicts means. */
  method Judge(h: HashFn, digest: Bytes, proof: Bytes, f: File, checkpoint: Option<Checkpoint>, wanted: set<Bytes>,
               network: Network)
    returns (v: Verdict)
    ensures v == Fails <==> !Checked(h, digest, proof, f, checkpoint, network)
    ensures v == Held <==> VerdictHolds(h, digest, proof, f, checkpoint, network)
  {
    hide ParseProof, FirstBitcoin, Sound, Holds, Authenticated, At, Has, Root, Heads;
    var parsed := ParseProofLoop(h, proof);
    if parsed.Failure? || parsed.value.digest != digest { return Fails; }
    var claim := FirstBitcoin(parsed.value.attestations);
    if claim.None? { return Fails; }
    var height := claim.value.kind.height;
    if !Has(f, height) { return Fails; }
    var same := Root(At(f, height)) == claim.value.msg;
    var chain := VerifyChain(h, f, checkpoint, wanted, network);
    if !same || !chain.Ok() { return Fails; }
    if chain.authenticated.None? || chain.authenticated.value < height { return Incomplete; }
    return Held;
  }

  /**
   * A verdict that holds under a checkpoint is about a block at or below it exactly when the checkpoint's height is
   * not negative: a file said to start below zero lets genesis's height stand in for a checkpoint below it.
   */
  lemma HeldAtOrBelow(h: HashFn, digest: Bytes, proof: Bytes, f: File, cp: Checkpoint, network: Network)
    requires VerdictHolds(h, digest, proof, f, Some(cp), network)
    ensures Claim(h, digest, proof).value.kind.height <= cp.height <==> cp.height >= 0
  {
    hide Sound, Holds, Claim, Carries;
  }

  // A verdict that holds for a block above its checkpoint.

  /** A hash that tells nothing apart. */
  function Blind(): HashFn {
    HashFn(_ => Zeros(32))
  }

  /** A header of zeros but for its bits, which make the target 1. */
  function EasyHeader(): (r: Bytes)
    ensures |r| == HEADER_SIZE
  {
    Zeros(72) + [1, 0, 0, 3] + Zeros(4)
  }

  lemma AtZeroClaims()
    ensures var claim := Claim(Blind(), Zeros(32), Print(AtZero()));
            claim.Some? && claim.value.kind == Bitcoin(0) && claim.value.msg == Zeros(32)
  {
    hide ParseProof, Print;
    AtZeroParses(Blind());
  }

  lemma {:induction false} ZerosAreZero(n: nat)
    ensures LittleEndian(Zeros(n)) == 0
  {
    if n > 0 {
      ZerosAreZero(n - 1);
      assert Zeros(n)[1..] == Zeros(n - 1);
    }
  }

  lemma EasyHead()
    ensures var head := HeadOf(Blind(), EasyHeader());
            && head.hash == Zeros(32) && head.prev == Zeros(32) && head.root == Zeros(32)
            && CheckTarget(head.bits, Regtest) == Success(1)
  {
    hide CheckTarget, LittleEndian;
    assert EasyHeader()[4..36] == Zeros(32) && EasyHeader()[36..68] == Zeros(32);
    assert EasyHeader()[72..76] == [1, 0, 0, 3];
    EasyTarget(0x0300_0001);
  }

  lemma EasyTarget(bits: nat)
    requires bits == 0x0300_0001
    ensures CheckTarget(bits, Regtest) == Success(1)
  {
    hide Pow256;
    FirstPowers();
    PowersOrder();
  }

  /**
   * The other side of the condition: a file said to start at -1, whose checkpoint is its first header, ties its second.
   */
  lemma HeldAboveCheckpoint()
    ensures var f := File(EasyHeader() + EasyHeader(), -1);
            VerdictHolds(Blind(), Zeros(32), Print(AtZero()), f, Some(Checkpoint(-1, Zeros(32))), Regtest)
  {
    hide Claim, HeadOf, EasyHeader, Print, AtZero, CheckTarget, LittleEndian, Zeros;
    var h, f := Blind(), File(EasyHeader() + EasyHeader(), -1);
    AtZeroClaims();
    EasyHead();
    ZerosAreZero(32);
    assert Header(f.raw, 0) == EasyHeader() && Header(f.raw, 1) == EasyHeader();
    var heads := Heads(h, f.raw);
    assert heads[0] == heads[1] == HeadOf(h, EasyHeader());
    assert HeaderOk(Regtest, -1, heads, 0) && HeaderOk(Regtest, -1, heads, 1);
    assert Root(At(f, 0)) == HeadOf(h, EasyHeader()).root by { EasyRoot(); }
  }

  lemma EasyRoot()
    ensures Root(EasyHeader()) == HeadOf(Blind(), EasyHeader()).root
  {
    hide EasyHeader;
  }

  /** Two verdicts that hold under one checkpoint, at one height, rest on the same merkle root, or sha256d collides. */
  lemma HeldOnOneRoot(h: HashFn, network: Network, cp: Checkpoint, digestA: Bytes, proofA: Bytes, a: File,
                      digestB: Bytes, proofB: Bytes, b: File) returns (x: Bytes, y: Bytes)
    requires VerdictHolds(h, digestA, proofA, a, Some(cp), network)
    requires VerdictHolds(h, digestB, proofB, b, Some(cp), network)
    requires cp.height >= 0 && Claim(h, digestA, proofA).value.kind == Claim(h, digestB, proofB).value.kind
    ensures Claim(h, digestA, proofA).value.msg == Claim(h, digestB, proofB).value.msg || Collision(h, x, y)
  {
    hide Sound, Holds, Claim, At, Has, Root, Collision, Authenticated;
    HeldAtOrBelow(h, digestA, proofA, a, cp, network);
    x, y := Pinned(h, network, a, b, cp, Claim(h, digestA, proofA).value.kind.height);
  }

  /**
   * Without a checkpoint only block 0 of a file that starts at genesis is ever tied, and its header is the network's
   * own.
   */
  lemma HeldByGenesis(h: HashFn, digest: Bytes, proof: Bytes, f: File, network: Network)
    requires VerdictHolds(h, digest, proof, f, None, network)
    ensures f.start == 0 && Claim(h, digest, proof).value.kind.height == 0 && Count(f.raw) > 0
    ensures h.Twice(Header(f.raw, 0)) == Genesis(network)
  {
    hide Claim, Genesis, Worked, KeepsDifficulty, HashFn.Twice, Header;
    assert HeaderOk(network, f.start, Heads(h, f.raw), 0);
  }
}
