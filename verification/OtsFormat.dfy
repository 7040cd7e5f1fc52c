/**
 * The serialization primitives of OpenTimestamps detached proofs that ops/verify_claim.py and ops/selfstamp.py
 * each carry: varuints, varbytes, attestations, operations, with the limits both mirror from the public client.
 */
module OtsFormat {
  import opened Octets
  import opened Wrappers

  const MAGIC: Bytes := MagicBytes()
  const VERSION := 1
  const OP_SHA256: Byte := 0x08
  const OP_APPEND: Byte := 0xf0
  const OP_PREPEND: Byte := 0xf1
  const ATTESTATION_MARKER: Byte := 0x00
  const FORK_MARKER: Byte := 0xff
  const PENDING_TAG: Bytes := [0x83, 0xdf, 0xe3, 0x0d, 0x2e, 0xf9, 0x0c, 0x8e]
  const BITCOIN_TAG: Bytes := [0x05, 0x88, 0x96, 0x0d, 0x73, 0xd7, 0x19, 0x01]
  const LITECOIN_TAG: Bytes := [0x06, 0x86, 0x9a, 0x0d, 0x73, 0xd7, 0x1b, 0x45]
  const ETHEREUM_TAG: Bytes := [0x30, 0xfe, 0x80, 0x87, 0xb5, 0xc7, 0xea, 0xd7]
  const MAX_OPERAND := 4096
  const MAX_MSG := 4096
  const MAX_ATTESTATION_PAYLOAD := 8192
  const MAX_URI := 1000
  const MAX_OPS_ON_A_PATH := 255
  const MAX_VARUINT_BYTES := 10

  function MagicBytes(): Bytes {
    [0x00, 0x4f, 0x70, 0x65, 0x6e, 0x54, 0x69, 0x6d, 0x65, 0x73, 0x74, 0x61, 0x6d, 0x70, 0x73, 0x00,
     0x00, 0x50, 0x72, 0x6f, 0x6f, 0x66, 0x00, 0xbf, 0x89, 0xe2, 0xe8, 0x84, 0xe8, 0x92, 0x94]
  }

  /** sha256: any function with results of 32 bytes. */
  datatype HashFn = HashFn(of: Bytes -> Bytes) {
    function Digest(msg: Bytes): (r: Bytes)
      ensures |r| == 32
    {
      if |of(msg)| == 32 then of(msg) else Zeros(32)
    }

    /** sha256d */
    function Twice(msg: Bytes): (r: Bytes)
      ensures |r| == 32
    {
      Digest(Digest(msg))
    }
  }

  datatype ParseError =
    | BadMagic | BadVersion | NotSha256 | TruncatedDigest | NoAttestation | DoubleFork | TrailingBytes
    | TruncatedVaruint | LongVaruint | BytesTooLong | BytesTooShort | TruncatedBytes
    | TruncatedTag | TrailingPayload | BadUri | LongMessage | UnsupportedOp | LongResult | TooManyOps
    | ForkRefused | NotPending | NoBitcoin | DigestChanged

  /** A value read, and where the reading stopped. */
  datatype Read<+T> = Read(value: T, end: nat)

  // --- varuints ----------------------------------------------------------------------------------

  /** Little-endian base 128; the eighth bit of a byte says another follows. */
  function VaruintValue(b: Bytes): nat {
    if b == [] then 0 else b[0] % 128 + 128 * VaruintValue(b[1..])
  }

  predicate VaruintUpTo(b: Bytes, max: int) {
    0 < |b| <= max && b[|b| - 1] < 128 && forall i :: 0 <= i < |b| - 1 ==> b[i] >= 128
  }

  predicate IsVaruint(b: Bytes) {
    VaruintUpTo(b, 10)
  }

  /** read_varuint, `n` bytes into it. */
  function VaruintFrom(data: Bytes, pos: nat, n: nat): (r: Result<Read<nat>, ParseError>)
    requires pos <= |data|
    ensures r.Success? ==> pos < r.value.end <= |data|
    decreases |data| - pos
  {
    if pos >= |data| then Failure(TruncatedVaruint)
    else if n >= MAX_VARUINT_BYTES then Failure(LongVaruint)
    else if data[pos] < 128 then Success(Read(data[pos], pos + 1))
    else
      var rest :- VaruintFrom(data, pos + 1, n + 1);
      Success(Read(data[pos] - 128 + 128 * rest.value, rest.end))
  }

  function ReadVaruint(data: Bytes, pos: nat): (r: Result<Read<nat>, ParseError>)
    requires pos <= |data|
    ensures r.Success? ==> pos < r.value.end <= |data|
  {
    VaruintFrom(data, pos, 0)
  }

  lemma {:induction false} VaruintFromSound(data: Bytes, pos: nat, n: nat)
    requires pos <= |data| && VaruintFrom(data, pos, n).Success?
    ensures var r := VaruintFrom(data, pos, n).value;
            VaruintUpTo(data[pos..r.end], MAX_VARUINT_BYTES - n) && r.value == VaruintValue(data[pos..r.end])
    decreases |data| - pos
  {
    var r := VaruintFrom(data, pos, n).value;
    assert data[pos..r.end][1..] == data[pos + 1..r.end];
    if data[pos] >= 128 {
      VaruintFromSound(data, pos + 1, n + 1);
      var tail := data[pos + 1..r.end];
      assert forall i :: 0 < i < |tail| + 1 ==> data[pos..r.end][i] == tail[i - 1];
    } else {
      assert data[pos..r.end] == [data[pos]];
    }
  }

  lemma TailUpTo(b: Bytes, max: int)
    requires VaruintUpTo(b, max) && |b| > 1
    ensures b[0] >= 128 && VaruintUpTo(b[1..], max - 1)
  {
  }

  lemma {:induction false} VaruintFromComplete(data: Bytes, pos: nat, end: nat, n: nat)
    requires pos <= end <= |data| && VaruintUpTo(data[pos..end], MAX_VARUINT_BYTES - n)
    ensures VaruintFrom(data, pos, n) == Success(Read(VaruintValue(data[pos..end]), end))
    decreases |data| - pos
  {
    var b := data[pos..end];
    assert b[1..] == data[pos + 1..end];
    assert b[0] == data[pos];
    if |b| > 1 {
      TailUpTo(b, MAX_VARUINT_BYTES - n);
      VaruintFromComplete(data, pos + 1, end, n + 1);
    }
  }

  /** Exactly the varuints are read, each with its value and to its last byte. */
  lemma VaruintIff(data: Bytes, pos: nat, v: nat, end: nat)
    requires pos <= |data|
    ensures ReadVaruint(data, pos) == Success(Read(v, end)) <==>
            (pos <= end <= |data| && IsVaruint(data[pos..end]) && v == VaruintValue(data[pos..end]))
  {
    if ReadVaruint(data, pos) == Success(Read(v, end)) { VaruintFromSound(data, pos, 0); }
    if pos <= end <= |data| && IsVaruint(data[pos..end]) { VaruintFromComplete(data, pos, end, 0); }
  }

  /** What remains to be read, at its weight, on top of the value so far. */
  function OnTop(value: nat, scale: nat, rest: Result<Read<nat>, ParseError>): Result<Read<nat>, ParseError> {
    match rest
    case Failure(e) => Failure(e)
    case Success(read) => Success(Read(value + scale * read.value, read.end))
  }

  /** The readers' loop: the value so far is below the next byte's weight, so `or` adds. */
  method ReadVaruintLoop(data: Bytes, start: nat) returns (r: Result<Read<nat>, ParseError>)
    requires start <= |data|
    ensures r == ReadVaruint(data, start)
  {
    hide VaruintFrom, OnTop;
    var value, scale, pos := 0, 1, start;
    OnTopOfNothing(VaruintFrom(data, start, 0));
    while true
      invariant start <= pos <= |data| && pos - start <= MAX_VARUINT_BYTES
      invariant 0 <= value < scale
      invariant ReadVaruint(data, start) == OnTop(value, scale, VaruintFrom(data, pos, pos - start))
      decreases |data| - pos
    {
      LimbRead(data, pos, pos - start, value, scale);
      if pos >= |data| { return Failure(TruncatedVaruint); }
      if pos - start >= MAX_VARUINT_BYTES { return Failure(LongVaruint); }
      var byte: nat := data[pos];
      value := value + byte % 128 * scale;
      pos := pos + 1;
      if byte < 128 { return Success(Read(value, pos)); }
      scale := scale * 128;
    }
  }

  lemma OnTopOfNothing(rest: Result<Read<nat>, ParseError>)
    ensures OnTop(0, 1, rest) == rest
  {
  }

  lemma LimbRead(data: Bytes, pos: nat, n: nat, value: nat, scale: nat)
    requires pos <= |data| && n <= MAX_VARUINT_BYTES && value < scale
    ensures var all := OnTop(value, scale, VaruintFrom(data, pos, n));
            if pos == |data| then all == Failure(TruncatedVaruint)
            else if n == MAX_VARUINT_BYTES then all == Failure(LongVaruint)
            else
              var byte: nat := data[pos];
              var more: nat := value + byte % 128 * scale;
              && more < scale * 128
              && all == if data[pos] < 128 then Success(Read(more, pos + 1))
                        else OnTop(more, scale * 128, VaruintFrom(data, pos + 1, n + 1))
  {
    if pos < |data| && n < MAX_VARUINT_BYTES {
      var rest := VaruintFrom(data, pos + 1, n + 1);
      LimbAdds((data[pos] as nat) % 128, value, scale, if rest.Success? then rest.value.value else 0);
    }
  }

  /** Seven more bits, at the weight the bits so far leave free. */
  lemma LimbAdds(limb: nat, value: nat, scale: nat, rest: nat)
    requires limb < 128 && value < scale
    ensures limb * scale == scale * limb && value + limb * scale < scale * 128
    ensures value + scale * (limb + 128 * rest) == value + limb * scale + scale * 128 * rest
  {
    assert limb * scale <= 127 * scale by { Scaled(limb, 127, scale); }
    assert scale * (limb + 128 * rest) == scale * limb + scale * (128 * rest);
  }

  lemma Scaled(a: nat, b: nat, scale: nat)
    requires a <= b
    ensures a * scale <= b * scale
  {
  }

  /** varuint: the shortest bytes of a number. */
  function Varuint(n: nat): (r: Bytes) {
    if n < 128 then [n] else [n % 128 + 128] + Varuint(n / 128)
  }

  method WriteVaruint(value: nat) returns (out: Bytes)
    ensures out == Varuint(value)
  {
    out := [];
    var n := value;
    while true
      invariant out + Varuint(n) == Varuint(value)
      decreases n
    {
      var byte := n % 128;
      if n / 128 == 0 { return out + [byte]; }
      assert out + [byte + 128] + Varuint(n / 128) == out + ([byte + 128] + Varuint(n / 128));
      out := out + [byte + 128];
      n := n / 128;
    }
  }

  function Pow128(k: nat): (r: nat)
    ensures r > 0
  {
    if k == 0 then 1 else 128 * Pow128(k - 1)
  }

  /** What the writer writes, the readers read back, in at most k bytes when k seven-bit groups hold it. */
  lemma {:induction false} VaruintRoundTrip(n: nat, k: nat)
    requires n < Pow128(k)
    ensures VaruintValue(Varuint(n)) == n
    ensures k > 0 ==> VaruintUpTo(Varuint(n), k)
    decreases k
  {
    if n >= 128 {
      assert Varuint(n)[1..] == Varuint(n / 128);
      VaruintRoundTrip(n / 128, k - 1);
      var tail := Varuint(n / 128);
      assert forall i :: 0 <= i < |tail| ==> Varuint(n)[i + 1] == tail[i];
    } else {
      assert Varuint(n)[1..] == [];
    }
  }

  // --- varbytes ----------------------------------------------------------------------------------

  /** A length and that many bytes, as they stand in a proof. */
  datatype VarBytes = VarBytes(len: Bytes, body: Bytes) {
    predicate Ok(max: nat, min: nat) {
      IsVaruint(len) && VaruintValue(len) == |body| && min <= |body| <= max
    }

    function Print(): Bytes {
      len + body
    }
  }

  function ReadVarbytes(data: Bytes, pos: nat, max: nat, min: nat): (r: Result<Read<Bytes>, ParseError>)
    requires pos <= |data|
    ensures r.Success? ==> pos < r.value.end <= |data|
  {
    var length :- ReadVaruint(data, pos);
    if length.value > max then Failure(BytesTooLong)
    else if length.value < min then Failure(BytesTooShort)
    else if length.end + length.value > |data| then Failure(TruncatedBytes)
    else Success(Read(data[length.end..length.end + length.value], length.end + length.value))
  }

  lemma VarbytesSound(data: Bytes, pos: nat, max: nat, min: nat) returns (v: VarBytes)
    requires pos <= |data| && ReadVarbytes(data, pos, max, min).Success?
    ensures var r := ReadVarbytes(data, pos, max, min).value;
            v.Ok(max, min) && v.body == r.value && data[pos..r.end] == v.Print()
  {
    var length := ReadVaruint(data, pos).value;
    VaruintIff(data, pos, length.value, length.end);
    v := VarBytes(data[pos..length.end], data[length.end..length.end + length.value]);
  }

  lemma VarbytesComplete(data: Bytes, pos: nat, end: nat, v: VarBytes, max: nat, min: nat)
    requires pos <= end <= |data| && data[pos..end] == v.Print() && v.Ok(max, min)
    ensures ReadVarbytes(data, pos, max, min) == Success(Read(v.body, end))
  {
    var cut := pos + |v.len|;
    Cut(data, pos, end, v.len, v.body);
    VaruintIff(data, pos, |v.body|, cut);
  }

  /** A slice that is a concatenation is the two slices. */
  lemma Cut(data: Bytes, pos: nat, end: nat, a: Bytes, b: Bytes)
    requires pos <= end <= |data| && data[pos..end] == a + b
    ensures pos + |a| + |b| == end && data[pos..pos + |a|] == a && data[pos + |a|..end] == b
  {
    var s := data[pos..end];
    assert s[..|a|] == a && s[|a|..] == b;
    assert s[..|a|] == data[pos..pos + |a|] && s[|a|..] == data[pos + |a|..end];
  }

  // --- attestations ------------------------------------------------------------------------------

  datatype Kind = Pending(uri: Bytes) | Bitcoin(height: nat) | Unknown(tag: Bytes)

  predicate UriChar(b: Byte): (r: bool)
    ensures var c := b as char;
            r <==> 'a' <= c <= 'z' || 'A' <= c <= 'Z' || '0' <= c <= '9' || c in ['-', '.', '_', '/', ':']
  {
    || 0x61 <= b <= 0x7a || 0x41 <= b <= 0x5a || 0x30 <= b <= 0x39
    || b == 0x2d || b == 0x2e || b == 0x5f || b == 0x2f || b == 0x3a
  }

  predicate HeightTag(tag: Bytes) {
    tag == BITCOIN_TAG || tag == LITECOIN_TAG || tag == ETHEREUM_TAG
  }

  /** A payload is consumed to its last byte by every tag that knows it. */
  function ReadPayload(tag: Bytes, payload: Bytes): Result<Kind, ParseError> {
    if tag == PENDING_TAG then
      var uri :- ReadVarbytes(payload, 0, MAX_URI, 0);
      if uri.end != |payload| then Failure(TrailingPayload)
      else if exists b :: b in uri.value && !UriChar(b) then Failure(BadUri)
      else Success(Pending(uri.value))
    else if HeightTag(tag) then
      var height :- ReadVaruint(payload, 0);
      if height.end != |payload| then Failure(TrailingPayload)
      else Success(if tag == BITCOIN_TAG then Bitcoin(height.value) else Unknown(tag))
    else Success(Unknown(tag))
  }

  function ReadAttestation(data: Bytes, pos: nat): (r: Result<Read<Kind>, ParseError>)
    requires pos <= |data|
    ensures r.Success? ==> pos < r.value.end <= |data|
  {
    if pos + 8 > |data| then Failure(TruncatedTag)
    else
      var payload :- ReadVarbytes(data, pos + 8, MAX_ATTESTATION_PAYLOAD, 0);
      var kind :- ReadPayload(data[pos..pos + 8], payload.value);
      Success(Read(kind, payload.end))
  }

  /** An attestation as it stands in a proof, after its marker. */
  datatype Mark = Mark(tag: Bytes, payload: VarBytes) {
    function Print(): Bytes {
      tag + payload.Print()
    }

    /** What the mark attests, when its payload is one its tag allows. */
    ghost predicate Says(kind: Kind) {
      && |tag| == 8 && payload.Ok(8192, 0)
      && match kind
         case Pending(uri) =>
           && tag == [0x83, 0xdf, 0xe3, 0x0d, 0x2e, 0xf9, 0x0c, 0x8e] && |uri| <= 1000
           && (forall b :: b in uri ==> UriChar(b))
           && exists len: Bytes :: IsVaruint(len) && VaruintValue(len) == |uri| && payload.body == len + uri
         case Bitcoin(height) =>
           && tag == [0x05, 0x88, 0x96, 0x0d, 0x73, 0xd7, 0x19, 0x01]
           && IsVaruint(payload.body) && VaruintValue(payload.body) == height
         case Unknown(other) =>
           && other == tag && tag != [0x83, 0xdf, 0xe3, 0x0d, 0x2e, 0xf9, 0x0c, 0x8e]
           && tag != [0x05, 0x88, 0x96, 0x0d, 0x73, 0xd7, 0x19, 0x01]
           && (tag == [0x06, 0x86, 0x9a, 0x0d, 0x73, 0xd7, 0x1b, 0x45] ==> IsVaruint(payload.body))
           && (tag == [0x30, 0xfe, 0x80, 0x87, 0xb5, 0xc7, 0xea, 0xd7] ==> IsVaruint(payload.body))
    }
  }

  lemma PendingPayload(payload: Bytes, uri: Bytes)
    ensures ReadPayload(PENDING_TAG, payload) == Success(Pending(uri)) <==>
            (|uri| <= MAX_URI && (forall b :: b in uri ==> UriChar(b))
             && exists len: Bytes :: IsVaruint(len) && VaruintValue(len) == |uri| && payload == len + uri)
  {
    assert payload[0..|payload|] == payload;
    if ReadPayload(PENDING_TAG, payload) == Success(Pending(uri)) {
      var v := VarbytesSound(payload, 0, MAX_URI, 0);
      assert payload == v.len + uri;
    }
    if exists len: Bytes :: IsVaruint(len) && VaruintValue(len) == |uri| <= MAX_URI && payload == len + uri {
      var len: Bytes :| IsVaruint(len) && VaruintValue(len) == |uri| <= MAX_URI && payload == len + uri;
      VarbytesComplete(payload, 0, |payload|, VarBytes(len, uri), MAX_URI, 0);
    }
  }

  lemma HeightPayload(tag: Bytes, payload: Bytes, height: nat)
    requires HeightTag(tag)
    ensures ReadPayload(tag, payload) == Success(if tag == BITCOIN_TAG then Bitcoin(height) else Unknown(tag)) <==
            (IsVaruint(payload) && VaruintValue(payload) == height)
    ensures ReadPayload(tag, payload) == Success(Bitcoin(height)) ==>
              tag == BITCOIN_TAG && IsVaruint(payload) && VaruintValue(payload) == height
    ensures ReadPayload(tag, payload).Success? ==> IsVaruint(payload)
  {
    assert payload[0..|payload|] == payload;
    VaruintIff(payload, 0, height, |payload|);
    if ReadPayload(tag, payload).Success? {
      VaruintIff(payload, 0, ReadVaruint(payload, 0).value.value, |payload|);
    }
  }

  lemma PayloadIff(mark: Mark, kind: Kind)
    requires |mark.tag| == 8 && mark.payload.Ok(MAX_ATTESTATION_PAYLOAD, 0)
    ensures ReadPayload(mark.tag, mark.payload.body) == Success(kind) <==> mark.Says(kind)
  {
    if mark.tag == PENDING_TAG {
      if kind.Pending? { PendingPayload(mark.payload.body, kind.uri); }
    } else if HeightTag(mark.tag) {
      var height := if kind.Bitcoin? then kind.height else VaruintValue(mark.payload.body);
      HeightPayload(mark.tag, mark.payload.body, height);
    }
  }

  lemma AttestationSound(data: Bytes, pos: nat) returns (mark: Mark)
    requires pos <= |data| && ReadAttestation(data, pos).Success?
    ensures var r := ReadAttestation(data, pos).value;
            mark.Says(r.value) && data[pos..r.end] == mark.Print()
  {
    var payload := VarbytesSound(data, pos + 8, MAX_ATTESTATION_PAYLOAD, 0);
    mark := Mark(data[pos..pos + 8], payload);
    PayloadIff(mark, ReadAttestation(data, pos).value.value);
  }

  lemma AttestationComplete(data: Bytes, pos: nat, end: nat, mark: Mark, kind: Kind)
    requires pos <= end <= |data| && data[pos..end] == mark.Print() && mark.Says(kind)
    ensures ReadAttestation(data, pos) == Success(Read(kind, end))
  {
    Cut(data, pos, end, mark.tag, mark.payload.Print());
    VarbytesComplete(data, pos + 8, end, mark.payload, MAX_ATTESTATION_PAYLOAD, 0);
    PayloadIff(mark, kind);
  }

  // --- operations --------------------------------------------------------------------------------

  datatype Op = Sha256 | Append(operand: Bytes) | Prepend(operand: Bytes)

  function Apply(h: HashFn, op: Op, msg: Bytes): Bytes {
    match op
    case Sha256 => h.Digest(msg)
    case Append(operand) => msg + operand
    case Prepend(operand) => operand + msg
  }

  /** The operation whose tag byte was read at `pos - 1`, with what it makes of the message. */
  function ReadOp(data: Bytes, pos: nat, tag: Byte): (r: Result<Read<Op>, ParseError>)
    requires pos <= |data|
    ensures r.Success? ==> pos <= r.value.end <= |data|
  {
    if tag == OP_SHA256 then Success(Read(Sha256, pos))
    else if tag == OP_APPEND then
      var operand :- ReadVarbytes(data, pos, MAX_OPERAND, 1);
      Success(Read(Append(operand.value), operand.end))
    else if tag == OP_PREPEND then
      var operand :- ReadVarbytes(data, pos, MAX_OPERAND, 1);
      Success(Read(Prepend(operand.value), operand.end))
    else Failure(UnsupportedOp)
  }

  /** An operation's limits, in the order the readers test them. */
  function Step(h: HashFn, data: Bytes, pos: nat, tag: Byte, msg: Bytes, ops: nat): (r: Result<Read<Op>, ParseError>)
    requires pos <= |data|
    ensures r.Success? ==>
              pos <= r.value.end <= |data| && |Apply(h, r.value.value, msg)| <= MAX_OPERAND && ops < MAX_OPS_ON_A_PATH
  {
    if |msg| > MAX_MSG then Failure(LongMessage)
    else
      var op :- ReadOp(data, pos, tag);
      if |Apply(h, op.value, msg)| > MAX_OPERAND then Failure(LongResult)
      else if ops + 1 > MAX_OPS_ON_A_PATH then Failure(TooManyOps)
      else Success(op)
  }
}
