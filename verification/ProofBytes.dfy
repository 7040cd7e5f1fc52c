/**
 * What the bytes of a proof do (ops/verify_claim.py, ops/selfstamp.py), with no name for a byte: which tag hashes,
 * which puts its operand after the message and which before it, what each attestation's eight bytes say, and what a
 * whole proof of one operation under a bitcoin block attests, through both readers.
 */
module ProofBytes {
  import opened Octets
  import opened Wrappers
  import opened OtsFormat
  import opened ProofParser
  import opened LinearReader

  /** What a tag and the bytes after it make of a message: 0x08 hashes it, 0xf0 adds at its end, 0xf1 at its front. */
  ghost predicate Makes(h: HashFn, tag: Byte, operand: Bytes, msg: Bytes, result: Bytes) {
    || (tag == 0x08 && operand == [] && result == h.Digest(msg))
    || (tag == 0xf0 && operand != [] && result == msg + operand)
    || (tag == 0xf1 && operand != [] && result == operand + msg)
  }

  /** An operand as it stands after its tag: none for a hash, else a length, of 1 to 4096, and that many bytes. */
  ghost predicate Stands(tag: Byte, slice: Bytes, operand: Bytes) {
    if tag == 0x08 then slice == [] && operand == []
    else exists len: Bytes :: IsVaruint(len) && VaruintValue(len) == |operand| <= 4096 && slice == len + operand
  }

  /** Reading an operation: for every tag, operand and message, just what the bytes say, and only those tags. */
  lemma OpOnBytes(h: HashFn, data: Bytes, pos: nat, tag: Byte, end: nat, msg: Bytes, result: Bytes)
    requires pos <= |data|
    ensures (exists op :: ReadOp(data, pos, tag) == Success(Read(op, end)) && Apply(h, op, msg) == result)
            <==> (pos <= end <= |data|
                  && exists operand :: Stands(tag, data[pos..end], operand) && Makes(h, tag, operand, msg, result))
  {
    hide ReadVarbytes, IsVaruint, VaruintValue;
    if exists op :: ReadOp(data, pos, tag) == Success(Read(op, end)) && Apply(h, op, msg) == result {
      if tag != 0x08 {
        var v := VarbytesSound(data, pos, 4096, 1);
        assert data[pos..end] == v.len + v.body;
        assert Stands(tag, data[pos..end], v.body) && Makes(h, tag, v.body, msg, result);
      } else {
        assert Stands(tag, data[pos..end], []) && Makes(h, tag, [], msg, result);
      }
    }
    if pos <= end <= |data|
       && exists operand :: Stands(tag, data[pos..end], operand) && Makes(h, tag, operand, msg, result) {
      var operand :| Stands(tag, data[pos..end], operand) && Makes(h, tag, operand, msg, result);
      if tag != 0x08 {
        var len: Bytes :| IsVaruint(len) && VaruintValue(len) == |operand| <= 4096 && data[pos..end] == len + operand;
        VarbytesComplete(data, pos, end, VarBytes(len, operand), 4096, 1);
        assert ReadOp(data, pos, tag) == Success(Read(if tag == 0xf0 then Append(operand) else Prepend(operand), end));
      } else {
        assert |data[pos..end]| == end - pos;
        assert ReadOp(data, pos, tag) == Success(Read(Sha256, pos));
      }
    }
  }

  // --- one operation -----------------------------------------------------------------------------

  /** One operation and one bitcoin attestation, byte for byte. */
  function OneThenBlock(after: bool, len: Bytes, operand: Bytes, height: Bytes): Bytes
    requires |height| <= 10
  {
    var tag: Bytes := [0x05, 0x88, 0x96, 0x0d, 0x73, 0xd7, 0x19, 0x01];
    [if after then 0xf0 else 0xf1] + (len + operand) + ([0x00] + (tag + ([|height|] + height)))
  }

  /** The header of a digest's proof, byte for byte. */
  function HeaderOf(digest: Bytes, timestamp: Bytes): Bytes {
    [0x00, 0x4f, 0x70, 0x65, 0x6e, 0x54, 0x69, 0x6d, 0x65, 0x73, 0x74, 0x61, 0x6d, 0x70, 0x73, 0x00,
     0x00, 0x50, 0x72, 0x6f, 0x6f, 0x66, 0x00, 0xbf, 0x89, 0xe2, 0xe8, 0x84, 0xe8, 0x92, 0x94]
    + ([0x01] + ([0x08] + (digest + timestamp)))
  }

  function BlockMark(height: Bytes): Mark
    requires |height| <= 10
  {
    Mark([0x05, 0x88, 0x96, 0x0d, 0x73, 0xd7, 0x19, 0x01], VarBytes([|height|], height))
  }

  lemma OnePrints(after: bool, len: Bytes, operand: Bytes, height: Bytes)
    requires |height| <= 10
    ensures OneThenBlock(after, len, operand, height)
         == PrintStamp(Last(Join(after, VarBytes(len, operand), Last(Attest(BlockMark(height))))))
  {
    var mark := BlockMark(height);
    var printed := [0x00] + mark.Print();
    assert PrintStamp(Last(Attest(mark))) == printed;
    var join := Join(after, VarBytes(len, operand), Last(Attest(mark)));
    assert PrintStamp(Last(join)) == [if after then 0xf0 else 0xf1] + join.operand.Print() + printed;
  }

  lemma HeaderPrints(digest: Bytes, s: Stamp)
    ensures HeaderOf(digest, PrintStamp(s)) == Print(Proof([1], digest, s))
  {
    hide PrintStamp;
  }

  /**
   * Both readers, on every such proof: the operand after the message for 0xf0, before it for 0xf1, and the bitcoin
   * block at the height written.
   */
  lemma OneOperation(h: HashFn, digest: Bytes, after: bool, len: Bytes, operand: Bytes, height: Bytes)
    requires |digest| == 32 && 1 <= |operand| <= 4064 && IsVaruint(len) && VaruintValue(len) == |operand|
    requires IsVaruint(height)
    ensures var data := HeaderOf(digest, OneThenBlock(after, len, operand, height));
            var msg := if after then digest + operand else operand + digest;
            var op := if after then Append(operand) else Prepend(operand);
            && ParseProof(h, data)
               == Success(Parsed(digest, [Attestation(Bitcoin(VaruintValue(height)), msg, [PathStep(op, msg)])]))
            && ParseOts(h, data).Success? && ParseOts(h, data).value.digest == digest
            && ParseOts(h, data).value.msg == msg && ParseOts(h, data).value.kind == Bitcoin(VaruintValue(height))
  {
    hide ParseProof, ParseOts, Print, PrintStamp;
    hide HeaderOf, OneThenBlock;
    var mark := BlockMark(height);
    var attest := Attest(mark);
    var join := Join(after, VarBytes(len, operand), Last(attest));
    var proof := Proof([1], digest, Last(join));
    OnePrints(after, len, operand, height);
    HeaderPrints(digest, proof.stamp);
    ShortLength(|height|);
    ShortLength(1);
    assert mark.Says(Bitcoin(VaruintValue(height)));
    var msg := Apply(h, OpOf(join), digest);
    assert BranchOk(h, attest, msg, 1);
    assert StampOk(h, Last(attest), msg, 1);
    assert BranchOk(h, join, digest, 0);
    assert AttestedBy(h, attest, msg, [PathStep(OpOf(join), msg)])
        == [Attestation(Bitcoin(VaruintValue(height)), msg, [PathStep(OpOf(join), msg)])];
    assert Attested(h, Last(attest), msg, [PathStep(OpOf(join), msg)])
        == AttestedBy(h, attest, msg, [PathStep(OpOf(join), msg)]);
    assert Attested(h, Last(join), digest, []) == AttestedBy(h, join, digest, []);
    assert Extended(h, OpOf(join), digest, []) == [PathStep(OpOf(join), msg)];
    ParseInvertsPrint(h, proof);
    ReadersAgree(h, Print(proof));
  }

  lemma ShortLength(n: nat)
    requires n < 128
    ensures IsVaruint([n]) && VaruintValue([n]) == n
  {
    assert [n][1..] == [];
  }
}
