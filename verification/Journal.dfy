/**
 * The calendar's append-only journal and its record-count sidecar (otsserver/calendar.py: Journal,
 * JournalWriter, RecordCounts, RecordCountsWriter, Calendar.__check_counts), byte by byte, with every
 * torn write a stop can leave.
 */
module Journal {
  import opened Octets
  import opened Wrappers

  const HMAC_SIZE := 8
  const COMMITMENT_SIZE := 44

  // --- the journal -------------------------------------------------------------------------------

  function EntryCount(file: Bytes): nat {
    |file| / COMMITMENT_SIZE
  }

  /** A null HMAC is padding and is not part of the commitment. */
  function Strip(entry: Bytes): Bytes
    requires |entry| == COMMITMENT_SIZE
  {
    if entry[COMMITMENT_SIZE - HMAC_SIZE..] == Zeros(HMAC_SIZE) then entry[..COMMITMENT_SIZE - HMAC_SIZE] else entry
  }

  function Read(file: Bytes, idx: nat): Option<Bytes> {
    if (idx + 1) * COMMITMENT_SIZE <= |file| then
      Some(Strip(file[idx * COMMITMENT_SIZE..(idx + 1) * COMMITMENT_SIZE]))
    else None
  }

  /** What a reader sees of the journal: its complete entries, in order. */
  function Entries(file: Bytes): (r: seq<Bytes>)
    ensures |r| == EntryCount(file)
    ensures forall i :: 0 <= i < |r| ==> Read(file, i) == Some(r[i])
  {
    seq(EntryCount(file), (i: nat) requires i < EntryCount(file) => Read(file, i).value)
  }

  /** The bytes a commitment is stored as; None for a length the journal refuses. */
  function Padded(commitment: Bytes): Option<Bytes> {
    if |commitment| == COMMITMENT_SIZE - HMAC_SIZE then Some(commitment + Zeros(HMAC_SIZE))
    else if |commitment| == COMMITMENT_SIZE then Some(commitment)
    else None
  }

  /** Growing the file changes no entry already complete. */
  lemma EntriesOnlyGrow(file: Bytes, more: Bytes)
    ensures Entries(file) <= Entries(file + more)
  {
    forall i | 0 <= i < EntryCount(file) ensures Read(file, i) == Read(file + more, i) {
      assert (file + more)[i * COMMITMENT_SIZE..(i + 1) * COMMITMENT_SIZE]
          == file[i * COMMITMENT_SIZE..(i + 1) * COMMITMENT_SIZE];
    }
  }

  /** A whole entry appended at an entry boundary adds exactly that entry. */
  lemma AppendAddsOne(file: Bytes, entry: Bytes)
    requires |file| % COMMITMENT_SIZE == 0 && |entry| == COMMITMENT_SIZE
    ensures Entries(file + entry) == Entries(file) + [Strip(entry)]
  {
    EntriesOnlyGrow(file, entry);
    var n := EntryCount(file);
    assert (file + entry)[n * COMMITMENT_SIZE..(n + 1) * COMMITMENT_SIZE] == entry;
    assert Read(file + entry, n) == Some(Strip(entry));
  }

  /** Fewer bytes than an entry add none. */
  lemma TornAddsNone(file: Bytes, part: Bytes)
    requires |file| % COMMITMENT_SIZE == 0 && |part| < COMMITMENT_SIZE
    ensures Entries(file + part) == Entries(file)
  {
    EntriesOnlyGrow(file, part);
  }

  /**
   * Reading back what was submitted gives the commitment exactly when it is not a full-length one that
   * happens to end in eight zero bytes: such a commitment comes back eight bytes short.
   */
  lemma ReadsBackIff(commitment: Bytes)
    requires Padded(commitment).Some?
    ensures |commitment| == 36 || |commitment| == 44
    ensures Strip(Padded(commitment).value) == commitment
       <==> !(|commitment| == 44 && commitment[36..] == Zeros(8))
  {
    var p := Padded(commitment).value;
    if |commitment| < COMMITMENT_SIZE {
      assert p[COMMITMENT_SIZE - HMAC_SIZE..] == Zeros(HMAC_SIZE);
      assert p[..COMMITMENT_SIZE - HMAC_SIZE] == commitment;
    }
  }

  // --- the record counts -------------------------------------------------------------------------

  const RECORD_SIZE := 4
  const KNOWN_ZERO := 0xFFFFFFFF
  const KNOWN_ZERO_THRESHOLD := 0x80000000

  /** Big-endian, four bytes. */
  function Pack(count: nat): (r: Bytes)
    requires count < 0x1_0000_0000
    ensures |r| == RECORD_SIZE
  {
    [count / 0x1000000, count / 0x10000 % 0x100, count / 0x100 % 0x100, count % 0x100]
  }

  function Unpack(cell: Bytes): nat
    requires |cell| == RECORD_SIZE
  {
    (((cell[0] as int) * 0x100 + cell[1]) * 0x100 + cell[2]) * 0x100 + cell[3]
  }

  function Get(file: Bytes, idx: nat): Option<nat> {
    if (idx + 1) * RECORD_SIZE > |file| then None
    else
      var count := Unpack(file[idx * RECORD_SIZE..(idx + 1) * RECORD_SIZE]);
      if count >= KNOWN_ZERO_THRESHOLD then Some(0) else if count == 0 then None else Some(count)
  }

  /** pwrite: the bytes at an offset, the gap before them, if any, zero. */
  function PWrite(file: Bytes, offset: nat, data: Bytes): Bytes {
    var base := if |file| < offset then file + Zeros(offset - |file|) else file;
    base[..offset] + data + (if offset + |data| <= |base| then base[offset + |data|..] else [])
  }

  function At(file: Bytes, i: nat): Byte {
    if i < |file| then file[i] else 0
  }

  /** The four bytes of a cell, the part past the end of the file read as the zeros it would become. */
  function Cell(file: Bytes, idx: nat): (r: Bytes)
    ensures |r| == RECORD_SIZE
  {
    [At(file, idx * 4), At(file, idx * 4 + 1), At(file, idx * 4 + 2), At(file, idx * 4 + 3)]
  }

  /** What put writes for an entry of `leaves` counted leaves: nothing when the count does not fit. */
  function Stored(leaves: nat): Option<Bytes> {
    var count := if leaves == 0 then KNOWN_ZERO else leaves;
    if count < 0x1_0000_0000 then Some(Pack(count)) else None
  }

  /** The first k bytes of a write landed over zeros. */
  function Torn(data: Bytes, k: nat): (r: Bytes)
    requires |data| == RECORD_SIZE && k <= RECORD_SIZE
    ensures |r| == RECORD_SIZE
  {
    data[..k] + Zeros(RECORD_SIZE - k)
  }

  /** One cell holds what some prefix of its own write left, and nothing else. */
  ghost predicate CellHonest(file: Bytes, idx: nat, leaves: nat) {
    || Cell(file, idx) == Zeros(RECORD_SIZE)
    || (Stored(leaves).Some? && exists k :: 0 <= k <= RECORD_SIZE && Cell(file, idx) == Torn(Stored(leaves).value, k))
  }

  /** The sidecar of a journal whose entry i aggregates leaves[i] counted submissions. */
  ghost predicate Honest(file: Bytes, leaves: seq<nat>) {
    && |file| <= RECORD_SIZE * |leaves|
    && forall i :: 0 <= i < |leaves| ==> CellHonest(file, i, leaves[i])
  }

  /** A torn cell reads as the count with its low bytes zero: at most the count, and with the same top byte. */
  lemma TornIsPrefix(count: nat, k: nat)
    requires count < 0x1_0000_0000 && k <= RECORD_SIZE
    ensures Unpack(Torn(Pack(count), k)) <= count
    ensures k > 0 ==> count / 0x1000000 * 0x1000000 <= Unpack(Torn(Pack(count), k))
  {
    PackUnpack(count);
    var p, t := Pack(count), Torn(Pack(count), k);
    hide Pack;
    assert forall i :: 0 <= i < RECORD_SIZE ==> t[i] == if i < k then p[i] else 0;
    assert p[0] == count / 0x1000000 by { FirstByte(count); }
  }

  lemma FirstByte(count: nat)
    requires count < 0x1_0000_0000
    ensures Pack(count)[0] == count / 0x1000000
  {
  }

  lemma TornReadsLow(leaves: nat, k: nat)
    requires Stored(leaves).Some? && k <= RECORD_SIZE
    ensures var v := Unpack(Torn(Stored(leaves).value, k));
            v >= KNOWN_ZERO_THRESHOLD || v <= leaves
  {
    var count := if leaves == 0 then KNOWN_ZERO else leaves;
    TornIsPrefix(count, k);
    assert k == 0 ==> Torn(Pack(count), k) == Zeros(RECORD_SIZE);
    hide Pack, Unpack, Torn;
    ZeroCell();
  }

  lemma ZeroCell()
    ensures Unpack(Zeros(RECORD_SIZE)) == 0
  {
  }

  /** No read of an honest sidecar, at any moment, exceeds the entry's true count. */
  lemma GetNeverOvercounts(file: Bytes, leaves: seq<nat>, idx: nat)
    requires Honest(file, leaves) && Get(file, idx).Some?
    ensures idx < |leaves| && Get(file, idx).value <= leaves[idx]
  {
    assert idx < |leaves|;
    assert file[idx * RECORD_SIZE..(idx + 1) * RECORD_SIZE] == Cell(file, idx);
    assert CellHonest(file, idx, leaves[idx]);
    if Cell(file, idx) != Zeros(RECORD_SIZE) {
      var k :| 0 <= k <= RECORD_SIZE && Cell(file, idx) == Torn(Stored(leaves[idx]).value, k);
      TornReadsLow(leaves[idx], k);
    }
  }

  /**
   * A put that finished reads back as the count itself, a known zero as zero, exactly when the count is below 2^31; one
   * that is not reads as zero.
   */
  lemma GetAfterWholePut(file: Bytes, idx: nat, leaves: nat)
    requires Stored(leaves).Some?
    ensures Get(PWrite(file, idx * RECORD_SIZE, Stored(leaves).value), idx) == Some(leaves) <==> leaves < 0x8000_0000
    ensures leaves >= 0x8000_0000 ==> Get(PWrite(file, idx * RECORD_SIZE, Stored(leaves).value), idx) == Some(0)
  {
    var data := Stored(leaves).value;
    PWriteHolds(file, idx * RECORD_SIZE, data);
    hide PWrite;
    PackUnpack(if leaves == 0 then KNOWN_ZERO else leaves);
    assert Unpack(data) == if leaves == 0 then KNOWN_ZERO else leaves;
  }

  lemma PackUnpack(count: nat)
    requires count < 0x1_0000_0000
    ensures Unpack(Pack(count)) == count
  {
    assert count / 0x10000 == count / 0x1000000 * 0x100 + count / 0x10000 % 0x100;
    assert count / 0x100 == count / 0x10000 * 0x100 + count / 0x100 % 0x100;
  }

  lemma PWriteHolds(file: Bytes, offset: nat, data: Bytes)
    ensures var after := PWrite(file, offset, data);
            offset + |data| <= |after| && after[offset..offset + |data|] == data
  {
  }

  lemma PWriteAt(file: Bytes, offset: nat, data: Bytes, i: nat)
    ensures At(PWrite(file, offset, data), i)
         == if offset <= i < offset + |data| then data[i - offset] else At(file, i)
  {
  }

  /** Writing any prefix of an entry's own count into its empty cell keeps the sidecar honest. */
  lemma PutKeepsHonest(file: Bytes, leaves: seq<nat>, idx: nat, k: nat)
    requires Honest(file, leaves) && idx < |leaves| && Stored(leaves[idx]).Some? && k <= RECORD_SIZE
    requires Cell(file, idx) == Zeros(RECORD_SIZE)
    ensures Honest(PWrite(file, idx * RECORD_SIZE, Stored(leaves[idx]).value[..k]), leaves)
  {
    var data := Stored(leaves[idx]).value;
    var after := PWrite(file, idx * RECORD_SIZE, data[..k]);
    forall i | 0 <= i < |leaves| ensures CellHonest(after, i, leaves[i]) {
      PWriteAt(file, idx * RECORD_SIZE, data[..k], i * 4);
      PWriteAt(file, idx * RECORD_SIZE, data[..k], i * 4 + 1);
      PWriteAt(file, idx * RECORD_SIZE, data[..k], i * 4 + 2);
      PWriteAt(file, idx * RECORD_SIZE, data[..k], i * 4 + 3);
      if i == idx {
        var cell, torn := Cell(file, idx), Torn(data, k);
        assert cell[0] == cell[1] == cell[2] == cell[3] == 0;
        assert forall j :: 0 <= j < 4 ==> Cell(after, i)[j] == torn[j];
        assert Cell(after, i) == torn;
      } else {
        assert CellHonest(file, i, leaves[i]);
        assert Cell(after, i) == Cell(file, i);
      }
    }
  }

  /** A new entry's cell is past the end of the sidecar, so it reads as unknown until it is written. */
  lemma EntryKeepsHonest(file: Bytes, leaves: seq<nat>, more: nat)
    requires Honest(file, leaves)
    ensures Honest(file, leaves + [more]) && Cell(file, |leaves|) == Zeros(RECORD_SIZE)
  {
    forall i | 0 <= i <= |leaves| ensures CellHonest(file, i, (leaves + [more])[i]) {
      if i < |leaves| {
        assert CellHonest(file, i, leaves[i]);
      }
    }
  }

  /** Calendar.__check_counts: the sidecar describes no entry the journal does not hold. */
  predicate CountsAccepted(journal: Bytes, counts: Bytes) {
    (|counts| + RECORD_SIZE - 1) / RECORD_SIZE <= EntryCount(journal)
  }

  /** Each four bytes of the sidecar, a part of four too, name an entry of 44 bytes that the journal holds whole. */
  lemma CountsAcceptedIff(journal: Bytes, counts: Bytes)
    ensures CountsAccepted(journal, counts)
       <==> forall i :: 0 <= i < |counts| ==> (i / 4 + 1) * 44 <= |journal|
  {
    if |counts| > 0 {
      var last := |counts| - 1;
      assert (last + 4) / 4 == last / 4 + 1;
      if CountsAccepted(journal, counts) {
        forall i | 0 <= i < |counts| ensures (i / 4 + 1) * 44 <= |journal| {
          assert i / 4 <= last / 4;
        }
      } else {
        assert last / 4 + 1 > |journal| / 44;
        assert (last / 4 + 1) * 44 > |journal|;
      }
    }
  }

  // --- the writer --------------------------------------------------------------------------------

  datatype Submitted = Done | Refused | Stopped

  /**
   * JournalWriter over the two files as the disk holds them. `leaves` is what each entry truly
   * aggregates. A submission may stop after any number of bytes of either write.
   */
  class JournalWriter {
    var journal: Bytes
    var counts: Bytes
    ghost var leaves: seq<nat>

    ghost predicate Coherent()
      reads this
    {
      |leaves| == EntryCount(journal) && Honest(counts, leaves)
    }

    /** Opening after any stop: a partial last entry is padded into an entry nobody holds. */
    constructor (journal: Bytes, counts: Bytes, ghost leaves: seq<nat>)
      requires |leaves| == EntryCount(journal) && Honest(counts, leaves)
      ensures Coherent() && |this.journal| % COMMITMENT_SIZE == 0
      ensures Entries(journal) <= Entries(this.journal) && EntryCount(this.journal) <= EntryCount(journal) + 1
      ensures this.counts == counts && leaves <= this.leaves
      ensures CountsAccepted(journal, counts)
    {
      var excess := |journal| % COMMITMENT_SIZE;
      if excess != 0 {
        this.journal := journal + Zeros(COMMITMENT_SIZE - excess);
        this.leaves := leaves + [0];
      } else {
        this.journal := journal;
        this.leaves := leaves;
      }
      this.counts := counts;
      new;
      if excess != 0 {
        EntriesOnlyGrow(journal, Zeros(COMMITMENT_SIZE - excess));
        EntryKeepsHonest(counts, leaves, 0);
      }
    }

    /**
     * submit: journal entry first, count after. `journalBytes` and `countBytes` say how much of each
     * write reached the disk before a stop (all of it when there was none).
     */
    method Submit(commitment: Bytes, records: nat, journalBytes: nat, countBytes: nat) returns (r: Submitted)
      requires Coherent() && |journal| % COMMITMENT_SIZE == 0
      requires journalBytes <= COMMITMENT_SIZE && countBytes <= RECORD_SIZE
      modifies this
      ensures Coherent()
      ensures r == Refused <==> Padded(commitment).None?
      ensures r == Refused ==> journal == old(journal) && counts == old(counts)
      ensures r != Refused && journalBytes < COMMITMENT_SIZE ==> Entries(journal) == old(Entries(journal))
      ensures r != Refused && journalBytes == COMMITMENT_SIZE ==>
                Entries(journal) == old(Entries(journal)) + [Strip(Padded(commitment).value)]
      ensures r == Done ==> |journal| % COMMITMENT_SIZE == 0
      ensures leaves == if r != Refused && journalBytes == COMMITMENT_SIZE then old(leaves) + [records] else old(leaves)
      ensures counts == if r != Refused && journalBytes == COMMITMENT_SIZE && Stored(records).Some?
                        then PWrite(old(counts), old(EntryCount(journal)) * RECORD_SIZE,
                                    Stored(records).value[..countBytes])
                        else old(counts)
      ensures r == Done <==>
                Padded(commitment).Some? && journalBytes == COMMITMENT_SIZE
                  && (countBytes == RECORD_SIZE || Stored(records).None?)
      ensures r == Done && records < KNOWN_ZERO_THRESHOLD ==> Get(counts, old(EntryCount(journal))) == Some(records)
    {
      var padded := Padded(commitment);
      if padded.None? { return Refused; }
      var idx := |journal| / COMMITMENT_SIZE;
      var part := padded.value[..journalBytes];
      if journalBytes < COMMITMENT_SIZE {
        TornAddsNone(journal, part);
        journal := journal + part;
        return Stopped;
      }
      assert part == padded.value;
      AppendAddsOne(journal, part);
      EntryKeepsHonest(counts, leaves, records);
      journal := journal + part;
      leaves := leaves + [records];
      var stored := Stored(records);
      if stored.None? { return Done; } // packing it raises and is logged: the count is lost, the entry is not
      PutKeepsHonest(counts, leaves, idx, countBytes);
      if countBytes == RECORD_SIZE {
        assert stored.value[..countBytes] == stored.value;
        if records < KNOWN_ZERO_THRESHOLD { GetAfterWholePut(counts, idx, records); }
      }
      counts := PWrite(counts, idx * RECORD_SIZE, stored.value[..countBytes]);
      return if countBytes == RECORD_SIZE then Done else Stopped;
    }
  }
}
