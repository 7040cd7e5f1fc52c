/**
 * The receipts file as bytes (otsserver/stamper.py: _receipt_on_file, _recover_receipt_tail,
 * _append_anchor_receipt): JSON lines, each complete only with its newline, and the backward scan that
 * drops an interrupted last line before anything is appended after it.
 */
module ReceiptFile {
  import opened Octets
  import opened Wrappers

  const NEWLINE: Byte := 10
  const CHUNK := 4096

  type Txid = Bytes

  datatype Receipt = Receipt(txid: Txid, fee: nat, commitments: nat, height: nat, at: nat, records: nat)

  /** JSON, as far as the file relies on it. */
  datatype Codec = Codec(encode: Receipt -> Bytes, parse: Bytes -> Option<Receipt>) {
    ghost predicate Sound() {
      forall r :: NEWLINE !in encode(r) && parse(encode(r)) == Some(r)
    }
  }

  ghost predicate Clear(s: Bytes, lo: nat, hi: nat)
    requires lo <= hi <= |s|
  {
    forall k :: lo <= k < hi ==> s[k] != 10
  }

  function FirstNewline(s: Bytes): (r: Option<nat>)
    ensures r.None? ==> Clear(s, 0, |s|)
    ensures r.Some? ==> r.value < |s| && s[r.value] == NEWLINE && Clear(s, 0, r.value)
  {
    if s == [] then None
    else if s[0] == NEWLINE then Some(0)
    else match FirstNewline(s[1..])
         case None => None
         case Some(i) => Some(i + 1)
  }

  /** rfind */
  function LastNewline(s: Bytes): (r: Option<nat>)
    ensures r.None? ==> Clear(s, 0, |s|)
    ensures r.Some? ==> r.value < |s| && s[r.value] == NEWLINE && Clear(s, r.value + 1, |s|)
  {
    if s == [] then None
    else if s[|s| - 1] == NEWLINE then Some(|s| - 1)
    else LastNewline(s[..|s| - 1])
  }

  /** How much of a file is complete lines. */
  function CompleteLength(file: Bytes): nat {
    match LastNewline(file)
    case None => 0
    case Some(i) => i + 1
  }

  /** The complete lines, without their newlines. */
  function Lines(file: Bytes): seq<Bytes> {
    match FirstNewline(file)
    case None => []
    case Some(i) => [file[..i]] + Lines(file[i + 1..])
  }

  /** The txids a reader finds on file, in order. */
  function Names(codec: Codec, lines: seq<Bytes>): seq<Txid> {
    if lines == [] then []
    else
      var parsed := codec.parse(lines[0]);
      (if parsed.Some? then [parsed.value.txid] else []) + Names(codec, lines[1..])
  }

  function Txids(codec: Codec, file: Bytes): seq<Txid> {
    Names(codec, Lines(file))
  }

  lemma {:induction false} NamesConcat(codec: Codec, a: seq<Bytes>, b: seq<Bytes>)
    ensures Names(codec, a + b) == Names(codec, a) + Names(codec, b)
  {
    if a == [] {
      assert a + b == b;
    } else {
      assert (a + b)[1..] == a[1..] + b;
      NamesConcat(codec, a[1..], b);
    }
  }

  lemma {:induction false} LinesConcat(a: Bytes, b: Bytes)
    requires a == [] || a[|a| - 1] == NEWLINE
    ensures Lines(a + b) == Lines(a) + Lines(b)
    decreases |a|
  {
    hide Lines, FirstNewline;
    if a == [] {
      ClearHasNoLine(a);
      assert a + b == b;
    } else {
      FirstNewlineOf(a, b);
      var i := FirstNewline(a).value;
      var line, rest := a[..i], a[i + 1..];
      assert rest != [] ==> rest[|rest| - 1] == NEWLINE;
      LinesConcat(rest, b);
      LinesUnfold(a, i);
      LinesUnfold(a + b, i);
      assert (a + b)[..i] == line && (a + b)[i + 1..] == rest + b;
      assert [line] + (Lines(rest) + Lines(b)) == ([line] + Lines(rest)) + Lines(b);
    }
  }

  lemma LinesUnfold(s: Bytes, i: nat)
    requires FirstNewline(s) == Some(i) && i < |s|
    ensures Lines(s) == [s[..i]] + Lines(s[i + 1..])
  {
  }

  lemma FirstNewlineOf(a: Bytes, b: Bytes)
    requires a != [] && a[|a| - 1] == NEWLINE
    ensures FirstNewline(a).Some? && FirstNewline(a + b) == FirstNewline(a)
  {
    var i := FirstNewline(a).value;
    assert (a + b)[i] == NEWLINE;
    assert forall k :: 0 <= k < i ==> (a + b)[k] == a[k];
  }

  /** Only the complete part of a file holds lines. */
  lemma LinesAreComplete(file: Bytes)
    ensures var keep := CompleteLength(file);
            && keep <= |file| && Clear(file, keep, |file|) && Lines(file) == Lines(file[..keep])
            && (keep > 0 ==> file[keep - 1] == NEWLINE)
  {
    hide Lines, FirstNewline, LastNewline;
    var keep := CompleteLength(file);
    ClearHasNoLine(file[keep..]);
    LinesConcat(file[..keep], file[keep..]);
    assert file == file[..keep] + file[keep..];
  }

  lemma ClearHasNoLine(s: Bytes)
    requires Clear(s, 0, |s|)
    ensures Lines(s) == []
  {
  }

  lemma OneLine(body: Bytes)
    requires NEWLINE !in body
    ensures Lines(body + [NEWLINE]) == [body]
  {
    var part := body + [NEWLINE];
    assert part[|body|] == NEWLINE && forall k :: 0 <= k < |body| ==> part[k] == body[k];
    assert FirstNewline(part) == Some(|body|);
    assert part[..|body|] == body && part[|body| + 1..] == [];
    ClearHasNoLine([]);
  }

  /** A shorter file holds a prefix of the lines: a truncation loses whole lines, newest first. */
  lemma LinesOfPrefix(file: Bytes, n: nat)
    requires n <= |file|
    ensures Lines(file[..n]) <= Lines(file)
  {
    hide Lines, FirstNewline, LastNewline, CompleteLength;
    var keep := CompleteLength(file[..n]);
    LinesAreComplete(file[..n]);
    assert file == file[..keep] + file[keep..];
    assert file[..n][..keep] == file[..keep];
    LinesConcat(file[..keep], file[keep..]);
  }

  /** Bytes without a newline at a file's end are no line of it. */
  lemma TailAddsNone(file: Bytes, tail: Bytes)
    requires NEWLINE !in tail
    ensures Lines(file + tail) == Lines(file)
  {
    hide Lines, FirstNewline, LastNewline, CompleteLength;
    LinesAreComplete(file);
    var keep := CompleteLength(file);
    var rest := file[keep..] + tail;
    assert Clear(rest, 0, |rest|);
    ClearHasNoLine(rest);
    LinesConcat(file[..keep], rest);
    assert file + tail == file[..keep] + rest;
  }

  /** What the file is once `written` bytes of a line and its newline follow the complete part. */
  function Appended(file: Bytes, body: Bytes, written: nat): Bytes
    requires written <= |body| + 1
  {
    file[..CompleteLength(file)] + (body + [NEWLINE])[..written]
  }

  /** A partial append adds no line; a whole one adds exactly that line; no earlier line changes. */
  lemma AppendedLines(file: Bytes, body: Bytes, written: nat)
    requires NEWLINE !in body && written <= |body| + 1
    ensures Lines(Appended(file, body, written)) == Lines(file) + if written == |body| + 1 then [body] else []
  {
    var keep := CompleteLength(file);
    LinesAreComplete(file);
    var part := (body + [NEWLINE])[..written];
    LinesConcat(file[..keep], part);
    if written == |body| + 1 {
      OneLine(body);
      assert part == body + [NEWLINE];
    } else {
      ClearHasNoLine(part);
    }
  }

  /** The recovered part of a file, and what follows it, is what decides every later append. */
  lemma RecoveredIsComplete(file: Bytes)
    ensures var kept := file[..CompleteLength(file)]; CompleteLength(kept) == |kept| && Lines(kept) == Lines(file)
  {
    LinesAreComplete(file);
    var kept := file[..CompleteLength(file)];
    assert kept != [] ==> kept[|kept| - 1] == NEWLINE;
  }

  // --- the loops ---------------------------------------------------------------------------------

  /** _receipt_on_file: whether a complete line names the txid. */
  method ReceiptOnFile(codec: Codec, file: Bytes, txid: Txid) returns (found: bool)
    ensures found <==> txid in Txids(codec, file)
  {
    var rest := file;
    while true
      invariant txid in Txids(codec, file) <==> txid in Txids(codec, rest)
      decreases |rest|
    {
      var nl := FirstNewline(rest);
      if nl.None? { return false; }
      var parsed := codec.parse(rest[..nl.value]);
      assert Lines(rest)[1..] == Lines(rest[nl.value + 1..]);
      if parsed.Some? && parsed.value.txid == txid { return true; }
      rest := rest[nl.value + 1..];
    }
  }

  /** _recover_receipt_tail: the length to keep, found by reading 4096-byte chunks from the end. */
  method RecoverTail(file: Bytes) returns (keep: nat)
    ensures keep == CompleteLength(file)
  {
    var size := |file|;
    if size == 0 || file[size - 1] == NEWLINE { return size; }
    keep := 0;
    var pos := size;
    while pos > 0
      invariant 0 <= pos <= size == |file|
      invariant keep == 0 && Clear(file, pos, |file|)
    {
      var chunkStart := if pos < CHUNK then 0 else pos - CHUNK;
      var nl := LastNewline(file[chunkStart..pos]);
      ChunkCovers(file, chunkStart, pos);
      if nl.Some? {
        return chunkStart + nl.value + 1;
      }
      pos := chunkStart;
    }
  }

  /** One chunk's rfind, read as a position in the file. */
  lemma ChunkCovers(file: Bytes, lo: nat, hi: nat)
    requires lo <= hi <= |file| && Clear(file, hi, |file|)
    ensures match LastNewline(file[lo..hi])
            case None => Clear(file, lo, |file|)
            case Some(i) => LastNewline(file) == Some(lo + i)
  {
    hide LastNewline;
    var chunk := file[lo..hi];
    forall k | lo <= k < hi ensures file[k] == chunk[k - lo] {
    }
    match LastNewline(chunk)
    case None =>
      assert Clear(chunk, 0, |chunk|);
    case Some(i) =>
      assert chunk[i] == NEWLINE && Clear(chunk, i + 1, |chunk|);
      LastNewlineAt(file, lo + i);
  }

  lemma LastNewlineAt(s: Bytes, i: nat)
    requires i < |s| && s[i] == NEWLINE && Clear(s, i + 1, |s|)
    ensures LastNewline(s) == Some(i)
  {
    hide LastNewline;
  }
}
