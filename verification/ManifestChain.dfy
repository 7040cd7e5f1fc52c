/**
 * The self-stamp's hash-chained manifest log (ops/selfstamp.py): the run that continues it (latest_manifest,
 * _labelled_before, build_manifest, the checks of _run_locked) and the verifier a stranger repeats (verify_chain),
 * over a directory listing sorted by name. Proof files and witnessed copies are not part of this model.
 */
module ManifestChain {
  import opened Octets
  import opened Wrappers
  import opened OtsFormat

  type Label = Bytes

  datatype Link = NoLink | NotALink | Link(file: Option<string>, sha256: Option<Bytes>)
  datatype Commissioning = Absent | Block | Other

  /** A JSON object as the chain reads it; `rest` is everything else it holds. */
  datatype Manifest = Manifest(schema: nat, number: Option<int>, period: Option<string>, prev: Link,
                               chain: Option<Label>, host: bool, commissioning: Commissioning, rest: Bytes)

  datatype Reading = NotAnObject | Object(m: Manifest)

  /** The JSON in and out, sha256, and which ten-letter strings are dates. */
  datatype World = World(h: HashFn, render: Manifest -> Bytes, read: Bytes -> Reading, date: string -> bool) {
    ghost predicate Sound() {
      forall m :: read(render(m)) == Object(m)
    }
  }

  /** A file of the listing; None is a file that cannot be read. */
  datatype File = File(name: string, raw: Option<Bytes>)

  predicate Numbered(m: Manifest) {
    m.number.Some? && m.number.value > 0
  }

  predicate Dated(w: World, m: Manifest) {
    m.period.Some? && |m.period.value| == 10 && w.date(m.period.value)
  }

  /** _parse_foreign_manifest's verdict on an object. */
  predicate Valid(w: World, m: Manifest): (r: bool)
    ensures r ==> m.schema in {1, 2, 3} && m.number.Some? && m.number.value > 0 && m.period.Some?
    ensures m.schema in {1, 2} ==> (r <==> m.host && Numbered(m) && Dated(w, m))
    ensures m.schema == 3 ==> (r <==> m.chain.Some? && Numbered(m) && Dated(w, m))
  {
    && 1 <= m.schema <= 3 && Numbered(m) && Dated(w, m)
    && (m.schema == 3 ==> m.chain.Some?) && (m.schema != 3 ==> m.host)
  }

  // --- names -------------------------------------------------------------------------------------

  /** The order of names, as sorted() compares strings. */
  predicate Less(a: string, b: string) {
    if b == [] then false
    else if a == [] then true
    else a[0] < b[0] || (a[0] == b[0] && Less(a[1..], b[1..]))
  }

  function NameOf(period: string): string {
    period + ".json"
  }

  function Stem(name: string): string {
    if |name| >= 5 then name[..|name| - 5] else []
  }

  /** Among periods of one length the order of names is the order of periods. */
  lemma {:induction false} NamesInOrder(a: string, b: string, suffix: string)
    requires |a| == |b|
    ensures Less(a + suffix, b + suffix) <==> Less(a, b) || (a == b && Less(suffix, suffix))
    decreases |a|
  {
    if a == [] {
      assert a + suffix == suffix && b + suffix == suffix;
    } else {
      assert (a + suffix)[1..] == a[1..] + suffix && (b + suffix)[1..] == b[1..] + suffix;
      NamesInOrder(a[1..], b[1..], suffix);
      assert a == [a[0]] + a[1..] && b == [b[0]] + b[1..];
    }
  }

  lemma {:induction false} NotBelowItself(a: string)
    ensures !Less(a, a)
    decreases |a|
  {
    if a != [] { NotBelowItself(a[1..]); }
  }

  lemma {:induction false} LessTransitive(a: string, b: string, c: string)
    requires Less(a, b) && Less(b, c)
    ensures Less(a, c)
    decreases |a|
  {
    if a != [] && a[0] == b[0] && b[0] == c[0] { LessTransitive(a[1..], b[1..], c[1..]); }
  }

  ghost predicate Sorted(files: seq<File>) {
    forall i, j :: 0 <= i < j < |files| ==> Less(files[i].name, files[j].name)
  }

  /** A new name takes its place in the listing. */
  function Insert(files: seq<File>, f: File): seq<File> {
    if files == [] || Less(f.name, files[0].name) then [f] + files else [files[0]] + Insert(files[1..], f)
  }

  lemma {:induction false} InsertLast(files: seq<File>, f: File)
    requires forall i :: 0 <= i < |files| ==> !Less(f.name, files[i].name)
    ensures Insert(files, f) == files + [f]
  {
    if files != [] {
      InsertLast(files[1..], f);
      assert files == [files[0]] + files[1..];
    }
  }

  lemma {:induction false} InsertKeeps(files: seq<File>, f: File)
    ensures |Insert(files, f)| == |files| + 1
    ensures forall g :: g in Insert(files, f) <==> g == f || g in files
  {
    if files != [] && !Less(f.name, files[0].name) { InsertKeeps(files[1..], f); }
  }

  // --- the verifier ------------------------------------------------------------------------------

  /** What the walk remembers of the files before. */
  datatype Before = Before(name: Option<string>, raw: Option<Bytes>, period: Option<string>, chain: Option<Label>)

  const START := Before(None, None, None, None)

  /** One file's checks against what came before it: no problem found, and what the next file sees. */
  function CheckFile(w: World, f: File, index: nat, b: Before): (bool, Before) {
    if f.raw.None? then (false, b.(name := Some(f.name), raw := None))
    else if w.read(f.raw.value).NotAnObject? then (false, b.(name := Some(f.name), raw := f.raw))
    else
      var m := w.read(f.raw.value).m;
      (Valid(w, m) && m.number == Some(index + 1) && m.period == Some(Stem(f.name)) && LaterThan(m.period, b.period)
       && LinksTo(w, m.prev, b) && KeepsLabel(m.chain, b.chain) && CommissionedRight(m, index),
       Before(Some(f.name), f.raw, m.period, if b.chain.None? then m.chain else b.chain))
  }

  predicate LaterThan(period: Option<string>, before: Option<string>) {
    before.Some? ==> period.Some? && Less(before.value, period.value)
  }

  predicate LinksTo(w: World, prev: Link, b: Before) {
    if b.name.None? then prev == NoLink
    else prev.Link? && prev.file == b.name && b.raw.Some? && prev.sha256 == Some(w.h.Digest(b.raw.value))
  }

  predicate KeepsLabel(chain: Option<Label>, before: Option<Label>) {
    before.Some? ==> chain == before
  }

  predicate CommissionedRight(m: Manifest, index: nat) {
    m.schema == 2 ==> if index == 0 then m.commissioning == Block else m.commissioning == Absent
  }

  /** The manifest a file holds, its period and its label, when it can be read at all. */
  function In(w: World, f: File): Option<Manifest> {
    if f.raw.None? || w.read(f.raw.value).NotAnObject? then None else Some(w.read(f.raw.value).m)
  }

  function PeriodIn(w: World, f: File): Option<string> {
    if In(w, f).None? then None else In(w, f).value.period
  }

  function LabelIn(w: World, f: File): Option<Label> {
    if In(w, f).None? then None else In(w, f).value.chain
  }

  /** It names the file before it, by name and by hash, or nothing when it is the first. */
  ghost predicate Linked(w: World, files: seq<File>, i: nat, prev: Link)
    requires i < |files|
  {
    if i == 0 then prev == NoLink
    else files[i - 1].raw.Some? && prev == Link(Some(files[i - 1].name), Some(w.h.Digest(files[i - 1].raw.value)))
  }

  ghost predicate Later(w: World, files: seq<File>, i: nat, period: string)
    requires i < |files|
  {
    i > 0 ==> PeriodIn(w, files[i - 1]).Some? && Less(PeriodIn(w, files[i - 1]).value, period)
  }

  /** The label, once a manifest before has one, is that one. */
  ghost predicate Labelled(w: World, files: seq<File>, n: nat, chain: Option<Label>)
    requires n <= |files|
  {
    forall j :: 0 <= j < n && LabelIn(w, files[j]).Some? ==> chain == LabelIn(w, files[j])
  }

  /** What one manifest must be, given the listing before it. */
  ghost predicate ManifestOk(w: World, files: seq<File>, i: nat)
    requires i < |files|
  {
    && In(w, files[i]).Some?
    && var m := In(w, files[i]).value;
       && Valid(w, m) && m.number == Some(i + 1) && m.period == Some(Stem(files[i].name)) && CommissionedRight(m, i)
       && Linked(w, files, i, m.prev) && Later(w, files, i, m.period.value) && Labelled(w, files, i, m.chain)
  }

  /** The chain verifies: links, sequence numbers, periods and the label. */
  ghost predicate ChainOk(w: World, files: seq<File>) {
    forall i :: 0 <= i < |files| ==> ManifestOk(w, files, i)
  }

  /** What the walk remembers after a prefix that verifies. */
  function After(w: World, files: seq<File>): Before {
    if files == [] then START
    else CheckFile(w, files[|files| - 1], |files| - 1, After(w, files[..|files| - 1])).1
  }

  /** verify_chain: true exactly when there are files and the chain verifies. */
  method VerifyChain(w: World, files: seq<File>) returns (ok: bool)
    ensures ok <==> files != [] && ChainOk(w, files)
  {
    hide CheckFile, ChainOk;
    if files == [] { return false; }
    ok := true;
    var before, i := START, 0;
    EmptyOk(w, files);
    while i < |files|
      invariant 0 <= i <= |files|
      invariant before == After(w, files[..i])
      invariant ok <==> ChainOk(w, files[..i])
    {
      var (good, after) := CheckFile(w, files[i], i, before);
      assert files[..i + 1][..i] == files[..i] && files[..i + 1][i] == files[i];
      OneMoreOk(w, files[..i + 1]);
      if !good { ok := false; }
      before, i := after, i + 1;
    }
    assert files[..i] == files;
  }

  lemma EmptyOk(w: World, files: seq<File>)
    ensures ChainOk(w, files[..0]) && After(w, files[..0]) == START
  {
  }

  /** What a verifying prefix leaves: its last file, its last period, its label. */
  ghost predicate Leaves(w: World, files: seq<File>, b: Before)
    requires files != []
  {
    var last := files[|files| - 1];
    && b.name == Some(last.name) && b.raw == last.raw && b.period == PeriodIn(w, last) && b.period.Some?
    && Labelled(w, files, |files|, b.chain) && (b.chain.Some? ==> exists f :: f in files && LabelIn(w, f) == b.chain)
  }

  lemma {:induction false} AfterIs(w: World, files: seq<File>)
    requires files != [] && ChainOk(w, files)
    ensures Leaves(w, files, After(w, files))
    decreases |files|
  {
    hide Valid, Less;
    var last := |files| - 1;
    var front := files[..last];
    PrefixOk(w, files, last);
    if front != [] {
      AfterIs(w, front);
      assert forall f :: f in front ==> f in files;
    }
    assert ManifestOk(w, files, last);
    assert files[last] in files;
  }

  lemma SamePrefix(w: World, files: seq<File>, n: nat, i: nat)
    requires i < n <= |files|
    ensures ManifestOk(w, files[..n], i) <==> ManifestOk(w, files, i)
  {
    hide Valid, Less, In;
  }

  lemma PrefixOk(w: World, files: seq<File>, n: nat)
    requires n <= |files| && ChainOk(w, files)
    ensures ChainOk(w, files[..n])
  {
    hide ManifestOk;
    forall i | 0 <= i < n ensures ManifestOk(w, files[..n], i) {
      SamePrefix(w, files, n, i);
    }
  }

  /** The walk's checks of a file are what the chain asks of it, after files that verify. */
  lemma CheckIs(w: World, files: seq<File>, b: Before)
    requires files != [] && (if |files| == 1 then b == START else Leaves(w, files[..|files| - 1], b))
    ensures CheckFile(w, files[|files| - 1], |files| - 1, b).0 <==> ManifestOk(w, files, |files| - 1)
  {
    hide Valid, Less, Stem;
    var last := |files| - 1;
    var front := files[..last];
    assert forall f :: f in front ==> exists j :: 0 <= j < last && files[j] == f;
    if last > 0 { assert front[last - 1] == files[last - 1]; }
    assert forall j :: 0 <= j < last ==> front[j] == files[j];
    if In(w, files[last]).Some? {
      var m := In(w, files[last]).value;
      assert KeepsLabel(m.chain, b.chain) <==> Labelled(w, files, last, m.chain);
      assert LinksTo(w, m.prev, b) <==> Linked(w, files, last, m.prev);
      assert m.period.Some? ==> (LaterThan(m.period, b.period) <==> Later(w, files, last, m.period.value));
    }
  }

  /** One file more verifies exactly when the files before do and its own checks find nothing. */
  lemma OneMoreOk(w: World, files: seq<File>)
    requires files != []
    ensures var last := |files| - 1;
            ChainOk(w, files) <==>
            ChainOk(w, files[..last]) && CheckFile(w, files[last], last, After(w, files[..last])).0
  {
    hide ManifestOk, CheckFile, Leaves;
    var last := |files| - 1;
    if ChainOk(w, files) { PrefixOk(w, files, last); }
    if ChainOk(w, files[..last]) {
      if last > 0 { AfterIs(w, files[..last]); } else { assert files[..last] == []; }
      CheckIs(w, files, After(w, files[..last]));
      forall i | 0 <= i < last ensures ManifestOk(w, files, i) {
        SamePrefix(w, files, last, i);
      }
    }
  }

  // --- the writer --------------------------------------------------------------------------------

  datatype RunEnd = Refused | Noop | Wrote(files: seq<File>)

  /** build_manifest: the next in the chain after the newest file, under the chain's label or a label just drawn. */
  function Next(w: World, files: seq<File>, period: string, drawn: Label, rest: Bytes): Manifest
    requires files != [] ==>
               files[|files| - 1].raw.Some? && In(w, files[|files| - 1]).Some?
                 && In(w, files[|files| - 1]).value.number.Some?
  {
    if files == [] then Manifest(3, Some(1), Some(period), NoLink, Some(drawn), false, Absent, rest)
    else
      var newest := files[|files| - 1];
      var m := In(w, newest).value;
      Manifest(3, Some(m.number.value + 1), Some(period), Link(Some(newest.name), Some(w.h.Digest(newest.raw.value))),
               if m.chain.Some? then m.chain else Some(drawn), false, Absent, rest)
  }

  /** Whether any manifest carries a label; a file that cannot be read as an object leaves that open. */
  predicate LabelOpen(w: World, files: seq<File>) {
    exists f :: f in files && (In(w, f).None? || LabelIn(w, f).Some?)
  }

  /** _run_locked, as far as the chain: what it refuses, and the file it writes. */
  function Run(w: World, files: seq<File>, period: string, drawn: Label, rest: Bytes): RunEnd {
    if exists f :: f in files && f.name == NameOf(period) then Noop
    else if files == [] then Wrote([File(NameOf(period), Some(w.render(Next(w, files, period, drawn, rest))))])
    else
      var newest := In(w, files[|files| - 1]);
      if newest.None? || !Valid(w, newest.value) then Refused
      else if !Less(newest.value.period.value, period) then Refused
      else if newest.value.chain.None? && LabelOpen(w, files) then Refused
      else Wrote(Insert(files, File(NameOf(period), Some(w.render(Next(w, files, period, drawn, rest))))))
  }

  ghost predicate JsonName(name: string) {
    |name| >= 5 && name[|name| - 5..] == ".json"
  }

  /** A file whose manifest's period is its name's is named by that period. */
  lemma NamedByPeriod(w: World, f: File)
    requires JsonName(f.name) && PeriodIn(w, f) == Some(Stem(f.name))
    ensures f.name == NameOf(PeriodIn(w, f).value)
  {
    assert f.name == f.name[..|f.name| - 5] + f.name[|f.name| - 5..];
  }

  ghost predicate JsonNames(files: seq<File>) {
    forall f :: f in files ==> JsonName(f.name)
  }

  /** A listing: the names of the directory's manifests, in order. */
  ghost predicate Listing(files: seq<File>) {
    Sorted(files) && JsonNames(files)
  }

  /** The newest manifest's period below the new one puts the new name last. */
  lemma NewNameLast(w: World, files: seq<File>, period: string)
    requires Listing(files) && files != []
    requires var newest := files[|files| - 1];
             PeriodIn(w, newest) == Some(Stem(newest.name)) && |PeriodIn(w, newest).value| == |period|
               && Less(PeriodIn(w, newest).value, period)
    ensures forall f :: f in files ==> Less(f.name, NameOf(period))
  {
    hide In, Stem, JsonName;
    var last := |files| - 1;
    NamedByPeriod(w, files[last]);
    NamesInOrder(PeriodIn(w, files[last]).value, period, ".json");
    forall f | f in files ensures Less(f.name, NameOf(period)) {
      var i :| 0 <= i < |files| && files[i] == f;
      if i < last { LessTransitive(f.name, files[last].name, NameOf(period)); }
    }
  }

  lemma {:induction false} NotBoth(a: string, b: string)
    requires Less(a, b)
    ensures !Less(b, a) && a != b
    decreases |a|
  {
    if Less(b, a) { LessTransitive(a, b, a); NotBelowItself(a); }
    NotBelowItself(a);
  }

  /** The manifest a run writes after a chain that verifies is the one that chain asks for next. */
  lemma NextOk(w: World, files: seq<File>, period: string, drawn: Label, rest: Bytes)
    requires w.Sound() && w.date(period) && |period| == 10 && ChainOk(w, files)
    requires Run(w, files, period, drawn, rest).Wrote?
    ensures var f := File(NameOf(period), Some(w.render(Next(w, files, period, drawn, rest))));
            ManifestOk(w, files + [f], |files|)
  {
    hide Less, LabelOpen;
    var m, n := Next(w, files, period, drawn, rest), |files|;
    var f := File(NameOf(period), Some(w.render(m)));
    var all := files + [f];
    assert In(w, all[n]) == Some(m);
    assert Stem(f.name) == period;
    if n > 0 { assert ManifestOk(w, files, n - 1) && all[n - 1] == files[n - 1]; }
    LabelCarried(w, files, period, drawn, rest);
    assert forall j :: 0 <= j < n ==> all[j] == files[j];
  }

  /** The label is the chain's, or drawn when no manifest before has one. */
  lemma LabelCarried(w: World, files: seq<File>, period: string, drawn: Label, rest: Bytes)
    requires ChainOk(w, files) && Run(w, files, period, drawn, rest).Wrote?
    ensures Labelled(w, files, |files|, Next(w, files, period, drawn, rest).chain)
  {
    hide Valid, Less, Linked, Later;
    if files != [] {
      var last := |files| - 1;
      assert ManifestOk(w, files, last);
      forall j | 0 <= j < |files| && LabelIn(w, files[j]).Some?
        ensures Next(w, files, period, drawn, rest).chain == LabelIn(w, files[j])
      {
        assert files[j] in files;
      }
    }
  }

  lemma NewestNamed(w: World, files: seq<File>)
    requires files != [] && ChainOk(w, files)
    ensures PeriodIn(w, files[|files| - 1]) == Some(Stem(files[|files| - 1].name))
  {
    hide Valid, Linked, Later, Labelled;
    assert ManifestOk(w, files, |files| - 1);
  }

  /** The file is that period's, and its manifest, read back, is of this schema and holds just what the run observed. */
  ghost predicate Records(w: World, f: File, period: string, rest: Bytes) {
    && f.name == period + ".json" && In(w, f).Some?
    && var m := In(w, f).value;
       && m.schema == 3 && m.period == Some(period) && m.rest == rest && !m.host && m.commissioning == Absent
  }

  /** The label a run's manifest carries: the newest manifest's, or, when that has none, the one just drawn. */
  function LabelFor(w: World, files: seq<File>, drawn: Label): Label {
    if files != [] && LabelIn(w, files[|files| - 1]).Some? then LabelIn(w, files[|files| - 1]).value else drawn
  }

  /**
   * A run that writes turns a chain that verifies into a longer one that verifies, and its file, read back, holds what
   * this run observed, for this period, under the chain's label or the one drawn.
   */
  lemma RunKeepsChain(w: World, files: seq<File>, period: string, drawn: Label, rest: Bytes)
    requires w.Sound() && w.date(period) && |period| == 10 && Listing(files) && ChainOk(w, files)
    requires Run(w, files, period, drawn, rest).Wrote?
    ensures var longer := Run(w, files, period, drawn, rest).files;
            && |longer| == |files| + 1 && longer[..|files|] == files && longer[|files|].name == NameOf(period)
            && Listing(longer) && ChainOk(w, longer) && Records(w, longer[|files|], period, rest)
            && LabelIn(w, longer[|files|]) == Some(LabelFor(w, files, drawn))
  {
    hide ManifestOk, Less, LabelOpen, Next;
    var f := File(NameOf(period), Some(w.render(Next(w, files, period, drawn, rest))));
    RecordsNext(w, files, period, drawn, rest);
    if files != [] { NewestNamed(w, files); }
    Appends(w, files, period, drawn, rest, f);
    NextOk(w, files, period, drawn, rest);
    var longer := files + [f];
    forall i | 0 <= i < |longer| ensures ManifestOk(w, longer, i) {
      if i < |files| {
        assert longer[..|files|] == files;
        SamePrefix(w, longer, |files|, i);
      }
    }
  }

  lemma RecordsNext(w: World, files: seq<File>, period: string, drawn: Label, rest: Bytes)
    requires w.Sound() && Run(w, files, period, drawn, rest).Wrote?
    ensures var f := File(NameOf(period), Some(w.render(Next(w, files, period, drawn, rest))));
            Records(w, f, period, rest) && LabelIn(w, f) == Some(LabelFor(w, files, drawn))
  {
    hide Less, LabelOpen, Insert;
  }

  lemma Appends(w: World, files: seq<File>, period: string, drawn: Label, rest: Bytes, f: File)
    requires |period| == 10 && Listing(files)
    requires files != [] ==> PeriodIn(w, files[|files| - 1]) == Some(Stem(files[|files| - 1].name))
    requires Run(w, files, period, drawn, rest).Wrote?
    requires f == File(NameOf(period), Some(w.render(Next(w, files, period, drawn, rest))))
    ensures Run(w, files, period, drawn, rest).files == files + [f] && Listing(files + [f])
  {
    hide Less, LabelOpen, Next, Stem;
    if files != [] {
      NewNameLast(w, files, period);
      forall i | 0 <= i < |files| ensures !Less(f.name, files[i].name) {
        assert files[i] in files;
        NotBoth(files[i].name, f.name);
      }
      InsertLast(files, f);
    }
  }

  /** After a chain that verifies, a run writes exactly when it is the first or its period is after the newest one's. */
  lemma RunWritesIff(w: World, files: seq<File>, period: string, drawn: Label, rest: Bytes)
    requires |period| == 10 && Listing(files) && ChainOk(w, files)
    ensures Run(w, files, period, drawn, rest).Wrote? <==>
            files == [] || (var newest := PeriodIn(w, files[|files| - 1]); newest.Some? && Less(newest.value, period))
  {
    hide Less, Next, Linked, Later, Stem;
    if files != [] {
      var last := |files| - 1;
      NewestNamed(w, files);
      assert ManifestOk(w, files, last);
      if LabelIn(w, files[last]).None? { LabelSettled(w, files); }
      if Less(PeriodIn(w, files[last]).value, period) {
        NewNameLast(w, files, period);
        NotBelowItself(NameOf(period));
      }
    }
  }

  /** The newest manifest is one to continue from: an object that is a valid manifest, of an earlier period. */
  ghost predicate Continues(w: World, newest: File, period: string) {
    In(w, newest).Some? && Valid(w, In(w, newest).value) && Less(PeriodIn(w, newest).value, period)
  }

  /** No manifest carries a label, and every one could be read to see that. */
  ghost predicate NeverLabelled(w: World, files: seq<File>) {
    forall f :: f in files ==> In(w, f).Some? && LabelIn(w, f).None?
  }

  /**
   * Over any listing whatever, whether or not it verifies: a run does nothing exactly when the period has its file;
   * else it writes exactly when there is no manifest, or the newest is one to continue from and is labelled or no
   * manifest ever was, so that a label is drawn once; and what was there stays.
   */
  lemma RunWritesOver(w: World, files: seq<File>, period: string, drawn: Label, rest: Bytes)
    ensures var end, last := Run(w, files, period, drawn, rest), |files| - 1;
            var there := exists f :: f in files && f.name == NameOf(period);
            var fit := files == [] || (Continues(w, files[last], period)
                                       && (LabelIn(w, files[last]).Some? || NeverLabelled(w, files)));
            && (end.Noop? <==> there)
            && (end.Wrote? <==> !there && fit)
            && (end.Wrote? ==> |end.files| == |files| + 1 && forall f :: f in files ==> f in end.files)
  {
    hide Less, Next;
    assert LabelOpen(w, files) <==> !NeverLabelled(w, files);
    if Run(w, files, period, drawn, rest).Wrote? {
      InsertKeeps(files, File(NameOf(period), Some(w.render(Next(w, files, period, drawn, rest)))));
    }
  }

  /** In a chain that verifies an unlabelled newest manifest means no label was ever drawn, and every file reads. */
  lemma LabelSettled(w: World, files: seq<File>)
    requires files != [] && ChainOk(w, files) && LabelIn(w, files[|files| - 1]).None?
    ensures !LabelOpen(w, files)
  {
    hide Valid, Less, Linked, Later;
    var last := |files| - 1;
    assert ManifestOk(w, files, last);
    forall f | f in files ensures In(w, f).Some? && LabelIn(w, f).None? {
      var i :| 0 <= i < |files| && files[i] == f;
      assert ManifestOk(w, files, i);
    }
  }

  /** A run never mends a chain that does not verify: what it leaves verifies only if what it continued did. */
  lemma RunMendsNothing(w: World, files: seq<File>, period: string, drawn: Label, rest: Bytes)
    requires |period| == 10 && Listing(files) && files != [] && Run(w, files, period, drawn, rest).Wrote?
    requires ChainOk(w, Run(w, files, period, drawn, rest).files)
    ensures ChainOk(w, files)
  {
    hide Less, LabelOpen, Next, Linked, Later, Labelled;
    var longer, newest := Run(w, files, period, drawn, rest).files, files[|files| - 1];
    var f := File(NameOf(period), Some(w.render(Next(w, files, period, drawn, rest))));
    InsertKeeps(files, f);
    assert newest in longer;
    var i :| 0 <= i < |longer| && longer[i] == newest;
    assert ManifestOk(w, longer, i);
    Appends(w, files, period, drawn, rest, f);
    PrefixOk(w, longer, |files|);
    assert longer[..|files|] == files;
  }

  // --- runs --------------------------------------------------------------------------------------

  /** One run: its period, the label it would draw, what else its manifest holds, and whether the write landed. */
  datatype Turn = Turn(period: string, drawn: Label, rest: Bytes, lands: bool)

  function Runs(w: World, files: seq<File>, turns: seq<Turn>): seq<File>
    decreases |turns|
  {
    if turns == [] then files
    else
      var end := Run(w, files, turns[0].period, turns[0].drawn, turns[0].rest);
      Runs(w, if end.Wrote? && turns[0].lands then end.files else files, turns[1..])
  }

  /** The turns that leave a file: those that land, of a period after the newest before. */
  function Landing(newest: Option<string>, turns: seq<Turn>): seq<Turn>
    decreases |turns|
  {
    if turns == [] then []
    else if turns[0].lands && (newest.None? || Less(newest.value, turns[0].period)) then
      [turns[0]] + Landing(Some(turns[0].period), turns[1..])
    else Landing(newest, turns[1..])
  }

  function NewestPeriod(w: World, files: seq<File>): Option<string> {
    if files == [] then None else PeriodIn(w, files[|files| - 1])
  }

  lemma NewestIsNamed(w: World, files: seq<File>)
    requires files != [] && ChainOk(w, files)
    ensures NewestPeriod(w, files).Some?
  {
    hide Valid, Linked, Later, Labelled;
    assert ManifestOk(w, files, |files| - 1);
  }

  /** One file for each of the turns, in order, holding what that turn observed. */
  ghost predicate FilesOf(w: World, files: seq<File>, turns: seq<Turn>) {
    |files| == |turns| && forall k :: 0 <= k < |files| ==> Records(w, files[k], turns[k].period, turns[k].rest)
  }

  lemma NoFilesYet(w: World, files: seq<File>)
    ensures FilesOf(w, files[|files|..], [])
  {
  }

  lemma FilesAdd(w: World, files: seq<File>, longer: seq<File>, all: seq<File>, turn: Turn, rest: seq<Turn>)
    requires |longer| == |files| + 1 && longer[..|files|] == files && longer <= all
    requires Records(w, longer[|files|], turn.period, turn.rest) && FilesOf(w, all[|longer|..], rest)
    ensures files <= all && FilesOf(w, all[|files|..], [turn] + rest)
  {
    hide Records;
    assert files == all[..|files|];
    assert all[|files|..] == [longer[|files|]] + all[|longer|..];
  }

  /**
   * Whatever runs, stops and refusals: a chain that verifies stays one, and grows at its end by one file for each turn
   * that lands, of a period after all before, holding what that turn observed.
   */
  lemma {:induction false} RunsKeepChain(w: World, files: seq<File>, turns: seq<Turn>)
    requires w.Sound() && Listing(files) && ChainOk(w, files)
    requires forall t :: t in turns ==> w.date(t.period) && |t.period| == 10
    ensures Listing(Runs(w, files, turns)) && ChainOk(w, Runs(w, files, turns)) && files <= Runs(w, files, turns)
    ensures FilesOf(w, Runs(w, files, turns)[|files|..], Landing(NewestPeriod(w, files), turns))
    decreases |turns|
  {
    hide ChainOk, Listing, Run, Records, PeriodIn, Less, FilesOf;
    if turns == [] {
      NoFilesYet(w, files);
    } else {
      var end := Run(w, files, turns[0].period, turns[0].drawn, turns[0].rest);
      RunWritesIff(w, files, turns[0].period, turns[0].drawn, turns[0].rest);
      if files != [] { NewestIsNamed(w, files); }
      if end.Wrote? && turns[0].lands {
        RunKeepsChain(w, files, turns[0].period, turns[0].drawn, turns[0].rest);
        RunsKeepChain(w, end.files, turns[1..]);
        RecordsPeriod(w, end.files[|files|], turns[0]);
        FilesAdd(w, files, end.files, Runs(w, files, turns), turns[0], Landing(Some(turns[0].period), turns[1..]));
      } else {
        RunsKeepChain(w, files, turns[1..]);
      }
    }
  }

  lemma RecordsPeriod(w: World, f: File, t: Turn)
    requires Records(w, f, t.period, t.rest)
    ensures PeriodIn(w, f) == Some(t.period)
  {
  }

  // --- what a chain pins -------------------------------------------------------------------------

  predicate Collision(h: HashFn, x: Bytes, y: Bytes) {
    x != y && h.Digest(x) == h.Digest(y)
  }

  /**
   * Two chains that verify and share a manifest are the same chain up to it, file for file and byte for byte, or here
   * are two inputs that sha256 does not tell apart.
   */
  lemma {:induction false} Pinned(w: World, a: seq<File>, i: nat, b: seq<File>, j: nat) returns (x: Bytes, y: Bytes)
    requires ChainOk(w, a) && ChainOk(w, b) && i < |a| && j < |b| && a[i] == b[j]
    ensures (i == j && a[..i + 1] == b[..j + 1]) || Collision(w.h, x, y)
    decreases i
  {
    hide Valid, Less, Later, Labelled;
    x, y := [], [];
    assert ManifestOk(w, a, i) && ManifestOk(w, b, j);
    assert i == j;
    if i > 0 {
      x, y := a[i - 1].raw.value, b[j - 1].raw.value;
      if x == y {
        x, y := Pinned(w, a, i - 1, b, j - 1);
        assert a[..i + 1] == a[..i] + [a[i]] && b[..j + 1] == b[..j] + [b[j]];
      }
    }
  }

  /** Two chains that verify with the same newest file are identical throughout, or sha256 collides. */
  lemma SameNewestSameChain(w: World, a: seq<File>, b: seq<File>) returns (x: Bytes, y: Bytes)
    requires ChainOk(w, a) && ChainOk(w, b) && a != [] && b != [] && a[|a| - 1] == b[|b| - 1]
    ensures a == b || Collision(w.h, x, y)
  {
    hide ChainOk;
    x, y := Pinned(w, a, |a| - 1, b, |b| - 1);
    assert a[..|a|] == a && b[..|b|] == b;
  }
}
