/** The commit sequence of the data file as single file-system steps, with a crash possible
    between any two of them and in the middle of a write. */
module CrashSafety {
  import opened Bytes
  import opened Options
  import opened SaveData
  import LegacyData

  type File = seq<Byte>

  /** The file formats as far as the protocol depends on them: the image of two sections, what
      is loaded of a file, and what the two files of an old installation convert to. */
  datatype Codec = Codec(image: Sections -> File, parse: File -> Option<Sections>,
                         convert: (File, Option<File>) -> Option<File>)
  {
    ghost predicate Lawful() {
      && (forall d :: parse(image(d)) == if WithinLimits(d) then Some(d) else None)
      && (forall f, n :: parse(f).Some? && 0 <= n < |f| ==> parse(f[..n]) == None)
      && parse([]) == None
    }
  }

  function FileFormat(host: LegacyData.Host, sha: Digest): Codec {
    Codec(d => Image(d, sha), f => Parse(f, sha), (dht, labels) => LegacyData.Converted(dht, labels, host, sha))
  }

  lemma FileFormatLawful(host: LegacyData.Host, sha: Digest)
    ensures FileFormat(host, sha).Lawful()
  {
    var c := FileFormat(host, sha);
    forall d ensures c.parse(c.image(d)) == if WithinLimits(d) then Some(d) else None { StoreThenLoad(d, sha); }
    forall f, n | c.parse(f).Some? && 0 <= n < |f| ensures c.parse(f[..n]) == None { TornRefused(f, n); }
  }

  /** carrier.data, carrier.data.journal, and the savedata and label files of an old installation. */
  datatype Disk = Disk(main: Option<File>, journal: Option<File>, oldDht: Option<File>, oldLabels: Option<File>)

  datatype Op = Create | Write(image: File) | Sync | RemoveOldDht | RemoveOldLabels | RemoveMain | Rename

  /** A node, running or not, with what it still has to do to its files. For reference: the
      sections last committed; those of a store or start that is under way or was cut by a
      crash; and the file written for them. */
  datatype Node =
    Node(disk: Disk, up: bool, todo: seq<Op>, committed: Option<Sections>, attempt: Option<Sections>, draft: File)

  const Promote := [RemoveMain, Rename]

  /** The calls of store_persistence_data. */
  function Store(image: File): seq<Op> { [Create, Write(image), Sync] + Promote }

  /** The calls of convert_old_dhtdata. */
  function Convert(image: File): seq<Op> { [Create, Write(image), Sync, RemoveOldDht, RemoveOldLabels] + Promote }

  function Do(d: Disk, op: Op): Disk {
    match op
    case Create => d.(journal := Some([]))
    case Write(image) => d.(journal := Some(image))
    case Sync => d
    case RemoveOldDht => d.(oldDht := None)
    case RemoveOldLabels => d.(oldLabels := None)
    case RemoveMain => d.(main := None)
    case Rename => if d.journal == None then d else d.(main := d.journal, journal := None)
  }

  /** A crash may leave any prefix of what was being written or not yet synced. */
  function Torn(d: Disk, todo: seq<Op>, n: nat): Disk {
    if todo != [] && todo[0].Write? then d.(journal := Some(Prefix(todo[0].image, n)))
    else if todo != [] && todo[0] == Sync && d.journal.Some? then d.(journal := Some(Prefix(d.journal.value, n)))
    else d
  }

  function Prefix(f: File, n: nat): File { if n <= |f| then f[..n] else f }

  function ParseFile(f: Option<File>, c: Codec): Option<Sections> {
    if f == None then None else c.parse(f.value)
  }

  /** What an old installation converts to. */
  function OldImage(d: Disk, c: Codec): Option<File> {
    if d.oldDht == None then None else c.convert(d.oldDht.value, d.oldLabels)
  }

  /** What load_persistence_data returns: the journal if it is whole, else the data file if
      there is one, else what an old installation left. */
  function Loads(d: Disk, c: Codec): Option<Sections> {
    if ParseFile(d.journal, c).Some? then ParseFile(d.journal, c) else Settled(d, c)
  }

  function Settled(d: Disk, c: Codec): Option<Sections> {
    if d.main.Some? then ParseFile(d.main, c) else ParseFile(OldImage(d, c), c)
  }

  datatype Step =
    | Save(d: Sections)      // a store begins
    | Next                   // the next call succeeds
    | Fail                   // opening, writing or syncing the journal fails
    | Crash(n: nat)          // n: how much of an unsynced journal survives
    | Boot                   // the node starts and loads

  function Advance(s: Node, step: Step, c: Codec): Node {
    match step
    case Save(d) =>
      if !s.up || s.todo != [] then s else s.(todo := Store(c.image(d)), attempt := Some(d), draft := c.image(d))
    case Next =>
      if s.todo == [] then s
      else s.(disk := Do(s.disk, s.todo[0]), todo := s.todo[1..],
              committed := if s.todo[0] == Rename then s.attempt else s.committed,
              attempt := if s.todo[0] == Rename then None else s.attempt)
    case Fail =>
      if s.todo == [] then s
      else if s.todo[0] == Create then s.(todo := [], attempt := None)
      else if s.todo[0].Write? || s.todo[0] == Sync then
        s.(todo := [], attempt := None, disk := s.disk.(journal := None))
      else s
    case Crash(n) =>
      if !s.up then s else s.(up := false, todo := [], disk := Torn(s.disk, s.todo, n))
    case Boot =>
      if s.up then s
      else if ParseFile(s.disk.journal, c).Some? then
        s.(up := true, todo := Promote, attempt := ParseFile(s.disk.journal, c))
      else if s.disk.main == None && OldImage(s.disk, c).Some? then
        var f := OldImage(s.disk, c).value;
        s.(up := true, todo := Convert(f), attempt := c.parse(f), draft := f)
      else s.(up := true, attempt := None)
  }

  /** A run from a node that is not running, over any disk. */
  function After(disk: Disk, steps: seq<Step>, c: Codec): Node {
    if steps == [] then Node(disk, false, [], Loads(disk, c), None, [])
    else Advance(After(disk, steps[..|steps| - 1], c), steps[|steps| - 1], c)
  }

  /** No part of what an old installation converts to can be taken for a whole file. */
  ghost predicate Unbroken(d: Disk, c: Codec) { OldImage(d, c).Some? ==> NoPartLoads(OldImage(d, c).value, c) }

  ghost predicate NoPartLoads(f: File, c: Codec) { forall n :: 0 <= n < |f| ==> c.parse(f[..n]) == None }

  /** All that is saved is within the limits of the file format. */
  ghost predicate Modest(disk: Disk, steps: seq<Step>, c: Codec) {
    && Unbroken(disk, c)
    && (forall i :: 0 <= i < |steps| && steps[i].Save? ==> WithinLimits(steps[i].d))
  }

  // ----- the invariant -----

  /** What remains to be done once the journal is on the disk. */
  ghost predicate Tail(todo: seq<Op>) {
    || todo == [Rename] || todo == Promote
    || todo == [RemoveOldLabels] + Promote || todo == [RemoveOldDht, RemoveOldLabels] + Promote
  }

  ghost predicate WholeTail(todo: seq<Op>) { todo == Promote || todo == [RemoveOldDht, RemoveOldLabels] + Promote }

  /** The journal is still being written. */
  ghost predicate Writing(todo: seq<Op>, image: File) {
    || (|todo| >= 3 && todo[..3] == [Create, Write(image), Sync] && WholeTail(todo[3..]))
    || (|todo| >= 2 && todo[..2] == [Write(image), Sync] && WholeTail(todo[2..]))
    || (|todo| >= 1 && todo[0] == Sync && WholeTail(todo[1..]))
  }

  ghost predicate WritingInv(s: Node, c: Codec) {
    && s.attempt.Some? && c.parse(s.draft) == s.attempt && Writing(s.todo, s.draft)
    && Settled(s.disk, c) == s.committed
    && (if s.todo[0] == Sync then s.disk.journal == Some(s.draft) else ParseFile(s.disk.journal, c) == None)
  }

  /** The journal is whole and takes the place of the data file. */
  ghost predicate PromotingInv(s: Node, c: Codec) {
    && s.attempt.Some? && ParseFile(s.disk.journal, c) == s.attempt && Tail(s.todo)
    && (s.todo[0] == RemoveOldLabels ==> s.disk.oldDht == None)
  }

  /** A conversion to something that does not load: there is nothing to load all the time. */
  ghost predicate FutileInv(s: Node, c: Codec) {
    && s.attempt == None && s.committed == None && s.disk.main == None && ParseFile(s.disk.journal, c) == None
    && c.parse(s.draft) == None && NoPartLoads(s.draft, c) && ParseFile(OldImage(s.disk, c), c) == None
    && (Tail(s.todo) || Writing(s.todo, s.draft)) && s.todo != []
    && (Tail(s.todo) || s.todo[0] == Sync ==> s.disk.journal == Some(s.draft))
    && (s.todo[0] == RemoveOldLabels ==> s.disk.oldDht == None)
  }

  ghost predicate Inv(s: Node, c: Codec) {
    && Unbroken(s.disk, c)
    && if !s.up then s.todo == [] && DownInv(s, c)
       else if s.todo == [] then IdleInv(s, c)
       else WritingInv(s, c) || PromotingInv(s, c) || FutileInv(s, c)
  }

  ghost predicate IdleInv(s: Node, c: Codec) {
    s.attempt == None && ParseFile(s.disk.journal, c) == None && Settled(s.disk, c) == s.committed
  }

  ghost predicate DownInv(s: Node, c: Codec) {
    if ParseFile(s.disk.journal, c).Some? then Loads(s.disk, c) == s.committed || Loads(s.disk, c) == s.attempt
    else Settled(s.disk, c) == s.committed
  }

  lemma NextKeeps(s: Node, c: Codec)
    requires c.Lawful() && Inv(s, c) && s.up && s.todo != []
    ensures Inv(Advance(s, Next, c), c)
  {
    if WritingInv(s, c) {
      WritingNext(s.todo, s.draft);
    } else if PromotingInv(s, c) {
      TailNext(s.todo);
    } else {
      FutileNext(s, c);
    }
  }

  lemma FutileNext(s: Node, c: Codec)
    requires c.Lawful() && Inv(s, c) && s.up && FutileInv(s, c)
    ensures Inv(Advance(s, Next, c), c)
  {
    if Tail(s.todo) { TailNext(s.todo); } else { WritingNext(s.todo, s.draft); }
  }

  lemma WritingNext(todo: seq<Op>, image: File)
    requires Writing(todo, image)
    ensures todo != [] && if todo[0] == Sync then WholeTail(todo[1..]) else Writing(todo[1..], image)
    ensures todo[0] == Create || todo[0] == Write(image) || todo[0] == Sync
    ensures todo[0] == Create ==> todo[1..][0] == Write(image)
    ensures todo[0] == Write(image) ==> todo[1..][0] == Sync
  {
    if todo[0] == Create {
      assert todo[..3][0] == todo[0] && todo[..3][1] == todo[1] && todo[..3][2] == todo[2];
      assert todo[1..][2..] == todo[3..] && todo[1..][..2] == [Write(image), Sync];
    } else if todo[0] == Write(image) {
      assert todo[..2][0] == todo[0] && todo[..2][1] == todo[1];
      assert todo[1..][1..] == todo[2..];
    }
  }

  lemma TailNext(todo: seq<Op>)
    requires Tail(todo)
    ensures todo != [] && (todo[0] == Rename ==> todo[1..] == []) && (todo[0] != Rename ==> Tail(todo[1..]))
    ensures todo[0] in {Rename, RemoveMain, RemoveOldDht, RemoveOldLabels}
  {
    if todo[0] == RemoveMain { assert todo[1..] == [Rename]; }
    else if todo[0] == RemoveOldLabels { assert todo[1..] == Promote; }
    else if todo[0] == RemoveOldDht { assert todo[1..] == [RemoveOldLabels] + Promote; }
  }

  lemma FailKeeps(s: Node, c: Codec)
    requires c.Lawful() && Inv(s, c)
    ensures Inv(Advance(s, Fail, c), c)
  {
    if s.up && s.todo != [] {
      if Tail(s.todo) { TailNext(s.todo); } else { WritingNext(s.todo, s.draft); }
    }
  }

  /** Whatever part of the journal survives, it is refused or it is all of it. */
  lemma PrefixLoads(f: File, n: nat, c: Codec)
    requires c.Lawful() && (c.parse(f).Some? || NoPartLoads(f, c))
    ensures c.parse(Prefix(f, n)) == None || c.parse(Prefix(f, n)) == c.parse(f)
  {
    if n < |f| {
      assert Prefix(f, n) == f[..n];
    } else {
      assert Prefix(f, n) == f;
    }
  }

  lemma CrashKeeps(s: Node, n: nat, c: Codec)
    requires c.Lawful() && Inv(s, c)
    ensures Inv(Advance(s, Crash(n), c), c)
  {
    if s.up && s.todo != [] {
      if Tail(s.todo) {
        TailNext(s.todo);
      } else {
        WritingNext(s.todo, s.draft);
        PrefixLoads(s.draft, n, c);
      }
    }
  }

  lemma WholeWriting(image: File)
    ensures Writing(Store(image), image) && Store(image)[0] == Create
    ensures Writing(Convert(image), image) && Convert(image)[0] == Create
  {
    assert Store(image)[3..] == Promote && Store(image)[..3] == [Create, Write(image), Sync];
    assert Convert(image)[3..] == [RemoveOldDht, RemoveOldLabels] + Promote
           && Convert(image)[..3] == [Create, Write(image), Sync];
  }

  lemma StepKeeps(s: Node, step: Step, c: Codec)
    requires c.Lawful() && Inv(s, c) && (step.Save? ==> WithinLimits(step.d))
    ensures Inv(Advance(s, step, c), c)
  {
    match step
    case Save(d) => WholeWriting(c.image(d));
    case Next => if s.todo != [] { NextKeeps(s, c); }
    case Fail => FailKeeps(s, c);
    case Crash(n) => CrashKeeps(s, n, c);
    case Boot => if OldImage(s.disk, c).Some? { WholeWriting(OldImage(s.disk, c).value); }
  }

  lemma {:induction false} RunKeepsInv(disk: Disk, steps: seq<Step>, c: Codec)
    requires c.Lawful() && Modest(disk, steps, c)
    ensures Inv(After(disk, steps, c), c)
  {
    if steps != [] {
      var before := steps[..|steps| - 1];
      assert forall i :: 0 <= i < |before| ==> before[i] == steps[i];
      RunKeepsInv(disk, before, c);
      StepKeeps(After(disk, before, c), steps[|steps| - 1], c);
    }
  }

  // ----- what saving promises -----

  /** At every point of every run of stores, failures, crashes and starts, a load of the disk
      as it is gives the sections committed last, or those of a store or start that is under way
      or was cut by a crash, each whole. When a running node has nothing left to do, also after
      a failure, it is the sections committed last; until something is written, too; and from
      the sync of the journal on it is the new ones. */
  lemma CrashAtomic(disk: Disk, steps: seq<Step>, c: Codec)
    requires c.Lawful() && Modest(disk, steps, c)
    ensures var s := After(disk, steps, c);
            && (Loads(s.disk, c) == s.committed || (s.attempt.Some? && Loads(s.disk, c) == s.attempt))
            && (s.up && s.todo == [] ==> s.attempt == None && Loads(s.disk, c) == s.committed)
            && (s.up && s.todo != [] && (s.todo[0].Create? || s.todo[0].Write?) ==> Loads(s.disk, c) == s.committed)
            && (s.up && s.todo != [] && !s.todo[0].Create? && !s.todo[0].Write? && !s.todo[0].Sync? ==>
                  Loads(s.disk, c) == s.attempt)
  {
    RunKeepsInv(disk, steps, c);
    var s := After(disk, steps, c);
    if s.up && s.todo != [] { if Tail(s.todo) { TailNext(s.todo); } else { WritingNext(s.todo, s.draft); } }
  }

  /** Once something is committed, every later disk loads something. */
  lemma {:induction false} NeverLost(disk: Disk, steps: seq<Step>, k: nat, c: Codec)
    requires c.Lawful() && k <= |steps| && Modest(disk, steps, c) && After(disk, steps[..k], c).committed.Some?
    ensures After(disk, steps, c).committed.Some? && Loads(After(disk, steps, c).disk, c).Some?
    decreases |steps|
  {
    CrashAtomic(disk, steps, c);
    if k == |steps| {
      assert steps[..k] == steps;
    } else {
      var before := steps[..|steps| - 1];
      assert before[..k] == steps[..k] && forall i :: 0 <= i < |before| ==> before[i] == steps[i];
      NeverLost(disk, before, k, c);
      RunKeepsInv(disk, before, c);
      StaysCommitted(After(disk, before, c), steps[|steps| - 1], c);
    }
  }

  lemma StaysCommitted(s: Node, step: Step, c: Codec)
    requires Inv(s, c) && s.committed.Some?
    ensures Advance(s, step, c).committed.Some?
  {
  }

  /** A start that is not disturbed loads what `Loads` says and leaves it as the data file. */
  lemma BootLoads(s: Node, c: Codec)
    requires c.Lawful() && Inv(s, c) && !s.up
    ensures var t := Finish(Advance(s, Boot, c), c);
            t.up && t.todo == [] && Settled(t.disk, c) == Loads(s.disk, c) && Loads(t.disk, c) == Loads(s.disk, c)
  {
    var b := Advance(s, Boot, c);
    StepKeeps(s, Boot, c);
    FinishKeeps(b, c);
  }

  /** A start that converts to something that does not load: the old files are gone, and
      nothing loads any more. */
  lemma FutileStart(s: Node, c: Codec)
    requires c.Lawful() && !s.up && ParseFile(s.disk.journal, c) == None && s.disk.main == None
    requires OldImage(s.disk, c).Some? && ParseFile(OldImage(s.disk, c), c) == None
    ensures var t := Finish(Advance(s, Boot, c), c);
            t.disk == Disk(OldImage(s.disk, c), None, None, None) && Loads(t.disk, c) == None
  {
    FinishDoesAll(Advance(s, Boot, c), c);
    ConvertDoes(s.disk, OldImage(s.disk, c).value);
  }

  /** Letting the node do all it has to do. */
  function Finish(s: Node, c: Codec): Node
    decreases |s.todo|
  {
    if s.todo == [] then s else Finish(Advance(s, Next, c), c)
  }

  lemma {:induction false} FinishKeeps(s: Node, c: Codec)
    requires c.Lawful() && Inv(s, c) && s.up
    ensures var t := Finish(s, c);
            Inv(t, c) && t.up && t.todo == [] && t.committed == (if s.todo == [] then s.committed else s.attempt)
    decreases |s.todo|
  {
    if s.todo != [] {
      NextKeeps(s, c);
      if Tail(s.todo) { TailNext(s.todo); } else { WritingNext(s.todo, s.draft); }
      FinishKeeps(Advance(s, Next, c), c);
    }
  }

  /** A store that runs to its end leaves its sections, if and only if they are within the
      limits. Otherwise it leaves nothing to load, whatever was there before. */
  lemma StoreCompletes(s: Node, d: Sections, c: Codec)
    requires c.Lawful() && s.up && s.todo == []
    ensures var t := Finish(Advance(s, Save(d), c), c);
            t.todo == [] && Loads(t.disk, c) == if WithinLimits(d) then Some(d) else None
  {
    var f := c.image(d);
    var s0 := Advance(s, Save(d), c);
    var s1 := Advance(s0, Next, c);
    assert s1.todo == [Write(f), Sync] + Promote;
    var s2 := Advance(s1, Next, c);
    assert s2.todo == [Sync] + Promote && s2.disk.journal == Some(f);
    var s3 := Advance(s2, Next, c);
    assert s3.todo == Promote;
    var s4 := Advance(s3, Next, c);
    assert s4.todo == [Rename];
    var s5 := Advance(s4, Next, c);
    assert s5.todo == [] && s5.disk.main == Some(f) && s5.disk.journal == None;
    assert Finish(s5, c) == s5;
    assert Finish(s4, c) == s5;
    assert Finish(s3, c) == s5;
    assert Finish(s2, c) == s5;
    assert Finish(s1, c) == s5;
    assert Finish(s0, c) == s5;
  }

  /** A file whose body was damaged, so that its digest changed, is never loaded: as a journal it
      is passed over, and as data file nothing loads. */
  lemma DamagedNeverLoads(d: Disk, f: File, body: seq<Byte>, host: LegacyData.Host, sha: Digest)
    requires Parse(f, sha).Some? && |f| == 256 + |body| && sha(body) != sha(f[256..])
    ensures var c, g := FileFormat(host, sha), f[..256] + body;
            && Loads(d.(journal := Some(g)), c) == Settled(d, c)
            && Loads(d.(main := Some(g), journal := None), c) == None
  {
    DamagedRefused(f, body, sha);
  }

  /** Files of at most 4 GiB, whose lengths fit their fields, are unbroken. */
  lemma OldIsUnbroken(disk: Disk, host: LegacyData.Host, sha: Digest)
    requires OldImage(disk, FileFormat(host, sha)).Some?
    requires |OldImage(disk, FileFormat(host, sha)).value| <= 0x1_0000_0000
    ensures Unbroken(disk, FileFormat(host, sha))
  {
    var c := FileFormat(host, sha);
    var f := OldImage(disk, c).value;
    var dht, rs := disk.oldDht.value, LegacyData.OldList(disk.oldLabels, host).value;
    var n := LegacyData.OldLength(disk.oldLabels, host, rs);
    forall k | 0 <= k < |f| ensures c.parse(f[..k]) == None {
      Round256Bounds(|dht|);
      Round256Bounds(n);
      CutFrameRefused(dht, n, LegacyData.OldArea(disk.oldLabels, host, rs)[..Round256(n)], k, sha);
    }
  }

  /** All of this for the real file format, with any digest. */
  lemma DataFileIsCrashAtomic(disk: Disk, steps: seq<Step>, k: nat, host: LegacyData.Host, sha: Digest)
    requires k <= |steps| && forall i :: 0 <= i < |steps| && steps[i].Save? ==> WithinLimits(steps[i].d)
    requires OldImage(disk, FileFormat(host, sha)).Some? ==>
               |OldImage(disk, FileFormat(host, sha)).value| <= 0x1_0000_0000
    ensures var c := FileFormat(host, sha); var s := After(disk, steps, c);
            && (Loads(s.disk, c) == s.committed || (s.attempt.Some? && Loads(s.disk, c) == s.attempt))
            && (s.up && s.todo == [] ==> s.attempt == None && Loads(s.disk, c) == s.committed)
            && (s.up && s.todo != [] && (s.todo[0].Create? || s.todo[0].Write?) ==> Loads(s.disk, c) == s.committed)
            && (s.up && s.todo != [] && !s.todo[0].Create? && !s.todo[0].Write? && !s.todo[0].Sync? ==>
                  Loads(s.disk, c) == s.attempt)
            && (After(disk, steps[..k], c).committed.Some? ==> s.committed.Some? && Loads(s.disk, c).Some?)
  {
    var c := FileFormat(host, sha);
    FileFormatLawful(host, sha);
    if OldImage(disk, c).Some? { OldIsUnbroken(disk, host, sha); }
    CrashAtomic(disk, steps, c);
    if After(disk, steps[..k], c).committed.Some? { NeverLost(disk, steps, k, c); }
  }

  // ----- the two procedures, undisturbed by crashes -----

  function DoAll(d: Disk, ops: seq<Op>): Disk
    decreases |ops|
  {
    if ops == [] then d else DoAll(Do(d, ops[0]), ops[1..])
  }

  lemma {:induction false} FinishDoesAll(s: Node, c: Codec)
    ensures Finish(s, c).disk == DoAll(s.disk, s.todo)
    decreases |s.todo|
  {
    if s.todo != [] { FinishDoesAll(Advance(s, Next, c), c); }
  }

  lemma PromoteDoes(d: Disk)
    requires d.journal.Some?
    ensures DoAll(d, Promote) == d.(main := d.journal, journal := None)
  {
    assert Promote[1..] == [Rename] && [Rename][1..] == [];
  }

  lemma StoreDoes(d: Disk, image: File)
    ensures DoAll(d, Store(image)) == d.(main := Some(image), journal := None)
  {
    var t := [Write(image), Sync] + Promote;
    assert Store(image)[0] == Create && Store(image)[1..] == t;
    WriteDoes(d.(journal := Some([])), image, Promote);
    PromoteDoes(d.(journal := Some(image)));
  }

  lemma WriteDoes(d: Disk, image: File, tail: seq<Op>)
    ensures DoAll(d, [Write(image), Sync] + tail) == DoAll(d.(journal := Some(image)), tail)
  {
    var t := [Write(image), Sync] + tail;
    assert t[0] == Write(image) && t[1..] == [Sync] + tail;
    assert ([Sync] + tail)[0] == Sync && ([Sync] + tail)[1..] == tail;
  }

  lemma ConvertDoes(d: Disk, image: File)
    ensures DoAll(d, Convert(image)) == Disk(Some(image), None, None, None)
  {
    var t := [RemoveOldDht, RemoveOldLabels] + Promote;
    assert Convert(image)[0] == Create && Convert(image)[1..] == [Write(image), Sync] + t;
    WriteDoes(d.(journal := Some([])), image, t);
    assert t[0] == RemoveOldDht && t[1..] == [RemoveOldLabels] + Promote && t[1..][1..] == Promote;
    PromoteDoes(Disk(d.main, Some(image), None, None));
  }

  class DataFiles {
    var main: Option<File>
    var journal: Option<File>
    var oldDht: Option<File>
    var oldLabels: Option<File>

    function State(): Disk
      reads this
    {
      Disk(main, journal, oldDht, oldLabels)
    }

    /** The end of store_persistence_data; `io` are the answers of open, write and fsync. */
    method StoreData(image: File, io: (bool, bool, bool)) returns (rc: int)
      modifies this
      ensures rc == if io.0 && io.1 && io.2 then 0 else -1
      ensures rc == 0 ==> State() == DoAll(old(State()), Store(image))
      ensures rc != 0 ==> State() == if io.0 then old(State()).(journal := None) else old(State())
    {
      StoreDoes(State(), image);
      rc := WriteJournal(image, io);
      if rc == 0 {
        main := None;
        main, journal := journal, None;
      }
    }

    method WriteJournal(image: File, io: (bool, bool, bool)) returns (rc: int)
      modifies this`journal
      ensures rc == if io.0 && io.1 && io.2 then 0 else -1
      ensures journal == if rc == 0 then Some(image) else if io.0 then None else old(journal)
    {
      if !io.0 {
        return -1;
      }
      journal := Some([]);
      if !io.1 {
        journal := None;
        return -1;
      }
      journal := Some(image);
      if !io.2 {
        journal := None;
        return -1;
      }
      return 0;
    }

    /** The end of convert_old_dhtdata. */
    method ConvertData(image: File, io: (bool, bool, bool)) returns (rc: int)
      modifies this
      ensures rc == if io.0 && io.1 && io.2 then 0 else -1
      ensures rc == 0 ==> State() == DoAll(old(State()), Convert(image))
      ensures rc != 0 ==> State() == if io.0 then old(State()).(journal := None) else old(State())
    {
      ConvertDoes(State(), image);
      rc := WriteJournal(image, io);
      if rc == 0 {
        oldDht := None;
        oldLabels := None;
        main := None;
        main, journal := journal, None;
      }
    }

    /** Nothing can be loaded but what an old installation left. */
    ghost predicate Converts(c: Codec)
      reads this
    {
      ParseFile(journal, c) == None && main == None && oldDht.Some?
    }

    /** load_persistence_data: returns what the disk loads and leaves the files as the steps of
        a start do. When a conversion cannot write its result, nothing is loaded and the old
        files are as they were. A conversion that leaves its buffer is undefined. */
    method LoadData(c: Codec, io: (bool, bool, bool)) returns (r: Option<Sections>)
      requires c.Lawful()
      modifies this
      ensures (old(Converts(c)) ==> OldImage(old(State()), c).Some? && io == (true, true, true)) ==>
                && r == Loads(old(State()), c)
                && State() == Finish(Advance(Node(old(State()), false, [], None, None, []), Boot, c), c).disk
      ensures old(Converts(c)) && OldImage(old(State()), c).Some? && io != (true, true, true) ==>
                r == None && State() == if io.0 then old(State()).(journal := None) else old(State())
    {
      FinishDoesAll(Advance(Node(State(), false, [], None, None, []), Boot, c), c);
      var fromJournal := true;
      ghost var converted := false;
      while true
        invariant !fromJournal ==> ParseFile(old(journal), c) == None
        invariant !converted ==> State() == old(State())
        invariant converted ==> && !fromJournal && old(Converts(c)) && OldImage(old(State()), c).Some?
                                && io == (true, true, true)
                                && State() == Disk(OldImage(old(State()), c), None, None, None)
                                && State() == DoAll(old(State()), Convert(OldImage(old(State()), c).value))
        decreases if fromJournal then 2 else if !converted then 1 else 0
      {
        var file := if fromJournal then journal else main;
        if file == None {
          if fromJournal {
            fromJournal := false;
            continue;
          }
          if oldDht == None {
            return None;
          }
          var image := OldImage(State(), c);
          if image == None {
            return None;
          }
          converted := true;
          ConvertDoes(State(), image.value);
          var rc := ConvertData(image.value, io);
          if rc < 0 {
            return None;
          }
          continue;
        }
        r := c.parse(file.value);
        if r == None {
          if fromJournal {
            fromJournal := false;
            continue;
          }
          return None;
        }
        if fromJournal {
          PromoteDoes(State());
          main := None;
          main, journal := journal, None;
        }
        return r;
      }
    }
  }
}
