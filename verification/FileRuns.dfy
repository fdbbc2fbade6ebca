/** Whole runs of calls on regular files. */
module FileRuns {
  import opened Base
  import opened Indirect
  import opened ZoneMap
  import opened Geometry
  import opened Files
  import opened FileZones
  import opened FileData
  import opened FileCalls
  import opened Truncate

  /** A file that shows its contents can be truncated: all its zones start below its size. */
  lemma TruncateReady(kind: Kind, per: nat, store: Store, ino: seq<Inode>, i: nat, c: seq<byte>)
    requires per > 0 && i < |ino| && FileOk(kind, per, store, ino, i, c) && ino[i].size == |c|
    ensures StartsBelow(kind, per, store, ino, i) && SizeInMap(kind, per, ino, i)
  {
    var zs := BLOCK_SIZE * per;
    SizeInRange(kind, per, |c|);
    forall p | IsData(p) && PtrOk(kind, p) && ZoneOf(kind, store, ino, Slot(i, p)) != 0
      ensures KeyOf(kind, p) * zs < ino[i].size {
      var k := KeyOf(kind, p);
      KeyBelow(kind, p);
      FirstBlock(per, k);
      NamesOne(kind, p, PtrFor(kind, k), k);
    }
  }

  lemma KeyBelow(kind: Kind, p: Ptr)
    requires IsData(p) && PtrOk(kind, p)
    ensures KeyOf(kind, p) < MaxZones(kind)
  {
  }

  /** The first block of zone k. */
  lemma FirstBlock(per: nat, k: nat)
    requires per > 0
    ensures var n := k * per; ZoneIx(per, n) == k && Boff(per, n) == 0 && n * BLOCK_SIZE == k * (BLOCK_SIZE * per)
  {
    PosDiv(per, k * per);
    DivUnique(per, k * per, k, 0);
  }

  lemma SizeInRange(kind: Kind, per: nat, size: nat)
    requires per > 0 && Fits(kind, per, size)
    ensures size <= MaxZones(kind) * (BLOCK_SIZE * per)
  {
    FirstBlock(per, MaxZones(kind));
    assert ZoneIx(per, MaxZones(kind) * per) >= MaxZones(kind);
  }

  /** After truncate and wipe_inode the file is empty and the others show what they did. */
  lemma EmptyOk(kind: Kind, per: nat, store: Store, ino0: seq<Inode>, ino1: seq<Inode>, i: nat)
    requires per > 0 && Emptied(kind, store, ino0, ino1, i)
    ensures FileOk(kind, per, store, ino1, i, []) && ino1[i].size == 0
    ensures forall j :: 0 <= j < |ino0| && j != i ==> SameFile(kind, per, store, ino0, store, ino1, j)
  {
    forall j | 0 <= j < |ino0| && j != i ensures SameFile(kind, per, store, ino0, store, ino1, j) {
      EmptiedOther(kind, per, store, ino0, ino1, i, j);
    }
    forall n: nat | ZoneIx(per, n) < MaxZones(kind)
      ensures ZoneOf(kind, store, ino1, Slot(i, PtrFor(kind, ZoneIx(per, n)))) == 0 {
      assert SlotOk(kind, ino0, Slot(i, PtrFor(kind, ZoneIx(per, n))));
    }
  }

  lemma EmptiedOther(kind: Kind, per: nat, store: Store, ino0: seq<Inode>, ino1: seq<Inode>, i: nat, j: nat)
    requires per > 0 && Emptied(kind, store, ino0, ino1, i) && j < |ino0| && j != i
    ensures SameFile(kind, per, store, ino0, store, ino1, j)
  {
    forall n: nat | ZoneIx(per, n) < MaxZones(kind)
      ensures ZoneOf(kind, store, ino1, Slot(j, PtrFor(kind, ZoneIx(per, n))))
        == ZoneOf(kind, store, ino0, Slot(j, PtrFor(kind, ZoneIx(per, n))))
    {
      assert SlotOk(kind, ino0, Slot(j, PtrFor(kind, ZoneIx(per, n))));
    }
  }

  // ---------- runs ----------

  datatype Call = WriteCall(i: nat, pos: nat, data: seq<byte>, append: bool) | ReadCall(i: nat, pos: nat,
                            n: nat) | EmptyCall(i: nat)

  datatype Error = EFBIG | ENOSPC

  /**
   What a call does: the error that its caller is told of, the number of bytes
   written, and the bytes read.  Where there is no error the caller is told the
   number; a write that runs out of space reports the error alone, whatever it
   has written by then.
   */
  datatype Outcome = Outcome(error: Option<Error>, n: nat, bytes: seq<byte>)

  /** A file: its bytes, and whether it may end in a hole inside a zone. */
  datatype File = File(c: seq<byte>, hole: bool)

  type Contents = seq<File>

  /** The write goes as far as the size check. */
  predicate Goes(call: Call, max: nat)
    requires call.WriteCall?
  {
    call.data != [] && !TooFar(call.pos, |call.data|, max)
  }

  /** The file exists, and a write that passes the size check stays within the range of the zone map. */
  ghost predicate Legal(kind: Kind, per: nat, call: Call, files: Contents, max: nat)
    requires per > 0
  {
    && call.i < |files|
    && (call.WriteCall? && Goes(call, max) ==>
      Fits(kind, per, StartOf(call.pos, call.append, |files[call.i].c|) + |call.data|))
  }

  /** The file after n bytes of the data, laid over the bytes b. */
  function Written(f: File, b: seq<byte>, p: nat, data: seq<byte>, n: nat): File
    requires n <= |data|
  {
    File(After(b, p, data, n), HoleAfter(f.hole, |f.c|, p, n))
  }

  /** What a write is laid over: what the file holds, unless it begins where the file ends in a hole. */
  predicate Underneath(f: File, b: seq<byte>, p: nat, n: nat) {
    |b| == |f.c| && (b == f.c || (f.hole && p == |f.c| && n > 0))
  }

  /** One call on byte arrays. */
  ghost predicate Happens(files: Contents, call: Call, max: nat, o: Outcome, files1: Contents) {
    && call.i < |files|
    && match call
       case WriteCall(i, pos, data, append) =>
         o.bytes == [] &&
         if !Goes(call, max) then o.error == (if data == [] then None else Some(EFBIG)) && o.n == 0 && files1 == files
         else
           var p := StartOf(pos, append, |files[i].c|);
           o.n <= |data| && o.error == (if o.n < |data| then Some(Error.ENOSPC) else None) && exists b ::
             Underneath(files[i], b, p, o.n) && files1 == files[i := Written(files[i], b, p, data, o.n)]
       case ReadCall(i, pos, n) => o == Outcome(None, 0, BytesFrom(files[i].c, pos, n)) && files1 == files
       case EmptyCall(i) => o == Outcome(None, 0, []) && files1 == files[i := File([], false)]
  }

  function BytesFrom(c: seq<byte>, pos: nat, n: nat): seq<byte> {
    if pos >= |c| then [] else if pos + n <= |c| then c[pos..pos + n] else c[pos..]
  }

  /** Every file shows its contents. */
  ghost predicate AllFiles(kind: Kind, per: nat, store: Store, ino: seq<Inode>, files: Contents)
    requires per > 0
  {
    |files| == |ino| && forall i :: 0 <= i < |files| ==> GoodFile(kind, per, store, ino, i, files[i])
  }

  ghost predicate GoodFile(kind: Kind, per: nat, store: Store, ino: seq<Inode>, i: nat, f: File)
    requires per > 0
  {
    // "true ==" makes this one fact to prove, not one for each part.
    true == (i < |ino| && FileOk(kind, per, store, ino, i, f.c) && ino[i].size == |f.c|
      && (TailHole(kind, per, store, ino, i, |f.c|) ==> f.hole))
  }

  lemma GoodSame(kind: Kind, per: nat, store0: Store, ino0: seq<Inode>, store1: Store, ino1: seq<Inode>, j: nat,
                 f: File)
    requires per > 0 && GoodFile(kind, per, store0, ino0, j, f) && SameFile(kind, per, store0, ino0, store1, ino1, j)
    requires |ino1| == |ino0| && ino1[j].size == ino0[j].size
    ensures GoodFile(kind, per, store1, ino1, j, f)
  {
    SameFileOk(kind, per, store0, ino0, store1, ino1, j, f.c);
    var n := |f.c| / BLOCK_SIZE;
    if ZoneIx(per, n) < MaxZones(kind) {
      assert ZoneOf(kind, store1, ino1, Slot(j, PtrFor(kind, ZoneIx(per, n))))
        == ZoneOf(kind, store0, ino0, Slot(j, PtrFor(kind, ZoneIx(per, n))));
    }
  }

  lemma AllButOne(kind: Kind, per: nat, store0: Store, ino0: seq<Inode>, store1: Store, ino1: seq<Inode>,
                  files: Contents, i: nat, f: File)
    requires per > 0 && AllFiles(kind, per, store0, ino0, files) && i < |files|
      && GoodFile(kind, per, store1, ino1, i, f)
    requires |ino1| == |ino0| && forall j :: 0 <= j < |ino0| && j != i ==> ino1[j].size == ino0[j].size
    requires forall j :: 0 <= j < |ino0| && j != i ==> SameFile(kind, per, store0, ino0, store1, ino1, j)
    ensures AllFiles(kind, per, store1, ino1, files[i := f])
  {
    forall j | 0 <= j < |files| && j != i ensures GoodFile(kind, per, store1, ino1, j, files[j]) {
      GoodSame(kind, per, store0, ino0, store1, ino1, j, files[j]);
    }
  }

  lemma EmptyGood(kind: Kind, per: nat, store: Store, ino0: seq<Inode>, ino1: seq<Inode>, i: nat, files: Contents)
    requires per > 0 && AllFiles(kind, per, store, ino0, files) && Emptied(kind, store, ino0, ino1, i)
    ensures AllFiles(kind, per, store, ino1, files[i := File([], false)])
  {
    EmptyOk(kind, per, store, ino0, ino1, i);
    AllButOne(kind, per, store, ino0, store, ino1, files, i, File([], false));
  }

  /** A write, complete or cut short, on a file with the bytes b underneath. */
  lemma WriteGood(kind: Kind, per: nat, store0: Store, ino0: seq<Inode>, store1: Store, ino1: seq<Inode>,
                  files: Contents, i: nat, p: nat, b: seq<byte>, data: seq<byte>, n: nat)
    requires per > 0 && AllFiles(kind, per, store0, ino0, files) && i < |files| && |b| == |files[i].c| && n <= |data|
    requires WriteDone(kind, per, store0, ino0, store1, ino1, i, p, b, data, n)
    requires TailHole(kind, per, store1, ino1, i, ino1[i].size) ==>
      HoleAfter(TailHole(kind, per, store0, ino0, i, |files[i].c|), |files[i].c|, p, n)
    ensures AllFiles(kind, per, store1, ino1, files[i := Written(files[i], b, p, data, n)])
  {
    assert GoodFile(kind, per, store0, ino0, i, files[i]);
    AllButOne(kind, per, store0, ino0, store1, ino1, files, i, Written(files[i], b, p, data, n));
  }

  /** Only a hole at the end of the file is written over anything but the contents. */
  lemma FoundUnder(kind: Kind, per: nat, store: Store, ino: seq<Inode>, i: nat, f: File, p: nat, z: nat, n: nat)
    requires per > 0 && GoodFile(kind, per, store, ino, i, f)
    ensures Underneath(f, Ground(f.c, Found(kind, per, store, ino, i, f.c, p, z), n), p, n)
  {
    if p == |f.c| && Boff(per, p / BLOCK_SIZE) == 0 { NoEarlier(per, store, z, f.c, p); }
  }

  /** One call. */
  method Step(fs: Fs, call: Call, max: nat, ghost files: Contents) returns (o: Outcome, ghost files1: Contents)
    requires fs.Valid() && AllFiles(fs.kind, fs.per, fs.store, fs.ino, files)
      && Legal(fs.kind, fs.per, call, files, max)
    modifies fs`store, fs`ino, fs`owner, fs.sp`zsearch, fs.sp.zoneMap
    ensures fs.Valid() && AllFiles(fs.kind, fs.per, fs.store, fs.ino, files1) && Happens(files, call, max, o, files1)
    ensures o.error == Some(Error.ENOSPC) ==> Crowded(fs.sp)
  {
    assert GoodFile(fs.kind, fs.per, fs.store, fs.ino, call.i, files[call.i]);
    match call {
      case WriteCall(i, pos, data, append) =>
        o, files1 := WriteFile(fs, i, pos, data, append, max, files);
      case ReadCall(i, pos, n) =>
        var bytes := Read(fs, i, pos, n, files[i].c);
        o, files1 := Outcome(None, 0, bytes), files;
      case EmptyCall(i) =>
        EmptyFile(fs, i, files);
        o, files1 := Outcome(None, 0, []), files[i := File([], false)];
    }
  }

  method EmptyFile(fs: Fs, i: nat, ghost files: Contents)
    requires fs.Valid() && AllFiles(fs.kind, fs.per, fs.store, fs.ino, files) && i < |files|
    modifies fs`ino, fs`owner, fs.sp`zsearch, fs.sp.zoneMap
    ensures fs.Valid() && AllFiles(fs.kind, fs.per, fs.store, fs.ino, files[i := File([], false)])
  {
    assert GoodFile(fs.kind, fs.per, fs.store, fs.ino, i, files[i]);
    TruncateReady(fs.kind, fs.per, fs.store, fs.ino, i, files[i].c);
    ghost var ino0 := fs.ino;
    var panicked := Empty(fs, i);
    EmptyGood(fs.kind, fs.per, fs.store, ino0, fs.ino, i, files);
  }

  method WriteFile(fs: Fs, i: nat, pos: nat, data: seq<byte>, append: bool, max: nat, ghost files: Contents)
      returns (o: Outcome, ghost files1: Contents)
    requires fs.Valid() && AllFiles(fs.kind, fs.per, fs.store, fs.ino, files)
      && Legal(fs.kind, fs.per, WriteCall(i, pos, data, append), files, max)
    modifies fs`store, fs`ino, fs`owner, fs.sp`zsearch, fs.sp.zoneMap
    ensures fs.Valid() && AllFiles(fs.kind, fs.per, fs.store, fs.ino, files1)
    ensures Happens(files, WriteCall(i, pos, data, append), max, o, files1)
    ensures o.error == Some(Error.ENOSPC) ==> Crowded(fs.sp)
  {
    ghost var store0, ino0, z := fs.store, fs.ino, fs.NextFor(i);
    assert GoodFile(fs.kind, fs.per, fs.store, fs.ino, i, files[i]);
    var r := Write(fs, i, pos, data, append, max, files[i].c);
    if r == TooBig { return Outcome(Some(EFBIG), 0, []), files; }
    var n := r.n;
    o, files1 := Outcome(if r.full then Some(Error.ENOSPC) else None, n, []), files;
    if data != [] {
      ghost var p := StartOf(pos, append, |files[i].c|);
      ghost var b := Ground(files[i].c, Found(fs.kind, fs.per, store0, ino0, i, files[i].c, p, z), n);
      FoundUnder(fs.kind, fs.per, store0, ino0, i, files[i], p, z, n);
      WriteGood(fs.kind, fs.per, store0, ino0, fs.store, fs.ino, files, i, p, b, data, n);
      files1 := files[i := Written(files[i], b, p, data, n)];
    }
  }

  /**
   The calls of a run, with what each told its caller, take the files from the first contents of the
   trace to the last.
   */
  ghost predicate Explained(calls: seq<Call>, max: nat, got: seq<Outcome>, trace: seq<Contents>) {
    && |got| == |calls| && |trace| == |calls| + 1
    && forall k :: 0 <= k < |calls| ==> Happens(trace[k], calls[k], max, got[k], trace[k + 1])
  }

  /** However the calls turn out, each is within the range of the zone map. */
  ghost predicate AllLegal(kind: Kind, per: nat, files: Contents, calls: seq<Call>, max: nat)
    requires per > 0
    decreases |calls|
  {
    calls == [] || (
      && Legal(kind, per, calls[0], files, max)
      && forall o, files1 :: Happens(files, calls[0], max, o, files1) ==> AllLegal(kind, per, files1, calls[1..], max))
  }

  lemma OneMoreCall(calls: seq<Call>, max: nat, got: seq<Outcome>, trace: seq<Contents>, files: Contents, o: Outcome)
    requires calls != [] && Explained(calls[1..], max, got, trace) && Happens(files, calls[0], max, o, trace[0])
    ensures Explained(calls, max, [o] + got, [files] + trace)
  {
    var got1, trace1 := [o] + got, [files] + trace;
    forall k | 0 <= k < |calls| ensures Happens(trace1[k], calls[k], max, got1[k], trace1[k + 1]) {
      if k > 0 { assert Happens(trace[k - 1], calls[1..][k - 1], max, got[k - 1], trace[k]); }
    }
  }

  lemma FirstLegal(kind: Kind, per: nat, files: Contents, calls: seq<Call>, max: nat)
    requires per > 0 && calls != [] && AllLegal(kind, per, files, calls, max)
    ensures Legal(kind, per, calls[0], files, max)
  {
  }

  lemma RestLegal(kind: Kind, per: nat, files: Contents, calls: seq<Call>, max: nat, o: Outcome, files1: Contents)
    requires per > 0 && calls != [] && AllLegal(kind, per, files, calls, max)
      && Happens(files, calls[0], max, o, files1)
    ensures AllLegal(kind, per, files1, calls[1..], max)
  {
  }

  /** Every run of calls reads and leaves what byte arrays would, also after writes that ran out of space. */
  method Run(fs: Fs, calls: seq<Call>, max: nat, ghost files: Contents)
      returns (got: seq<Outcome>, ghost trace: seq<Contents>)
    requires fs.Valid() && AllFiles(fs.kind, fs.per, fs.store, fs.ino, files)
      && AllLegal(fs.kind, fs.per, files, calls, max)
    modifies fs`store, fs`ino, fs`owner, fs.sp`zsearch, fs.sp.zoneMap
    ensures fs.Valid() && Explained(calls, max, got, trace) && trace[0] == files
    ensures AllFiles(fs.kind, fs.per, fs.store, fs.ino, trace[|calls|])
    decreases |calls|
  {
    if calls == [] { return [], [files]; }
    var o;
    ghost var files1;
    FirstLegal(fs.kind, fs.per, files, calls, max);
    o, files1 := Step(fs, calls[0], max, files);
    RestLegal(fs.kind, fs.per, files, calls, max, o, files1);
    got, trace := Run(fs, calls[1..], max, files1);
    OneMoreCall(calls, max, got, trace, files, o);
    got, trace := [o] + got, [files] + trace;
  }

  // ---------- runs without a write at a hole ----------

  /** The write begins at the end of a file that may end in a hole inside a zone. */
  predicate AtHole(files: Contents, call: Call, max: nat)
    requires call.i < |files|
  {
    call.WriteCall? && Goes(call, max) && files[call.i].hole
      && StartOf(call.pos, call.append, |files[call.i].c|) == |files[call.i].c|
  }

  /** The same call on byte arrays whose unwritten bytes are zero, when it writes n bytes. */
  function Next(files: Contents, call: Call, max: nat, n: nat): Contents
    requires call.i < |files| && (call.WriteCall? ==> n <= |call.data|)
  {
    match call
    case WriteCall(i, pos, data, append) =>
      if !Goes(call, max) then files
      else files[i := Written(files[i], files[i].c, StartOf(pos, append, |files[i].c|), data, n)]
    case ReadCall(_, _, _) => files
    case EmptyCall(i) => files[i := File([], false)]
  }

  /** Unless it writes at a hole, what a call does is determined by the bytes it writes. */
  lemma Determined(files: Contents, call: Call, max: nat, o: Outcome, files1: Contents)
    requires Happens(files, call, max, o, files1) && (AtHole(files, call, max) ==> o.n == 0)
    ensures call.WriteCall? ==> o.n <= |call.data|
    ensures files1 == Next(files, call, max, o.n)
  {
  }

  ghost predicate NoHoles(files: Contents) {
    forall i :: 0 <= i < |files| ==> !files[i].hole
  }

  /** No write runs out of space. */
  ghost predicate Complete(got: seq<Outcome>) {
    forall k :: 0 <= k < |got| ==> got[k].error != Some(Error.ENOSPC)
  }

  lemma {:induction false} StaysWhole(calls: seq<Call>, max: nat, got: seq<Outcome>, trace: seq<Contents>, k: nat)
    requires Explained(calls, max, got, trace) && Complete(got) && NoHoles(trace[0]) && k <= |calls|
    ensures NoHoles(trace[k])
  {
    if k > 0 {
      StaysWhole(calls, max, got, trace, k - 1);
      assert Happens(trace[k - 1], calls[k - 1], max, got[k - 1], trace[k - 1 + 1]);
    }
  }

  /** As long as no call reports a lack of space, a run is that of byte arrays whose unwritten bytes are zero. */
  lemma {:induction false} FullRun(calls: seq<Call>, max: nat, got: seq<Outcome>, trace: seq<Contents>, k: nat)
    requires Explained(calls, max, got, trace) && Complete(got) && NoHoles(trace[0]) && k < |calls|
    ensures calls[k].i < |trace[k]| && (calls[k].WriteCall? ==> got[k].n <= |calls[k].data|)
    ensures trace[k + 1] == Next(trace[k], calls[k], max, got[k].n)
  {
    StaysWhole(calls, max, got, trace, k);
    assert Happens(trace[k], calls[k], max, got[k], trace[k + 1]);
    Determined(trace[k], calls[k], max, got[k], trace[k + 1]);
  }
}
