/**
  Upload chunks, the byte counters of the test directions and the snapshot history.
  The classes update fields as the program does; the transition system below them
  combines the same operations into whole runs.
 */
module UploadAccounting {

  const READ_CHUNK_SIZE := 1024
  const MAX_SNAPSHOT_SIZE := 10
  const FILLER: bv8 := 0xAA

  datatype DataType = EmptyChunk | DownloadChunk | UploadChunk

  /** Bytes that one Read hands out, given what remains and the caller's buffer. */
  function ReadSize(remain: int, buffer: nat): (n: nat)
    ensures n <= buffer && n <= READ_CHUNK_SIZE
    ensures remain <= 0 ==> n == 0
    ensures remain > 0 ==> n <= remain
    ensures remain > 0 && buffer > 0 ==> n > 0
    ensures remain > 0 ==> n == buffer || n == READ_CHUNK_SIZE || n == remain
  {
    if remain <= 0 then 0
    else Min(buffer, Min(remain, READ_CHUNK_SIZE))
  }

  function Min(a: int, b: int): int { if a < b then a else b }

  class TestDirection {
    var totalDataVolume: int

    constructor ()
      ensures totalDataVolume == 0
    {
      totalDataVolume := 0;
    }
  }

  class Snapshots<S> {
    var sp: seq<S>
    const maxSize: nat

    constructor (size: nat)
      ensures sp == [] && maxSize == size
    {
      sp, maxSize := [], size;
    }

    method Push(value: S)
      requires 1 <= maxSize && |sp| <= maxSize
      modifies this
      ensures |sp| <= maxSize
      ensures sp == Newest(old(sp) + [value], maxSize)
    {
      if |sp| == maxSize {
        sp := sp[1..];
      }
      sp := sp + [value];
    }
  }

  /** The last `size` elements. */
  function Newest<S>(s: seq<S>, size: nat): seq<S>
  {
    if |s| <= size then s else s[|s| - size..]
  }

  class DataManager {
    var upload: TestDirection
    var download: TestDirection
    var snapshot: seq<DataChunk>
    const store: Snapshots<seq<DataChunk>>

    constructor ()
      ensures fresh(upload) && fresh(download) && fresh(store)
      ensures upload.totalDataVolume == 0 && download.totalDataVolume == 0
      ensures snapshot == [] && store.sp == [] && store.maxSize == MAX_SNAPSHOT_SIZE
    {
      upload := new TestDirection();
      download := new TestDirection();
      store := new Snapshots(MAX_SNAPSHOT_SIZE);
      snapshot := [];
    }

    method NewChunk() returns (c: DataChunk)
      modifies this`snapshot
      ensures fresh(c) && c.manager == this && snapshot == old(snapshot) + [c]
      ensures c.dateType == EmptyChunk && c.contentLength == 0 && c.remain == 0 && !c.err
    {
      c := new DataChunk(this);
      snapshot := snapshot + [c];
    }

    /** The old snapshot goes to the history; both directions start over. */
    method Reset()
      requires 1 <= store.maxSize && |store.sp| <= store.maxSize
      modifies this, store
      ensures snapshot == [] && store.sp == Newest(old(store.sp) + [old(snapshot)], store.maxSize)
      ensures fresh(upload) && fresh(download)
      ensures upload.totalDataVolume == 0 && download.totalDataVolume == 0
    {
      store.Push(snapshot);
      snapshot := [];
      download := new TestDirection();
      upload := new TestDirection();
    }
  }

  class DataChunk {
    const manager: DataManager
    var dateType: DataType
    var err: bool
    var contentLength: int
    var remain: int

    constructor (manager: DataManager)
      ensures this.manager == manager && dateType == EmptyChunk && !err && contentLength == 0 && remain == 0
    {
      this.manager := manager;
      dateType, err, contentLength, remain := EmptyChunk, false, 0, 0;
    }

    /** A second call records an error and goes on; a size that is not positive panics. */
    method UploadHandler(size: int) returns (panicked: bool)
      modifies this
      ensures panicked <==> size <= 0
      ensures err == (old(err) || old(dateType) != EmptyChunk)
      ensures !panicked ==> contentLength == remain == size && dateType == UploadChunk
      ensures panicked ==> contentLength == old(contentLength) && remain == old(remain) && dateType == old(dateType)
    {
      if dateType != EmptyChunk {
        err := true;
      }
      if size <= 0 {
        return true;
      }
      contentLength := size;
      remain := size;
      dateType := UploadChunk;
      return false;
    }

    /** Fills the buffer, and credits the direction that is current at this moment. */
    method Read(b: array<bv8>) returns (n: nat, eof: bool)
      modifies b, this`remain, manager.upload
      ensures eof <==> old(remain) <= 0
      ensures n == ReadSize(old(remain), b.Length)
      ensures remain == old(remain) - n
      ensures manager.upload.totalDataVolume == old(manager.upload.totalDataVolume) + n
      ensures forall i :: 0 <= i < b.Length ==> b[i] == if i < n then FILLER else old(b[i])
    {
      var available := READ_CHUNK_SIZE;
      if remain < READ_CHUNK_SIZE {
        if remain <= 0 {
          return 0, true;
        }
        available := remain;
      }
      n := Copy(b, available);
      remain := remain - n;
      manager.upload.totalDataVolume := manager.upload.totalDataVolume + n;
      eof := false;
    }
  }

  /** `copy` from the repeated filler byte. */
  method Copy(b: array<bv8>, available: nat) returns (n: nat)
    modifies b
    ensures n == Min(b.Length, available)
    ensures forall i :: 0 <= i < b.Length ==> b[i] == if i < n then FILLER else old(b[i])
  {
    n := 0;
    while n < b.Length && n < available
      invariant 0 <= n <= b.Length && n <= available
      invariant forall i :: 0 <= i < b.Length ==> b[i] == if i < n then FILLER else old(b[i])
    {
      b[n] := FILLER;
      n := n + 1;
    }
  }

  // ---------------------------------------------------------------- whole runs

  /** A chunk with its history: bytes delivered, and bytes delivered before its last UploadHandler. */
  datatype Chunk = Chunk(contentLength: int, remain: int, delivered: nat, before: nat)

  /**
    Chunks and upload counters are numbered in order of creation; the last counter is
    the current one. `pushed` is every snapshot ever handed to the store.
   */
  datatype State = State(
    chunks: seq<Chunk>,
    counters: seq<int>,
    snapshot: seq<nat>,
    pushed: seq<seq<nat>>,
    store: seq<seq<nat>>)

  datatype Op = NewChunk | UploadHandler(c: nat, size: int) | Read(c: nat, buffer: nat) | Reset

  function Init(): State
  {
    State([], [0], [], [], [])
  }

  predicate Enabled(s: State, op: Op)
  {
    && |s.counters| > 0
    && match op
       case UploadHandler(c, size) => c < |s.chunks| && size > 0
       case Read(c, _) => c < |s.chunks|
       case _ => true
  }

  function Apply(s: State, op: Op): State
    requires Enabled(s, op)
  {
    match op
    case NewChunk =>
      s.(chunks := s.chunks + [Chunk(0, 0, 0, 0)], snapshot := s.snapshot + [|s.chunks|])
    case UploadHandler(c, size) =>
      s.(chunks := s.chunks[c := Chunk(size, size, s.chunks[c].delivered, s.chunks[c].delivered)])
    case Read(c, buffer) =>
      var k := s.chunks[c];
      var n := ReadSize(k.remain, buffer);
      var last := |s.counters| - 1;
      s.(chunks := s.chunks[c := k.(remain := k.remain - n, delivered := k.delivered + n)],
         counters := s.counters[last := s.counters[last] + n])
    case Reset =>
      var kept := if |s.store| == MAX_SNAPSHOT_SIZE then s.store[1..] else s.store;
      s.(counters := s.counters + [0], snapshot := [],
         pushed := s.pushed + [s.snapshot], store := kept + [s.snapshot])
  }

  predicate ValidRun(s: State, ops: seq<Op>)
    decreases |ops|
  {
    |ops| == 0 || (Enabled(s, ops[0]) && ValidRun(Apply(s, ops[0]), ops[1..]))
  }

  function Final(s: State, ops: seq<Op>): State
    requires ValidRun(s, ops)
    decreases |ops|
  {
    if |ops| == 0 then s else Final(Apply(s, ops[0]), ops[1..])
  }

  function SumOf(v: seq<int>): int
  {
    if |v| == 0 then 0 else v[0] + SumOf(v[1..])
  }

  function Delivered(chunks: seq<Chunk>): int
  {
    if |chunks| == 0 then 0 else chunks[0].delivered + Delivered(chunks[1..])
  }

  function Flatten(ss: seq<seq<nat>>): seq<nat>
  {
    if |ss| == 0 then [] else ss[0] + Flatten(ss[1..])
  }

  /** 0, 1, ..., n - 1 */
  function Upto(n: nat): seq<nat>
  {
    seq(n, i => i)
  }

  ghost predicate Inv(s: State)
  {
    && |s.counters| > 0
    && SumOf(s.counters) == Delivered(s.chunks)
    && (forall c :: 0 <= c < |s.chunks| ==>
          && 0 <= s.chunks[c].remain
          && s.chunks[c].delivered == s.chunks[c].before + s.chunks[c].contentLength - s.chunks[c].remain)
    && Flatten(s.pushed) + s.snapshot == Upto(|s.chunks|)
    && s.store == Newest(s.pushed, MAX_SNAPSHOT_SIZE)
  }

  lemma {:induction false} SumOfUpdate(v: seq<int>, i: nat, x: int)
    requires i < |v|
    ensures SumOf(v[i := x]) == SumOf(v) - v[i] + x
  {
    if i == 0 { assert v[i := x][1..] == v[1..]; }
    else { assert v[i := x][1..] == v[1..][i - 1 := x]; SumOfUpdate(v[1..], i - 1, x); }
  }

  lemma {:induction false} SumOfAppend(v: seq<int>, x: int)
    ensures SumOf(v + [x]) == SumOf(v) + x
  {
    if |v| == 0 { assert v + [x] == [x]; }
    else { assert (v + [x])[1..] == v[1..] + [x]; SumOfAppend(v[1..], x); }
  }

  lemma {:induction false} DeliveredUpdate(v: seq<Chunk>, i: nat, x: Chunk)
    requires i < |v|
    ensures Delivered(v[i := x]) == Delivered(v) - v[i].delivered + x.delivered
  {
    if i == 0 { assert v[i := x][1..] == v[1..]; }
    else { assert v[i := x][1..] == v[1..][i - 1 := x]; DeliveredUpdate(v[1..], i - 1, x); }
  }

  lemma {:induction false} DeliveredAppend(v: seq<Chunk>, x: Chunk)
    ensures Delivered(v + [x]) == Delivered(v) + x.delivered
  {
    if |v| == 0 { assert v + [x] == [x]; }
    else { assert (v + [x])[1..] == v[1..] + [x]; DeliveredAppend(v[1..], x); }
  }

  lemma {:induction false} FlattenAppend(ss: seq<seq<nat>>, s: seq<nat>)
    ensures Flatten(ss + [s]) == Flatten(ss) + s
  {
    if |ss| == 0 { assert ss + [s] == [s]; assert Flatten([s]) == s + Flatten([s][1..]); }
    else { assert (ss + [s])[1..] == ss[1..] + [s]; FlattenAppend(ss[1..], s); }
  }

  lemma NewChunkKeepsInv(s: State)
    requires Inv(s)
    ensures Inv(Apply(s, NewChunk))
  {
    DeliveredAppend(s.chunks, Chunk(0, 0, 0, 0));
    assert Flatten(s.pushed) + (s.snapshot + [|s.chunks|]) == (Flatten(s.pushed) + s.snapshot) + [|s.chunks|];
    assert Upto(|s.chunks| + 1) == Upto(|s.chunks|) + [|s.chunks|];
  }

  lemma ChunkOpKeepsInv(s: State, op: Op)
    requires Inv(s) && Enabled(s, op) && (op.Read? || op.UploadHandler?)
    ensures Inv(Apply(s, op))
  {
    var n := Apply(s, op);
    DeliveredUpdate(s.chunks, op.c, n.chunks[op.c]);
    if op.Read? { SumOfUpdate(s.counters, |s.counters| - 1, n.counters[|s.counters| - 1]); }
  }

  lemma ResetKeepsInv(s: State)
    requires Inv(s)
    ensures Inv(Apply(s, Reset))
  {
    SumOfAppend(s.counters, 0);
    FlattenAppend(s.pushed, s.snapshot);
    assert Flatten(s.pushed + [s.snapshot]) + [] == Flatten(s.pushed) + s.snapshot;
    assert Apply(s, Reset).store == Newest(s.pushed + [s.snapshot], MAX_SNAPSHOT_SIZE);
  }

  lemma StepKeepsInv(s: State, op: Op)
    requires Inv(s) && Enabled(s, op)
    ensures Inv(Apply(s, op))
  {
    match op
    case NewChunk => NewChunkKeepsInv(s);
    case UploadHandler(_, _) => ChunkOpKeepsInv(s, op);
    case Read(_, _) => ChunkOpKeepsInv(s, op);
    case Reset => ResetKeepsInv(s);
  }

  lemma {:induction false} RunKeepsInv(s: State, ops: seq<Op>)
    requires Inv(s) && ValidRun(s, ops)
    ensures Inv(Final(s, ops))
    decreases |ops|
  {
    if |ops| > 0 {
      StepKeepsInv(s, ops[0]);
      RunKeepsInv(Apply(s, ops[0]), ops[1..]);
    }
  }

  /** Byte conservation, snapshot placement and history, over every run. */
  lemma EveryRunBalances(ops: seq<Op>)
    requires ValidRun(Init(), ops)
    ensures var s := Final(Init(), ops);
            // counters, including those retired by Reset, add up to the bytes delivered
            && SumOf(s.counters) == Delivered(s.chunks)
            // every chunk is in one snapshot, once, in order of creation
            && Flatten(s.pushed) + s.snapshot == Upto(|s.chunks|)
            // the store is the ten newest snapshots in order
            && s.store == (if |s.pushed| <= 10 then s.pushed else s.pushed[|s.pushed| - 10..])
  {
    assert Inv(Init());
    RunKeepsInv(Init(), ops);
  }

  // ---------------------------------------------------------------- the objects follow the runs

  /** Chunks with the given numbers. */
  function Pick<C>(chunks: seq<C>, numbers: seq<nat>): seq<C>
    requires forall i :: 0 <= i < |numbers| ==> numbers[i] < |chunks|
  {
    seq(|numbers|, i requires 0 <= i < |numbers| => chunks[numbers[i]])
  }

  predicate Below(numbers: seq<nat>, n: nat)
  {
    forall i :: 0 <= i < |numbers| ==> numbers[i] < n
  }

  predicate AllBelow(ss: seq<seq<nat>>, n: nat)
  {
    forall k :: 0 <= k < |ss| ==> Below(ss[k], n)
  }

  /** The store holds the snapshots named by their chunk numbers. */
  ghost predicate Stored(sp: seq<seq<DataChunk>>, chunks: seq<DataChunk>, ss: seq<seq<nat>>)
  {
    && |sp| == |ss| && AllBelow(ss, |chunks|)
    && (forall k :: 0 <= k < |ss| ==> sp[k] == Pick(chunks, ss[k]))
  }

  ghost predicate ChunksAre(dm: DataManager, chunks: seq<DataChunk>, values: seq<Chunk>)
    reads chunks
  {
    && |chunks| == |values|
    && (forall i, j :: 0 <= i < j < |chunks| ==> chunks[i] != chunks[j])
    && (forall i :: 0 <= i < |chunks| ==>
          chunks[i].manager == dm && chunks[i].contentLength == values[i].contentLength &&
              chunks[i].remain == values[i].remain)
  }

  ghost predicate CountersAre(counters: seq<TestDirection>, values: seq<int>)
    reads counters
  {
    && |counters| == |values|
    && (forall i, j :: 0 <= i < j < |counters| ==> counters[i] != counters[j])
    && (forall i :: 0 <= i < |counters| ==> counters[i].totalDataVolume == values[i])
  }

  /** The objects are in state `s`; `counters` are the upload directions of all times. */
  ghost predicate Represents(dm: DataManager, chunks: seq<DataChunk>, counters: seq<TestDirection>, s: State)
    reads dm, dm.store, chunks, counters
  {
    && ChunksAre(dm, chunks, s.chunks)
    && CountersAre(counters, s.counters)
    && |counters| > 0 && dm.upload == counters[|counters| - 1]
    && Below(s.snapshot, |chunks|) && dm.snapshot == Pick(chunks, s.snapshot)
    && dm.store.maxSize == MAX_SNAPSHOT_SIZE && |s.store| <= MAX_SNAPSHOT_SIZE
    && Stored(dm.store.sp, chunks, s.store)
  }

  lemma PickMore(chunks: seq<DataChunk>, c: DataChunk, numbers: seq<nat>)
    requires Below(numbers, |chunks|)
    ensures Pick(chunks + [c], numbers) == Pick(chunks, numbers)
    ensures Pick(chunks + [c], numbers + [|chunks|]) == Pick(chunks, numbers) + [c]
  {
  }

  lemma StoredMore(sp: seq<seq<DataChunk>>, chunks: seq<DataChunk>, c: DataChunk, ss: seq<seq<nat>>)
    requires Stored(sp, chunks, ss)
    ensures Stored(sp, chunks + [c], ss)
  {
    forall k | 0 <= k < |ss| ensures Below(ss[k], |chunks| + 1) && sp[k] == Pick(chunks + [c], ss[k]) {
      PickMore(chunks, c, ss[k]);
    }
  }

  lemma StoredNewest(sp: seq<seq<DataChunk>>, chunks: seq<DataChunk>, ss: seq<seq<nat>>, numbers: seq<nat>)
    requires Stored(sp, chunks, ss) && Below(numbers, |chunks|) && |ss| <= MAX_SNAPSHOT_SIZE
    ensures var kept := if |ss| == MAX_SNAPSHOT_SIZE then ss[1..] else ss;
            Stored(Newest(sp + [Pick(chunks, numbers)], MAX_SNAPSHOT_SIZE), chunks, kept + [numbers])
  {
  }

  method RunNewChunk(dm: DataManager, chunks: seq<DataChunk>, ghost counters: seq<TestDirection>, ghost s: State)
    returns (more: seq<DataChunk>)
    requires Represents(dm, chunks, counters, s)
    modifies dm`snapshot
    ensures Represents(dm, more, counters, Apply(s, Op.NewChunk)) && |more| == |chunks| + 1 && chunks <= more
    ensures fresh(more[|chunks|])
  {
    var c := dm.NewChunk();
    PickMore(chunks, c, s.snapshot);
    StoredMore(dm.store.sp, chunks, c, s.store);
    more := chunks + [c];
  }

  method RunUploadHandler(
    dm: DataManager, chunks: seq<DataChunk>, ghost counters: seq<TestDirection>, ghost s: State, c: nat, size: int)
    requires Represents(dm, chunks, counters, s) && c < |chunks| && size > 0
    modifies chunks[c]
    ensures Represents(dm, chunks, counters, Apply(s, Op.UploadHandler(c, size)))
  {
    var panicked := chunks[c].UploadHandler(size);
  }

  method RunRead(
    dm: DataManager, chunks: seq<DataChunk>, ghost counters: seq<TestDirection>, ghost s: State, c: nat, buffer: nat)
    returns (n: nat, eof: bool)
    requires Represents(dm, chunks, counters, s) && c < |chunks|
    modifies chunks[c], dm.upload
    ensures Represents(dm, chunks, counters, Apply(s, Op.Read(c, buffer)))
    ensures n == Apply(s, Op.Read(c, buffer)).chunks[c].delivered - s.chunks[c].delivered
    ensures eof <==> s.chunks[c].remain <= 0
  {
    var b := new bv8[buffer];
    n, eof := chunks[c].Read(b);
  }

  method RunReset(dm: DataManager, chunks: seq<DataChunk>, ghost counters: seq<TestDirection>, ghost s: State)
    requires Represents(dm, chunks, counters, s)
    modifies dm, dm.store
    ensures Represents(dm, chunks, counters + [dm.upload], Apply(s, Op.Reset))
    ensures fresh(dm.upload)
  {
    StoredNewest(dm.store.sp, chunks, s.store, s.snapshot);
    dm.Reset();
  }

  /** One operation, carried out on the objects. */
  method Perform(
    dm: DataManager, chunks: seq<DataChunk>, ghost counters: seq<TestDirection>, ghost s: State, op: Op)
    returns (chunks': seq<DataChunk>, ghost counters': seq<TestDirection>)
    requires Represents(dm, chunks, counters, s) && Enabled(s, op)
    modifies dm, dm.store, dm.upload, chunks
    ensures Represents(dm, chunks', counters', Apply(s, op))
    ensures fresh({dm.upload} - {old(dm.upload)})
    ensures forall c :: c in chunks' ==> c in chunks || fresh(c)
  {
    chunks', counters' := chunks, counters;
    match op {
      case NewChunk => chunks' := RunNewChunk(dm, chunks, counters, s);
      case UploadHandler(c, size) => RunUploadHandler(dm, chunks, counters, s, c, size);
      case Read(c, buffer) => var n, eof := RunRead(dm, chunks, counters, s, c, buffer);
      case Reset =>
        RunReset(dm, chunks, counters, s);
        counters' := counters + [dm.upload];
    }
  }

  /** Any run of operations on fresh objects ends in the state of the transition system. */
  method Execute(ops: seq<Op>) returns (dm: DataManager, chunks: seq<DataChunk>, ghost counters: seq<TestDirection>)
    requires ValidRun(Init(), ops)
    ensures Represents(dm, chunks, counters, Final(Init(), ops))
  {
    dm := new DataManager();
    chunks := [];
    counters := [dm.upload];
    ghost var s := Init();
    var i := 0;
    assert ops[0..] == ops;
    while i < |ops|
      invariant 0 <= i <= |ops|
      invariant ValidRun(s, ops[i..]) && Final(s, ops[i..]) == Final(Init(), ops)
      invariant fresh(dm) && fresh(dm.store) && fresh(dm.upload) && fresh(chunks)
      invariant Represents(dm, chunks, counters, s)
    {
      assert ops[i..][0] == ops[i] && ops[i..][1..] == ops[i + 1..];
      chunks, counters := Perform(dm, chunks, counters, s, ops[i]);
      s := Apply(s, ops[i]);
      i := i + 1;
    }
  }

  // ---------------------------------------------------------------- end of file

  /** How many times a run calls UploadHandler on chunk `c`. */
  function Handlers(ops: seq<Op>, c: nat): nat
  {
    if |ops| == 0 then 0
    else (if ops[0].UploadHandler? && ops[0].c == c then 1 else 0) + Handlers(ops[1..], c)
  }

  lemma {:induction false} BeforeStaysZero(s: State, ops: seq<Op>, c: nat)
    requires ValidRun(s, ops) && Inv(s)
    requires c < |s.chunks| ==>
      s.chunks[c].before == 0 && (Handlers(ops, c) > 0 ==>
          s.chunks[c].delivered == 0 && Handlers(ops, c) == 1 && s.chunks[c].remain == 0)
    requires c >= |s.chunks| ==> Handlers(ops, c) <= 1
    ensures var f := Final(s, ops); c < |f.chunks| ==> f.chunks[c].before == 0
    decreases |ops|
  {
    if |ops| > 0 {
      StepKeepsInv(s, ops[0]);
      BeforeStaysZero(Apply(s, ops[0]), ops[1..], c);
    }
  }

  /** With one UploadHandler per chunk, a Read reports the end only after ContentLength bytes exactly. */
  lemma EofAfterExactlyContentLength(ops: seq<Op>, c: nat)
    requires ValidRun(Init(), ops) && Handlers(ops, c) <= 1
    requires c < |Final(Init(), ops).chunks|
    ensures var k := Final(Init(), ops).chunks[c];
            && k.delivered <= k.contentLength
            && (k.remain <= 0 <==> k.delivered == k.contentLength)
  {
    RunKeepsInv(Init(), ops);
    BeforeStaysZero(Init(), ops, c);
  }

  predicate Starts(op: Op, c: nat) { op.UploadHandler? && op.c == c }

  /** A read of `c` into a buffer with room. */
  predicate ReadsInto(op: Op, c: nat) { op.Read? && op.c == c && op.buffer > 0 }

  ghost predicate Started(ops: seq<Op>, c: nat)
  {
    exists j :: 0 <= j < |ops| && Starts(ops[j], c)
  }

  ghost predicate ReadAfterStart(ops: seq<Op>, c: nat)
  {
    exists j, k :: 0 <= j < k < |ops| && Starts(ops[j], c) && ReadsInto(ops[k], c)
  }

  /** The run starts the chunk, reads from it, and starts it again. */
  ghost predicate Restarted(ops: seq<Op>, c: nat)
  {
    exists j, k, i :: 0 <= j < k < i < |ops| && Starts(ops[j], c) && ReadsInto(ops[k], c) && Starts(ops[i], c)
  }

  lemma {:induction false} RunSnoc(s: State, ops: seq<Op>)
    requires |ops| > 0 && ValidRun(s, ops)
    ensures var front, last := ops[..|ops| - 1], ops[|ops| - 1];
            ValidRun(s, front) && Enabled(Final(s, front), last) && Final(s, ops) == Apply(Final(s, front), last)
    decreases |ops|
  {
    if |ops| > 1 {
      RunSnoc(Apply(s, ops[0]), ops[1..]);
      assert ops[1..][..|ops| - 2] == ops[..|ops| - 1][1..];
    }
  }

  lemma StartedSnoc(front: seq<Op>, last: Op, c: nat)
    ensures Started(front + [last], c) <==> Started(front, c) || Starts(last, c)
  {
    var ops := front + [last];
    assert ops[|front|] == last && forall j :: 0 <= j < |front| ==> ops[j] == front[j];
  }

  lemma ReadSnoc(front: seq<Op>, last: Op, c: nat)
    ensures ReadAfterStart(front + [last], c) <==> ReadAfterStart(front, c) || (Started(front, c) && ReadsInto(last, c))
  {
    var ops, n := front + [last], |front|;
    if j, k :| 0 <= j < k < |ops| && Starts(ops[j], c) && ReadsInto(ops[k], c) {
      assert ops[j] == front[j];
      if k < n { assert ops[k] == front[k]; }
    }
    if j, k :| 0 <= j < k < n && Starts(front[j], c) && ReadsInto(front[k], c) {
      assert ops[j] == front[j] && ops[k] == front[k];
    }
    if j :| 0 <= j < n && Starts(front[j], c) {
      assert ops[j] == front[j] && ops[n] == last;
    }
  }

  lemma RestartedSnoc(front: seq<Op>, last: Op, c: nat)
    ensures Restarted(front + [last], c) <==> Restarted(front, c) || (ReadAfterStart(front, c) && Starts(last, c))
  {
    if Restarted(front + [last], c) { RestartedBefore(front, last, c); }
    if Restarted(front, c) { RestartedStill(front, last, c); }
    if ReadAfterStart(front, c) && Starts(last, c) { RestartedNow(front, last, c); }
  }

  lemma RestartedBefore(front: seq<Op>, last: Op, c: nat)
    requires Restarted(front + [last], c)
    ensures Restarted(front, c) || (ReadAfterStart(front, c) && Starts(last, c))
  {
    var ops := front + [last];
    var j, k, i :| 0 <= j < k < i < |ops| && Starts(ops[j], c) && ReadsInto(ops[k], c) && Starts(ops[i], c);
    assert Starts(front[j], c) && ReadsInto(front[k], c);
    if i < |front| { assert Starts(front[i], c); } else { assert ops[i] == last; }
  }

  lemma RestartedStill(front: seq<Op>, last: Op, c: nat)
    requires Restarted(front, c)
    ensures Restarted(front + [last], c)
  {
    var ops := front + [last];
    var j, k, i :| 0 <= j < k < i < |front| && Starts(front[j], c) && ReadsInto(front[k], c) && Starts(front[i], c);
    assert ops[j] == front[j] && ops[k] == front[k] && ops[i] == front[i];
  }

  lemma RestartedNow(front: seq<Op>, last: Op, c: nat)
    requires ReadAfterStart(front, c) && Starts(last, c)
    ensures Restarted(front + [last], c)
  {
    var ops := front + [last];
    var j, k :| 0 <= j < k < |front| && Starts(front[j], c) && ReadsInto(front[k], c);
    assert ops[j] == front[j] && ops[k] == front[k] && ops[|front|] == last;
  }

  /** Whether a run has started chunk `c`, read from it since, and started it again. */
  datatype History = History(started: bool, read: bool, restarted: bool)

  function HistoryOf(ops: seq<Op>, c: nat): (h: History)
    ensures h.restarted ==> h.read
  {
    if |ops| == 0 then History(false, false, false)
    else
      var h, last := HistoryOf(ops[..|ops| - 1], c), ops[|ops| - 1];
      History(h.started || Starts(last, c), h.read || (h.started && ReadsInto(last, c)),
              h.restarted || (h.read && Starts(last, c)))
  }

  lemma {:induction false} HistoryMeans(ops: seq<Op>, c: nat)
    ensures HistoryOf(ops, c) == History(Started(ops, c), ReadAfterStart(ops, c), Restarted(ops, c))
  {
    if |ops| > 0 {
      var front, last := ops[..|ops| - 1], ops[|ops| - 1];
      HistoryMeans(front, c);
      StartedSnoc(front, last, c);
      ReadSnoc(front, last, c);
      RestartedSnoc(front, last, c);
      assert front + [last] == ops;
    }
  }

  /** What the fields of a chunk tell about its history. */
  ghost predicate Tells(s: State, c: nat, h: History)
  {
    if c < |s.chunks| then
      var k := s.chunks[c];
      (k.contentLength > 0 <==> h.started) && (k.delivered > 0 <==> h.read) && (k.before > 0 <==> h.restarted)
    else h == History(false, false, false)
  }

  lemma TellsStep(s: State, op: Op, c: nat, h: History)
    requires Inv(s) && Enabled(s, op) && Tells(s, c, h) && (h.restarted ==> h.read)
    ensures Tells(Apply(s, op), c,
                  History(h.started || Starts(op, c), h.read || (h.started && ReadsInto(op, c)),
                          h.restarted || (h.read && Starts(op, c))))
  {
    var n := Apply(s, op);
    if c < |s.chunks| {
      var k := s.chunks[c];
      assert 0 <= k.remain && k.delivered == k.before + k.contentLength - k.remain;
    } else if c < |n.chunks| {
      assert n.chunks[c] == Chunk(0, 0, 0, 0);
    }
  }

  lemma {:induction false} RunTells(ops: seq<Op>, c: nat)
    requires ValidRun(Init(), ops)
    ensures Tells(Final(Init(), ops), c, HistoryOf(ops, c))
  {
    if |ops| > 0 {
      var front, last := ops[..|ops| - 1], ops[|ops| - 1];
      RunSnoc(Init(), ops);
      RunTells(front, c);
      RunKeepsInv(Init(), front);
      TellsStep(Final(Init(), front), last, c, HistoryOf(front, c));
    }
  }

  /** When a chunk reports its end the total is its length exactly if it was not restarted after a read. */
  lemma EofExactIff(ops: seq<Op>, c: nat)
    requires ValidRun(Init(), ops)
    requires c < |Final(Init(), ops).chunks| && Final(Init(), ops).chunks[c].remain <= 0
    ensures var k := Final(Init(), ops).chunks[c]; k.delivered == k.contentLength <==> !Restarted(ops, c)
  {
    RunKeepsInv(Init(), ops);
    RunTells(ops, c);
    HistoryMeans(ops, c);
  }

  /** A second UploadHandler after a partial read: the chunk ends after 15 bytes of a 10 byte body. */
  lemma SecondHandlerOverdelivers()
    ensures var ops := [NewChunk, UploadHandler(0, 10), Read(0, 5), UploadHandler(0, 10), Read(0, 64)];
            && ValidRun(Init(), ops)
            && var k := Final(Init(), ops).chunks[0]; k.remain == 0 && k.contentLength == 10 && k.delivered == 15
  {
    var s1 := Apply(Init(), NewChunk);
    var s2 := Apply(s1, UploadHandler(0, 10));
    var s3 := Apply(s2, Read(0, 5));
    var s4 := Apply(s3, UploadHandler(0, 10));
    var s5 := Apply(s4, Read(0, 64));
    assert s5.chunks[0] == Chunk(10, 0, 15, 5);
    ConsRun(s4, Read(0, 64), []);
    ConsRun(s3, UploadHandler(0, 10), [Read(0, 64)]);
    ConsRun(s2, Read(0, 5), [UploadHandler(0, 10), Read(0, 64)]);
    ConsRun(s1, UploadHandler(0, 10), [Read(0, 5), UploadHandler(0, 10), Read(0, 64)]);
    ConsRun(Init(), NewChunk, [UploadHandler(0, 10), Read(0, 5), UploadHandler(0, 10), Read(0, 64)]);
  }

  lemma ConsRun(s: State, op: Op, ops: seq<Op>)
    requires Enabled(s, op) && ValidRun(Apply(s, op), ops)
    ensures ValidRun(s, [op] + ops) && Final(s, [op] + ops) == Final(Apply(s, op), ops)
  {
    assert ([op] + ops)[1..] == ops;
  }
}
