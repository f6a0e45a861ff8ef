/** The engine as a state machine over values.

    Three orders of recency meet here.  `get` takes the first table in list position, iterators and
    compaction take the highest sequence number, and a reopened engine takes the highest file number.
    The lemmas of the next modules say when the three answer alike, and that they then answer as a
    finite map does. */
module EngineSpec {
  import opened ByteStrings
  import opened Entries

  type Table = map<Bytes, TableValue>

  /** An open SSTable: its file number, the sequence number `Open` was given, its contents. */
  datatype Reader = Reader(file: nat, sequence: nat, table: Table)

  /** A table file on disk: with its footer, or one `Open` rejects. */
  datatype SstFile = Partial | Complete(table: Table)

  datatype Record = PutRecord(key: Bytes, value: Bytes) | EraseRecord(key: Bytes)

  datatype Disk = Disk(ssts: map<nat, SstFile>, wals: map<nat, seq<Record>>)

  /** How far a compaction has got.  `removed` counts the inputs already deleted, newest first. */
  datatype Job<+T> =
    | Idle
    | Snapped(inputs: seq<T>)
    | Numbered(inputs: seq<T>, file: nat)
    | Built(inputs: seq<T>, file: nat)
    | Removing(inputs: seq<T>, file: nat, removed: nat)

  datatype State = State(mem: Table, readers: seq<Reader>, counter: nat, wal: nat, disk: Disk, job: Job<Reader>)

  // ----- lookups -----

  function Live(v: TableValue): Option<Bytes> {
    if v.kind.Value? then Some(v.value) else None
  }

  /** By list position. */
  function First(readers: seq<Reader>, key: Bytes): (r: Option<Reader>)
    ensures r.Some? ==> r.value in readers && key in r.value.table
    ensures r.None? ==> forall i :: 0 <= i < |readers| ==> key !in readers[i].table
  {
    if readers == [] then None
    else if key in readers[0].table then Some(readers[0])
    else First(readers[1..], key)
  }

  /** By sequence number. */
  function Latest(readers: seq<Reader>, key: Bytes): (r: Option<Reader>)
    ensures r.Some? ==> r.value in readers && key in r.value.table
    ensures r.Some? ==> forall i :: 0 <= i < |readers| && key in readers[i].table ==> readers[i].sequence <= r.value.sequence
    ensures r.None? ==> forall i :: 0 <= i < |readers| ==> key !in readers[i].table
  {
    if readers == [] then None
    else
      var rest := Latest(readers[1..], key);
      if key in readers[0].table && (rest.None? || readers[0].sequence >= rest.value.sequence) then Some(readers[0])
      else rest
  }

  function Answer(mem: Table, r: Option<Reader>, key: Bytes): Option<Bytes>
    requires r.Some? ==> key in r.value.table
  {
    if key in mem then Live(mem[key])
    else if r.Some? then Live(r.value.table[key])
    else None
  }

  /** What `get` returns. */
  function Get(s: State, key: Bytes): Option<Bytes> {
    Answer(s.mem, First(s.readers, key), key)
  }

  /** Some version of the key is held, a tombstone perhaps. */
  predicate Stored(s: State, key: Bytes) {
    key in s.mem || Latest(s.readers, key).Some?
  }

  /** What a scan of `NewIterator` shows, tombstones removed. */
  function View(s: State, key: Bytes): Option<Bytes> {
    Answer(s.mem, Latest(s.readers, key), key)
  }

  // ----- writing -----

  function Apply(mem: Table, r: Record): Table {
    match r
    case PutRecord(k, v) => mem[k := TableValue(Value, v)]
    case EraseRecord(k) => mem[k := TableValue(Deletion, [])]
  }

  function Replay(mem: Table, log: seq<Record>): Table {
    if log == [] then mem else Apply(Replay(mem, log[..|log| - 1]), log[|log| - 1])
  }

  /** Log first, then the memtable. */
  function Log(s: State, r: Record): State
    requires s.wal in s.disk.wals
  {
    s.(mem := Apply(s.mem, r),
       disk := s.disk.(wals := s.disk.wals[s.wal := s.disk.wals[s.wal] + [r]]))
  }

  /** The disk after each step of a flush: the table file exists without its footer; it is complete;
      the next log exists; the old log is gone. */
  function FlushDisk(s: State, step: nat): Disk {
    var n := s.counter + 1;
    var ssts := s.disk.ssts[n := if step <= 1 then Partial else Complete(s.mem)];
    var wals := if step <= 2 then s.disk.wals else Touch(s.disk.wals, n + 1);
    if step == 0 then s.disk
    else if step <= 3 then Disk(ssts, wals)
    else Disk(ssts, wals - {s.wal})
  }

  /** Opening a log for appending creates it if it is missing. */
  function Touch(wals: map<nat, seq<Record>>, n: nat): map<nat, seq<Record>> {
    if n in wals then wals else wals[n := []]
  }

  function Flush(s: State): State {
    if s.mem == map[] then s
    else
      var n := s.counter + 1;
      State(map[], [Reader(n, n, s.mem)] + s.readers, n, n + 1, FlushDisk(s, 4), s.job)
  }

  function Put(s: State, key: Bytes, value: Bytes, maxMemNodes: nat): State
    requires s.wal in s.disk.wals
  {
    var t := Log(s, PutRecord(key, value));
    if |t.mem| >= maxMemNodes then Flush(t) else t
  }

  function Erase(s: State, key: Bytes): State
    requires s.wal in s.disk.wals
  {
    Log(s, EraseRecord(key))
  }

  // ----- compaction, one lock phase at a time -----

  function Keys(readers: seq<Reader>): set<Bytes> {
    if readers == [] then {} else readers[0].table.Keys + Keys(readers[1..])
  }

  lemma {:induction false} KeysAre(readers: seq<Reader>, key: Bytes)
    ensures key in Keys(readers) <==> Latest(readers, key).Some?
  {
    if readers != [] { KeysAre(readers[1..], key); }
  }

  /** The newest version of every key, keys whose newest version is a tombstone dropped. */
  function Compacted(inputs: seq<Reader>): Table {
    map key | key in Keys(inputs) && Latest(inputs, key).Some? && Latest(inputs, key).value.table[key].kind.Value?
      :: Latest(inputs, key).value.table[key]
  }

  function Snapshot(s: State): State {
    if s.job.Idle? && |s.readers| > 1 then s.(job := Snapped(s.readers)) else s
  }

  function Number(s: State): State
    requires s.job.Snapped?
  {
    var n := s.counter + 1;
    s.(counter := n, disk := s.disk.(ssts := s.disk.ssts[n := Partial]), job := Numbered(s.job.inputs, n))
  }

  /** A merge that leaves nothing writes no footer, and the compaction gives up. */
  function Merge(s: State): State
    requires s.job.Numbered?
  {
    var t := Compacted(s.job.inputs);
    if t == map[] then s.(job := Idle)
    else s.(disk := s.disk.(ssts := s.disk.ssts[s.job.file := Complete(t)]), job := Built(s.job.inputs, s.job.file))
  }

  function Without(readers: seq<Reader>, files: set<nat>): seq<Reader> {
    if readers == [] then []
    else (if readers[0].file in files then [] else [readers[0]]) + Without(readers[1..], files)
  }

  function Files(readers: seq<Reader>): set<nat> {
    set r | r in readers :: r.file
  }

  /** The new table goes to the front with sequence number 0; the inputs leave. */
  function Swap(s: State): State
    requires s.job.Built?
  {
    s.(readers := [Reader(s.job.file, 0, Compacted(s.job.inputs))] + Without(s.readers, Files(s.job.inputs)),
       job := Removing(s.job.inputs, s.job.file, 0))
  }

  function Remove(s: State): State
    requires s.job.Removing?
  {
    if s.job.removed >= |s.job.inputs| then s.(job := Idle)
    else s.(disk := s.disk.(ssts := s.disk.ssts - {s.job.inputs[s.job.removed].file}),
            job := s.job.(removed := s.job.removed + 1))
  }

  // ----- opening -----

  /** Complete tables below `n`, newest file first; each is opened with its file number as sequence. */
  function ReadersBelow(ssts: map<nat, SstFile>, n: nat): seq<Reader> {
    if n == 0 then []
    else
      (if n - 1 in ssts && ssts[n - 1].Complete? then [Reader(n - 1, n - 1, ssts[n - 1].table)] else [])
      + ReadersBelow(ssts, n - 1)
  }

  /** All logs below `n` replayed in ascending order. */
  function ReplayBelow(wals: map<nat, seq<Record>>, n: nat): Table {
    if n == 0 then map[]
    else
      var before := ReplayBelow(wals, n - 1);
      if n - 1 in wals then Replay(before, wals[n - 1]) else before
  }

  ghost predicate IsMax(numbers: set<nat>, m: nat) {
    (forall n :: n in numbers ==> n <= m) && if numbers == {} then m == 0 else m in numbers
  }

  lemma {:induction false} MaxExists(numbers: set<nat>) returns (m: nat)
    ensures IsMax(numbers, m)
    decreases |numbers|
  {
    m := 0;
    if numbers != {} {
      var n :| n in numbers;
      var rest := MaxExists(numbers - {n});
      m := if rest > n then rest else n;
      assert forall x :: x in numbers ==> x == n || x in numbers - {n};
    }
  }

  /** The greatest number in use, 0 if there is none. */
  ghost function Max(numbers: set<nat>): (m: nat)
    ensures IsMax(numbers, m)
  {
    assert exists m: nat :: IsMax(numbers, m) by { var m := MaxExists(numbers); }
    var m: nat :| IsMax(numbers, m);
    m
  }

  ghost function Reopen(disk: Disk): State {
    var counter := Max(disk.ssts.Keys);
    State(ReplayBelow(disk.wals, Max(disk.wals.Keys) + 1), ReadersBelow(disk.ssts, counter + 1),
          counter, counter + 1, disk.(wals := Touch(disk.wals, counter + 1)), Idle)
  }
}
