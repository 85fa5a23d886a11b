/** The replayable request body (common/body_storage.go): one abstract body, kept in memory or in a
    file, read through a main cursor and through any number of independent readers. */
module BodyStorage {
  import opened Basics

  datatype Error = StorageClosed | EndOfFile | BadSeek
  datatype Kind = Memory | Disk

  /** What both storages stand for. */
  datatype Body = Body(bytes: seq<Byte>, cursor: nat, closed: bool)

  const SEEK_START := 0
  const SEEK_CURRENT := 1
  const SEEK_END := 2

  // -------------------------------------------------------------- reading and seeking

  /** Bytes available to a read of n at a cursor. */
  function Chunk(bytes: seq<Byte>, cursor: nat, n: nat): seq<Byte> {
    if cursor >= |bytes| then [] else if cursor + n > |bytes| then bytes[cursor..] else bytes[cursor..cursor + n]
  }

  /** The error of a read. A `bytes.Reader` at its end always reports the end; a file asked for nothing
      reports nothing. */
  function ReadError(kind: Kind, bytes: seq<Byte>, cursor: nat, n: nat): Option<Error> {
    if cursor >= |bytes| && (kind.Memory? || n > 0) then Some(EndOfFile) else None
  }

  /** The values of whence that seeking is defined for; what a file makes of others is up to the system. */
  predicate DefinedWhence(whence: int) {
    whence == 0 || whence == 1 || whence == 2
  }

  /** Where a seek leads, if anywhere. */
  function SeekTarget(bytes: seq<Byte>, cursor: nat, offset: int, whence: int): Option<nat> {
    var base := if whence == SEEK_START then Some(0)
                else if whence == SEEK_CURRENT then Some(cursor)
                else if whence == SEEK_END then Some(|bytes|)
                else None;
    if base.Some? && base.value + offset >= 0 then Some(base.value + offset) else None
  }

  // --------------------------------------------------------------------- in memory

  /** `bytes.Reader`. */
  class BytesReader {
    const data: seq<Byte>
    var position: nat

    constructor (data: seq<Byte>)
      ensures this.data == data && position == 0
    {
      this.data := data;
      position := 0;
    }

    method Read(n: nat) returns (buf: seq<Byte>, err: Option<Error>)
      modifies this
      ensures buf == Chunk(data, old(position), n) && position == old(position) + |buf|
      ensures err == ReadError(Memory, data, old(position), n)
      ensures ReaderDoes(Memory, data, old(position), n, position, Data(buf, err))
    {
      if position >= |data| {
        return [], Some(EndOfFile);
      }
      buf := data[position..if position + n < |data| then position + n else |data|];
      position := position + |buf|;
      err := None;
    }

    method Seek(offset: int, whence: int) returns (pos: int, err: Option<Error>)
      modifies this
      ensures var target := SeekTarget(data, old(position), offset, whence);
              if target.None? then position == old(position) && err == Some(BadSeek) && pos == 0
              else position == target.value && err == None && pos == target.value
    {
      var abs;
      if whence == SEEK_START {
        abs := offset;
      } else if whence == SEEK_CURRENT {
        abs := position + offset;
      } else if whence == SEEK_END {
        abs := |data| + offset;
      } else {
        return 0, Some(BadSeek);
      }
      if abs < 0 {
        return 0, Some(BadSeek);
      }
      position := abs;
      return abs, None;
    }
  }

  /** `memoryStorage`. */
  class MemoryStorage {
    const data: seq<Byte>
    const reader: BytesReader
    var closed: bool

    ghost predicate Valid()
      reads this
    {
      reader.data == data
    }

    constructor (data: seq<Byte>)
      ensures Valid() && fresh(reader) && Abs() == Body(data, 0, false)
    {
      this.data := data;
      reader := new BytesReader(data);
      closed := false;
    }

    function Abs(): Body
      reads this, reader
    {
      Body(data, reader.position, closed)
    }

    method Read(n: nat) returns (buf: seq<Byte>, err: Option<Error>)
      requires Valid()
      modifies reader
      ensures Does(Memory, old(Abs()), Op.Read(n), Abs(), Data(buf, err))
    {
      if closed {
        return [], Some(StorageClosed);
      }
      buf, err := reader.Read(n);
    }

    method Seek(offset: int, whence: int) returns (pos: int, err: Option<Error>)
      requires Valid()
      modifies reader
      ensures Does(Memory, old(Abs()), Op.Seek(offset, whence), Abs(), Position(pos, err))
    {
      if closed {
        return 0, Some(StorageClosed);
      }
      pos, err := reader.Seek(offset, whence);
    }

    method Bytes() returns (all: seq<Byte>, err: Option<Error>)
      requires Valid()
      ensures Does(Memory, Abs(), Op.Bytes, Abs(), Data(all, err))
    {
      if closed {
        return [], Some(StorageClosed);
      }
      return data, None;
    }

    /** A reader of its own over the shared bytes. */
    method NewReader() returns (r: BytesReader?, err: Option<Error>)
      requires Valid()
      ensures Does(Memory, Abs(), Op.NewReader, Abs(), Quiet(err))
      ensures r == null <==> err.Some?
      ensures r != null ==> fresh(r) && r.data == Abs().bytes && r.position == 0
    {
      if closed {
        return null, Some(StorageClosed);
      }
      r := new BytesReader(data);
      err := None;
    }

    method Close()
      requires Valid()
      modifies this
      ensures Valid() && Does(Memory, old(Abs()), Op.Close, Abs(), Quiet(None))
    {
      closed := true;
    }
  }

  // ----------------------------------------------------------------------- on disk

  /** An open file: its contents and one offset. */
  class OsFile {
    const content: seq<Byte>
    var offset: nat

    constructor (content: seq<Byte>)
      ensures this.content == content && offset == 0
    {
      this.content := content;
      offset := 0;
    }

    method Read(n: nat) returns (buf: seq<Byte>, err: Option<Error>)
      modifies this
      ensures buf == Chunk(content, old(offset), n) && offset == old(offset) + |buf|
      ensures err == ReadError(Disk, content, old(offset), n)
      ensures ReaderDoes(Disk, content, old(offset), n, offset, Data(buf, err))
    {
      if n == 0 {
        return [], None;
      }
      if offset >= |content| {
        return [], Some(EndOfFile);
      }
      buf := content[offset..if offset + n < |content| then offset + n else |content|];
      offset := offset + |buf|;
      err := None;
    }

    method Seek(off: int, whence: int) returns (pos: int, err: Option<Error>)
      modifies this
      ensures DefinedWhence(whence) ==>
              var target := SeekTarget(content, old(offset), off, whence);
              if target.None? then offset == old(offset) && err == Some(BadSeek) && pos == 0
              else offset == target.value && err == None && pos == target.value
    {
      if whence != SEEK_START && whence != SEEK_CURRENT && whence != SEEK_END {
        return 0, Some(BadSeek);
      }
      var base := if whence == SEEK_START then 0 else if whence == SEEK_CURRENT then offset else |content|;
      if base + off < 0 {
        return 0, Some(BadSeek);
      }
      offset := base + off;
      return offset, None;
    }
  }

  /** `diskStorage`. */
  class DiskStorage {
    const file: OsFile
    const size: nat
    var closed: bool

    ghost predicate Valid()
      reads this
    {
      size == |file.content|
    }

    constructor (data: seq<Byte>)
      ensures Valid() && fresh(file) && Abs() == Body(data, 0, false)
    {
      file := new OsFile(data);
      size := |data|;
      closed := false;
    }

    function Abs(): Body
      reads this, file
    {
      Body(file.content, file.offset, closed)
    }

    method Read(n: nat) returns (buf: seq<Byte>, err: Option<Error>)
      requires Valid()
      modifies file
      ensures Does(Disk, old(Abs()), Op.Read(n), Abs(), Data(buf, err))
    {
      if closed {
        return [], Some(StorageClosed);
      }
      buf, err := file.Read(n);
    }

    method Seek(offset: int, whence: int) returns (pos: int, err: Option<Error>)
      requires Valid()
      modifies file
      ensures DefinedWhence(whence) ==> Does(Disk, old(Abs()), Op.Seek(offset, whence), Abs(), Position(pos, err))
    {
      if closed {
        return 0, Some(StorageClosed);
      }
      pos, err := file.Seek(offset, whence);
    }

    /** Everything, read through the one offset the storage has and leaving it where it was. */
    method Bytes() returns (all: seq<Byte>, err: Option<Error>)
      requires Valid()
      modifies file
      ensures Does(Disk, old(Abs()), Op.Bytes, Abs(), Data(all, err))
    {
      if closed {
        return [], Some(StorageClosed);
      }
      var currentPos, e := file.Seek(0, SEEK_CURRENT);
      all, err := [], None;
      var start;
      start, e := file.Seek(0, SEEK_START);
      while |all| < size
        invariant |all| <= size && file.offset == |all| && all == file.content[..|all|]
      {
        var part;
        part, e := file.Read(size - |all|);
        all := all + part;
      }
      start, e := file.Seek(currentPos, SEEK_START);
    }

    /** A second descriptor on the same file. */
    method NewReader() returns (r: OsFile?, err: Option<Error>)
      requires Valid()
      ensures Does(Disk, Abs(), Op.NewReader, Abs(), Quiet(err))
      ensures r == null <==> err.Some?
      ensures r != null ==> fresh(r) && r.content == Abs().bytes && r.offset == 0
    {
      if closed {
        return null, Some(StorageClosed);
      }
      r := new OsFile(file.content);
      err := None;
    }

    method Close()
      requires Valid()
      modifies this
      ensures Valid() && Does(Disk, old(Abs()), Op.Close, Abs(), Quiet(None))
    {
      closed := true;
    }
  }

  // ------------------------------------------------------------- a storage and its readers

  /** A storage together with the cursors of the readers it has handed out. */
  datatype World = World(body: Body, readers: seq<nat>)

  datatype Op =
    | Read(n: nat)
    | Seek(offset: int, whence: int)
    | Bytes
    | Close
    | NewReader
    | ReadReader(reader: nat, n: nat)

  datatype Observation =
    | Data(buf: seq<Byte>, err: Option<Error>)
    | Position(pos: int, err: Option<Error>)
    | Quiet(err: Option<Error>)

  /** The state after an operation, whichever storage it is. */
  function After(w: World, op: Op): World {
    match op
    case Read(n) =>
      if w.body.closed then w
      else w.(body := w.body.(cursor := w.body.cursor + |Chunk(w.body.bytes, w.body.cursor, n)|))
    case Seek(offset, whence) =>
      var target := SeekTarget(w.body.bytes, w.body.cursor, offset, whence);
      if w.body.closed || target.None? then w else w.(body := w.body.(cursor := target.value))
    case Bytes => w
    case Close => w.(body := w.body.(closed := true))
    case NewReader => if w.body.closed then w else w.(readers := w.readers + [0])
    case ReadReader(reader, n) =>
      if reader >= |w.readers| then w
      else w.(readers := w.readers[reader := w.readers[reader] + |Chunk(w.body.bytes, w.readers[reader], n)|])
  }

  /** What the caller sees. */
  function Observe(kind: Kind, w: World, op: Op): Observation {
    match op
    case Read(n) =>
      if w.body.closed then Data([], Some(StorageClosed))
      else Data(Chunk(w.body.bytes, w.body.cursor, n), ReadError(kind, w.body.bytes, w.body.cursor, n))
    case Seek(offset, whence) =>
      var target := SeekTarget(w.body.bytes, w.body.cursor, offset, whence);
      if w.body.closed then Position(0, Some(StorageClosed))
      else if target.None? then Position(0, Some(BadSeek))
      else Position(target.value, None)
    case Bytes => if w.body.closed then Data([], Some(StorageClosed)) else Data(w.body.bytes, None)
    case Close => Quiet(None)
    case NewReader => Quiet(if w.body.closed then Some(StorageClosed) else None)
    case ReadReader(reader, n) =>
      if reader >= |w.readers| then Quiet(None)
      else Data(Chunk(w.body.bytes, w.readers[reader], n), ReadError(kind, w.body.bytes, w.readers[reader], n))
  }

  /** One operation on the storage itself takes the body to `next` and shows `seen`. */
  ghost predicate Does(kind: Kind, body: Body, op: Op, next: Body, seen: Observation) {
    After(World(body, []), op).body == next && Observe(kind, World(body, []), op) == seen
  }

  /** A read of a reader that stands at a position takes it to `next` and shows `seen`. */
  ghost predicate ReaderDoes(kind: Kind, bytes: seq<Byte>, position: nat, n: nat, next: nat, seen: Observation) {
    var w, op := World(Body(bytes, 0, false), [position]), Op.ReadReader(0, n);
    After(w, op).readers == [next] && Observe(kind, w, op) == seen
  }

  /** In any world, among any other readers and closed or not, a reader does what one does on its own. */
  lemma ReadersDoAlike(kind: Kind, w: World, reader: nat, n: nat)
    requires reader < |w.readers|
    ensures var next := After(w, Op.ReadReader(reader, n));
            && |next.readers| == |w.readers|
            && ReaderDoes(kind, w.body.bytes, w.readers[reader], n, next.readers[reader],
                          Observe(kind, w, Op.ReadReader(reader, n)))
  {
  }

  function AfterAll(w: World, ops: seq<Op>): World
    decreases |ops|
  {
    if ops == [] then w else AfterAll(After(w, ops[0]), ops[1..])
  }

  function Trace(kind: Kind, w: World, ops: seq<Op>): seq<Observation>
    decreases |ops|
  {
    if ops == [] then [] else [Observe(kind, w, ops[0])] + Trace(kind, After(w, ops[0]), ops[1..])
  }

  /** A read of nothing at the end: the one operation on which the storages differ. */
  predicate EmptyReadAtEnd(w: World, op: Op) {
    match op
    case Read(n) => n == 0 && !w.body.closed && w.body.cursor >= |w.body.bytes|
    case ReadReader(reader, n) => n == 0 && reader < |w.readers| && w.readers[reader] >= |w.body.bytes|
    case _ => false
  }

  predicate NoEmptyReadAtEnd(w: World, ops: seq<Op>)
    decreases |ops|
  {
    ops == [] || (!EmptyReadAtEnd(w, ops[0]) && NoEmptyReadAtEnd(After(w, ops[0]), ops[1..]))
  }

  /** The operation is defined for every storage. */
  predicate Defined(op: Op) {
    op.Seek? ==> DefinedWhence(op.whence)
  }

  lemma ObserveAgreesExactlyWhen(w: World, op: Op)
    requires Defined(op)
    ensures Observe(Memory, w, op) == Observe(Disk, w, op) <==> !EmptyReadAtEnd(w, op)
  {
  }

  /** Over every sequence of reads, seeks, whole-body reads, new readers, reader reads and closes, the
      two storages show the same, exactly when the sequence never reads nothing at the end. */
  lemma {:induction false} TracesAgreeExactlyWhen(w: World, ops: seq<Op>)
    requires forall i :: 0 <= i < |ops| ==> Defined(ops[i])
    ensures Trace(Memory, w, ops) == Trace(Disk, w, ops) <==> NoEmptyReadAtEnd(w, ops)
    decreases |ops|
  {
    if ops == [] {
    } else {
      ObserveAgreesExactlyWhen(w, ops[0]);
      TracesAgreeExactlyWhen(After(w, ops[0]), ops[1..]);
      var m, d := Trace(Memory, w, ops), Trace(Disk, w, ops);
      assert m[1..] == Trace(Memory, After(w, ops[0]), ops[1..]);
      assert d[1..] == Trace(Disk, After(w, ops[0]), ops[1..]);
      assert m[0] == Observe(Memory, w, ops[0]) && d[0] == Observe(Disk, w, ops[0]);
    }
  }

  /** The failing inputs: on every body, reading it all and then asking for nothing shows the difference. */
  lemma EmptyReadShows(bytes: seq<Byte>)
    ensures var w, ops := World(Body(bytes, 0, false), []), [Op.Read(|bytes|), Op.Read(0)];
            Trace(Memory, w, ops) != Trace(Disk, w, ops)
  {
    var w, ops := World(Body(bytes, 0, false), []), [Op.Read(|bytes|), Op.Read(0)];
    assert ops[1..] == [Op.Read(0)];
    assert After(w, ops[0]).body.cursor == |bytes|;
    TracesAgreeExactlyWhen(w, ops);
    assert !NoEmptyReadAtEnd(After(w, ops[0]), ops[1..]);
  }

  // --------------------------------------------------------------------- what reads return

  /** The bytes from a position on; none past the end. */
  function From(bytes: seq<Byte>, position: nat): seq<Byte> {
    if position > |bytes| then [] else bytes[position..]
  }

  function First(bytes: seq<Byte>, n: nat): seq<Byte> {
    if n > |bytes| then bytes else bytes[..n]
  }

  /** Everything the reads of the main cursor returned, in order, and how much they asked for. */
  function MainData(trace: seq<Observation>, ops: seq<Op>): seq<Byte>
    requires |trace| == |ops|
  {
    if ops == [] then []
    else
      var rest := MainData(trace[1..], ops[1..]);
      if ops[0].Read? && trace[0].Data? then trace[0].buf + rest else rest
  }

  function MainAsked(ops: seq<Op>): nat {
    if ops == [] then 0 else MainAsked(ops[1..]) + if ops[0].Read? then ops[0].n else 0
  }

  /** The same for one reader. */
  function ReaderData(trace: seq<Observation>, ops: seq<Op>, reader: nat): seq<Byte>
    requires |trace| == |ops|
  {
    if ops == [] then []
    else
      var rest := ReaderData(trace[1..], ops[1..], reader);
      if ops[0].ReadReader? && ops[0].reader == reader && trace[0].Data? then trace[0].buf + rest else rest
  }

  function ReaderAsked(ops: seq<Op>, reader: nat): nat {
    if ops == [] then 0
    else ReaderAsked(ops[1..], reader) + if ops[0].ReadReader? && ops[0].reader == reader then ops[0].n else 0
  }

  lemma {:induction false} TraceLength(kind: Kind, w: World, ops: seq<Op>)
    ensures |Trace(kind, w, ops)| == |ops|
    decreases |ops|
  {
    if ops == [] {
    } else {
      TraceLength(kind, After(w, ops[0]), ops[1..]);
    }
  }

  /** One read returns the next bytes and leaves the cursor behind them. */
  lemma ChunkIsNext(bytes: seq<Byte>, cursor: nat, n: nat, more: nat)
    ensures Chunk(bytes, cursor, n) == First(From(bytes, cursor), n)
    ensures First(From(bytes, cursor), n + more)
         == Chunk(bytes, cursor, n) + First(From(bytes, cursor + |Chunk(bytes, cursor, n)|), more)
  {
    var k, rest := |Chunk(bytes, cursor, n)|, From(bytes, cursor);
    if cursor < |bytes| {
      assert rest[..k] == Chunk(bytes, cursor, n) && rest[k..] == From(bytes, cursor + k);
      FirstSplits(rest, k, more);
    }
  }

  lemma FirstSplits(s: seq<Byte>, k: nat, more: nat)
    requires k <= |s|
    ensures First(s, k + more) == s[..k] + First(s[k..], more)
  {
  }

  /** How much an operation asks of the main cursor, and of one reader; most ask for nothing. */
  function Asks(op: Op): nat {
    if op.Read? then op.n else 0
  }

  function AsksReader(op: Op, reader: nat): nat {
    if op.ReadReader? && op.reader == reader then op.n else 0
  }

  lemma MainDataCons(seen: Observation, later: seq<Observation>, op: Op, rest: seq<Op>)
    requires |later| == |rest|
    ensures MainData([seen] + later, [op] + rest)
         == (if op.Read? && seen.Data? then seen.buf else []) + MainData(later, rest)
    ensures MainAsked([op] + rest) == Asks(op) + MainAsked(rest)
  {
    assert ([seen] + later)[1..] == later && ([op] + rest)[1..] == rest;
  }

  lemma ReaderDataCons(seen: Observation, later: seq<Observation>, op: Op, rest: seq<Op>, reader: nat)
    requires |later| == |rest|
    ensures var own := op.ReadReader? && op.reader == reader;
            && ReaderData([seen] + later, [op] + rest, reader)
               == (if own && seen.Data? then seen.buf else []) + ReaderData(later, rest, reader)
            && ReaderAsked([op] + rest, reader) == AsksReader(op, reader) + ReaderAsked(rest, reader)
  {
    assert ([seen] + later)[1..] == later && ([op] + rest)[1..] == rest;
  }

  /** An operation that neither seeks nor closes moves the main cursor by what it reads from it. */
  lemma MainStep(kind: Kind, w: World, op: Op)
    requires !w.body.closed && !op.Seek? && !op.Close?
    ensures var chunk, seen := Chunk(w.body.bytes, w.body.cursor, Asks(op)), Observe(kind, w, op);
            && After(w, op).body == w.body.(cursor := w.body.cursor + |chunk|)
            && (if op.Read? && seen.Data? then seen.buf else []) == chunk
  {
  }

  /** Any operation moves a reader by what it reads from it. */
  lemma ReaderSees(kind: Kind, w: World, op: Op, reader: nat)
    requires reader < |w.readers|
    ensures var chunk, seen := Chunk(w.body.bytes, w.readers[reader], AsksReader(op, reader)), Observe(kind, w, op);
            var own := op.ReadReader? && op.reader == reader;
            && After(w, op).body.bytes == w.body.bytes && reader < |After(w, op).readers|
            && After(w, op).readers[reader] == w.readers[reader] + |chunk|
            && (if own && seen.Data? then seen.buf else []) == chunk
  {
  }

  lemma TraceCons(kind: Kind, w: World, op: Op, rest: seq<Op>)
    ensures Trace(kind, w, [op] + rest) == [Observe(kind, w, op)] + Trace(kind, After(w, op), rest)
  {
    assert ([op] + rest)[1..] == rest;
  }

  /** The main cursor's reads return the body from the cursor on, as far as they ask for it. */
  ghost predicate MainReadsOn(kind: Kind, w: World, ops: seq<Op>) {
    var trace := Trace(kind, w, ops);
    && |trace| == |ops|
    && MainData(trace, ops) == First(From(w.body.bytes, w.body.cursor), MainAsked(ops))
  }

  /** A reader's reads return the body from its own position on. */
  ghost predicate ReaderReadsOn(kind: Kind, w: World, ops: seq<Op>, reader: nat)
    requires reader < |w.readers|
  {
    var trace := Trace(kind, w, ops);
    && |trace| == |ops|
    && ReaderData(trace, ops, reader) == First(From(w.body.bytes, w.readers[reader]), ReaderAsked(ops, reader))
  }

  /** What is read next and what is read after it. */
  lemma ReadThen(bytes: seq<Byte>, cursor: nat, n: nat, more: nat, chunk: seq<Byte>, later: seq<Byte>)
    requires chunk == Chunk(bytes, cursor, n) && later == First(From(bytes, cursor + |chunk|), more)
    ensures chunk + later == First(From(bytes, cursor), n + more)
  {
    ChunkIsNext(bytes, cursor, n, more);
  }

  /** Reads of the main cursor return the body from the cursor on, as far as they ask for it, whatever
      whole-body reads and readers come between them. */
  lemma {:induction false} MainReadsInOrder(kind: Kind, w: World, ops: seq<Op>)
    requires !w.body.closed && forall i :: 0 <= i < |ops| ==> !ops[i].Seek? && !ops[i].Close?
    ensures MainReadsOn(kind, w, ops)
    decreases |ops|
  {
    if ops == [] {
    } else {
      var op, rest := ops[0], ops[1..];
      MainStep(kind, w, op);
      MainReadsInOrder(kind, After(w, op), rest);
      MainReadsStep(kind, w, op, rest);
      assert ops == [op] + rest;
    }
  }

  lemma MainReadsStep(kind: Kind, w: World, op: Op, rest: seq<Op>)
    requires !w.body.closed && !op.Seek? && !op.Close?
    requires MainReadsOn(kind, After(w, op), rest)
    ensures MainReadsOn(kind, w, [op] + rest)
  {
    MainStep(kind, w, op);
    TraceCons(kind, w, op, rest);
    MainDataStep(w.body.bytes, w.body.cursor, Observe(kind, w, op), Trace(kind, After(w, op), rest), op, rest);
  }

  lemma MainDataStep(
    bytes: seq<Byte>, cursor: nat, seen: Observation, later: seq<Observation>, op: Op, rest: seq<Op>)
    requires |later| == |rest|
    requires var chunk := Chunk(bytes, cursor, Asks(op));
             && (if op.Read? && seen.Data? then seen.buf else []) == chunk
             && MainData(later, rest) == First(From(bytes, cursor + |chunk|), MainAsked(rest))
    ensures MainData([seen] + later, [op] + rest) == First(From(bytes, cursor), MainAsked([op] + rest))
  {
    MainDataCons(seen, later, op, rest);
    ReadThen(bytes, cursor, Asks(op), MainAsked(rest), Chunk(bytes, cursor, Asks(op)), MainData(later, rest));
  }

  /** Reads of a reader return the body from its own position on, whatever else is done, closing included. */
  lemma {:induction false} ReaderReadsInOrder(kind: Kind, w: World, ops: seq<Op>, reader: nat)
    requires reader < |w.readers|
    ensures ReaderReadsOn(kind, w, ops, reader)
    decreases |ops|
  {
    if ops == [] {
    } else {
      var op, rest := ops[0], ops[1..];
      ReaderSees(kind, w, op, reader);
      ReaderReadsInOrder(kind, After(w, op), rest, reader);
      ReaderReadsStep(kind, w, op, rest, reader);
      assert ops == [op] + rest;
    }
  }

  lemma ReaderReadsStep(kind: Kind, w: World, op: Op, rest: seq<Op>, reader: nat)
    requires reader < |w.readers| && reader < |After(w, op).readers|
    requires ReaderReadsOn(kind, After(w, op), rest, reader)
    ensures ReaderReadsOn(kind, w, [op] + rest, reader)
  {
    ReaderSees(kind, w, op, reader);
    TraceCons(kind, w, op, rest);
    ReaderDataStep(w.body.bytes, w.readers[reader], Observe(kind, w, op), Trace(kind, After(w, op), rest),
                   op, rest, reader);
  }

  lemma ReaderDataStep(bytes: seq<Byte>, position: nat, seen: Observation, later: seq<Observation>, op: Op,
                       rest: seq<Op>, reader: nat)
    requires |later| == |rest|
    requires var chunk, own := Chunk(bytes, position, AsksReader(op, reader)), op.ReadReader? && op.reader == reader;
             && (if own && seen.Data? then seen.buf else []) == chunk
             && ReaderData(later, rest, reader) == First(From(bytes, position + |chunk|), ReaderAsked(rest, reader))
    ensures ReaderData([seen] + later, [op] + rest, reader)
         == First(From(bytes, position), ReaderAsked([op] + rest, reader))
  {
    ReaderDataCons(seen, later, op, rest, reader);
    ReadThen(bytes, position, AsksReader(op, reader), ReaderAsked(rest, reader),
             Chunk(bytes, position, AsksReader(op, reader)), ReaderData(later, rest, reader));
  }

  /** After a seek that is possible, reads go on from the start, the old cursor or the end, by the offset; a
      seek to before the start is refused and reads go on from where they were. */
  lemma ReadsAfterSeek(kind: Kind, w: World, offset: int, whence: int, ops: seq<Op>)
    requires !w.body.closed && DefinedWhence(whence)
    requires forall i :: 0 <= i < |ops| ==> !ops[i].Seek? && !ops[i].Close?
    ensures var bytes, next := w.body.bytes, After(w, Op.Seek(offset, whence));
            var base := if whence == 0 then 0 else if whence == 1 then w.body.cursor else |bytes|;
            var data := (TraceLength(kind, next, ops); MainData(Trace(kind, next, ops), ops));
            if base + offset >= 0 then
              && data == First(From(bytes, base + offset), MainAsked(ops))
              && Observe(kind, w, Op.Seek(offset, whence)) == Position(base + offset, None)
            else
              && data == First(From(bytes, w.body.cursor), MainAsked(ops))
              && Observe(kind, w, Op.Seek(offset, whence)) == Position(0, Some(BadSeek))
  {
    SeekMoves(kind, w, offset, whence);
    MainReadsInOrder(kind, After(w, Op.Seek(offset, whence)), ops);
  }

  lemma SeekMoves(kind: Kind, w: World, offset: int, whence: int)
    requires !w.body.closed && DefinedWhence(whence)
    ensures var base := if whence == 0 then 0 else if whence == 1 then w.body.cursor else |w.body.bytes|;
            if base + offset >= 0 then
              && After(w, Op.Seek(offset, whence)).body == w.body.(cursor := base + offset)
              && Observe(kind, w, Op.Seek(offset, whence)) == Position(base + offset, None)
            else
              && After(w, Op.Seek(offset, whence)).body == w.body
              && Observe(kind, w, Op.Seek(offset, whence)) == Position(0, Some(BadSeek))
  {
  }

  /** A new reader reads the body from its start. */
  lemma NewReaderReadsAll(kind: Kind, w: World, ops: seq<Op>)
    requires !w.body.closed
    ensures var next, reader := After(w, Op.NewReader), |w.readers|;
            var data := (TraceLength(kind, next, ops); ReaderData(Trace(kind, next, ops), ops, reader));
            data == First(w.body.bytes, ReaderAsked(ops, reader))
  {
    var next := After(w, Op.NewReader);
    ReaderReadsInOrder(kind, next, ops, |w.readers|);
    assert From(w.body.bytes, 0) == w.body.bytes;
  }

  /** How a read ends: if it asks for something it returns bytes or reports the end, never both; a read of
      nothing returns nothing, and at the end only memory reports it. */
  ghost predicate EndsProperly(kind: Kind, seen: Observation, n: nat, atEnd: bool) {
    && seen.Data?
    && (seen.buf == [] <==> n == 0 || atEnd)
    && seen.err == if atEnd && (n > 0 || kind == Memory) then Some(EndOfFile) else None
  }

  /** So end the reads of the main cursor and of every reader, also after the storage was closed; a closed
      storage refuses everything but its readers' reads and closing again. */
  lemma ReadsEndProperly(kind: Kind, w: World, n: nat)
    ensures !w.body.closed ==>
              && EndsProperly(kind, Observe(kind, w, Op.Read(n)), n, w.body.cursor >= |w.body.bytes|)
              && Observe(kind, w, Op.Bytes) == Data(w.body.bytes, None)
              && Observe(kind, w, Op.NewReader) == Quiet(None)
    ensures forall reader: nat :: reader < |w.readers| ==>
              EndsProperly(kind, Observe(kind, w, Op.ReadReader(reader, n)), n, w.readers[reader] >= |w.body.bytes|)
    ensures w.body.closed ==>
              && Observe(kind, w, Op.Read(n)) == Observe(kind, w, Op.Bytes) == Data([], Some(StorageClosed))
              && Observe(kind, w, Op.NewReader) == Quiet(Some(StorageClosed))
              && (forall offset, whence ::
                    Observe(kind, w, Op.Seek(offset, whence)) == Position(0, Some(StorageClosed)))
    ensures Observe(kind, w, Op.Close) == Quiet(None) && After(w, Op.Close).body.closed
  {
    ChunkEmpty(w.body.bytes, w.body.cursor, n);
    forall reader: nat | reader < |w.readers|
      ensures EndsProperly(kind, Observe(kind, w, Op.ReadReader(reader, n)), n, w.readers[reader] >= |w.body.bytes|)
    {
      ChunkEmpty(w.body.bytes, w.readers[reader], n);
    }
  }

  lemma ChunkEmpty(bytes: seq<Byte>, cursor: nat, n: nat)
    ensures Chunk(bytes, cursor, n) == [] <==> n == 0 || cursor >= |bytes|
  {
  }

  // ----------------------------------------------------------------- independent cursors

  /** The operations on the storage itself. */
  function MainOps(ops: seq<Op>): seq<Op> {
    if ops == [] then []
    else (if ops[0].NewReader? || ops[0].ReadReader? then [] else [ops[0]]) + MainOps(ops[1..])
  }

  /** How much one reader was asked for, read by read. */
  function ReadsOf(ops: seq<Op>, reader: nat): seq<nat> {
    if ops == [] then []
    else (if ops[0].ReadReader? && ops[0].reader == reader then [ops[0].n] else []) + ReadsOf(ops[1..], reader)
  }

  function CursorAfter(bytes: seq<Byte>, cursor: nat, sizes: seq<nat>): nat
    decreases |sizes|
  {
    if sizes == [] then cursor else CursorAfter(bytes, cursor + |Chunk(bytes, cursor, sizes[0])|, sizes[1..])
  }

  /** No reader affects the storage: its body is what the operations on it alone make of it. */
  lemma {:induction false} ReadersLeaveBodyAlone(w: World, others: seq<nat>, ops: seq<Op>)
    ensures AfterAll(w, ops).body == AfterAll(World(w.body, others), MainOps(ops)).body
    decreases |ops|
  {
    if ops == [] {
    } else {
      var next := After(w, ops[0]);
      if ops[0].NewReader? || ops[0].ReadReader? {
        assert next.body == w.body;
        assert MainOps(ops) == MainOps(ops[1..]);
        ReadersLeaveBodyAlone(next, others, ops[1..]);
      } else {
        assert MainOps(ops)[0] == ops[0] && MainOps(ops)[1..] == MainOps(ops[1..]);
        assert After(World(w.body, others), ops[0]) == World(next.body, others);
        ReadersLeaveBodyAlone(next, others, ops[1..]);
      }
    }
  }

  /** Nothing but a reader's own reads moves it, also after the storage was closed. */
  lemma {:induction false} ReaderMovesAlone(w: World, ops: seq<Op>, reader: nat)
    requires reader < |w.readers|
    ensures reader < |AfterAll(w, ops).readers|
    ensures AfterAll(w, ops).readers[reader] == CursorAfter(w.body.bytes, w.readers[reader], ReadsOf(ops, reader))
    ensures AfterAll(w, ops).body.bytes == w.body.bytes
    decreases |ops|
  {
    if ops == [] {
    } else {
      ReaderStep(w, ops[0], reader);
      ReaderMovesAlone(After(w, ops[0]), ops[1..], reader);
      var rest := ReadsOf(ops[1..], reader);
      if ops[0].ReadReader? && ops[0].reader == reader {
        assert ReadsOf(ops, reader) == [ops[0].n] + rest && ([ops[0].n] + rest)[1..] == rest;
      } else {
        assert ReadsOf(ops, reader) == rest;
      }
    }
  }

  lemma ReaderStep(w: World, op: Op, reader: nat)
    requires reader < |w.readers|
    ensures reader < |After(w, op).readers| && After(w, op).body.bytes == w.body.bytes
    ensures After(w, op).readers[reader] ==
            w.readers[reader]
            + if op.ReadReader? && op.reader == reader then |Chunk(w.body.bytes, w.readers[reader], op.n)| else 0
  {
  }
}
