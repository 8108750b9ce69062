/** Buffer: a growable byte array with a reader and a writer index, which behaves as an
    unbounded queue of bytes. */
module ByteBuffer {

  const CHEAP_PREPEND := 8
  const EXTRA_SIZE := 66536

  class Buffer {
    var data: array<char>
    var readerIndex: nat
    var writerIndex: nat

    ghost predicate Valid()
      reads this
    {
      CHEAP_PREPEND <= readerIndex <= writerIndex <= data.Length
    }

    /** The readable bytes. */
    ghost function Contents(): string
      requires Valid()
      reads this, data
    {
      data[readerIndex..writerIndex]
    }

    constructor (initSize: nat := 1024)
      ensures Valid() && fresh(data) && Contents() == ""
    {
      data := new char[CHEAP_PREPEND + initSize](_ => 0 as char);
      readerIndex, writerIndex := CHEAP_PREPEND, CHEAP_PREPEND;
    }

    function ReadableBytes(): (n: nat)
      requires Valid()
      reads this, data
      ensures n == |Contents()|
    {
      writerIndex - readerIndex
    }

    function WritableBytes(): nat
      requires Valid()
      reads this
    {
      data.Length - writerIndex
    }

    method RetrieveAll()
      requires Valid()
      modifies this`readerIndex, this`writerIndex
      ensures Valid() && Contents() == "" && readerIndex == writerIndex == CHEAP_PREPEND
    {
      readerIndex, writerIndex := CHEAP_PREPEND, CHEAP_PREPEND;
    }

    /** retrieve: a request for more than there is takes everything. */
    method Retrieve(len: nat)
      requires Valid()
      modifies this`readerIndex, this`writerIndex
      ensures Valid()
      ensures Contents() == if len < |old(Contents())| then old(Contents())[len..] else ""
      ensures Contents() != "" ==> writerIndex == old(writerIndex)
    {
      if len < ReadableBytes() {
        readerIndex := readerIndex + len;
      } else {
        RetrieveAll();
      }
    }

    /** retrieveAsString; the source copies `len` bytes whether or not they are readable. */
    method RetrieveAsString(len: nat) returns (s: string)
      requires Valid() && len <= ReadableBytes()
      modifies this`readerIndex, this`writerIndex
      ensures Valid()
      ensures s == old(Contents())[..len] && Contents() == old(Contents())[len..]
    {
      s := data[readerIndex..readerIndex + len];
      Retrieve(len);
    }

    /** The first branch of makeSpace: a longer array with the same bytes. */
    method Resize(size: nat)
      requires Valid() && data.Length <= size
      modifies this`data
      ensures Valid() && data.Length == size && (fresh(data) || data == old(data))
      ensures Contents() == old(Contents())
    {
      var old_ := data;
      var bigger := new char[size](_ => 0 as char);
      for i := 0 to old_.Length
        invariant forall j :: 0 <= j < i ==> bigger[j] == old_[j]
      {
        bigger[i] := old_[i];
      }
      data := bigger;
    }

    /** The second branch of makeSpace: the readable bytes move to the front, front to
        back, where source and target may overlap. */
    method MoveToFront()
      requires Valid()
      modifies this`readerIndex, this`writerIndex, data
      ensures Valid() && readerIndex == CHEAP_PREPEND
      ensures Contents() == old(Contents())
    {
      var readable := ReadableBytes();
      ghost var was := Contents();
      for i := 0 to readable
        invariant readerIndex == old(readerIndex) && writerIndex == old(writerIndex)
        invariant forall j :: 0 <= j < i ==> data[CHEAP_PREPEND + j] == was[j]
        invariant forall j :: i <= j < readable ==> data[readerIndex + j] == was[j]
      {
        data[CHEAP_PREPEND + i] := data[readerIndex + i];
      }
      readerIndex := CHEAP_PREPEND;
      writerIndex := readerIndex + readable;
    }

    /** makeSpace: the array grows exactly if the bytes before and behind the readable ones do not
        suffice, and then by no more than is asked for. */
    method MakeSpace(len: nat)
      requires Valid() && WritableBytes() < len
      modifies this, data
      ensures Valid() && len <= WritableBytes() && (fresh(data) || data == old(data))
      ensures if CHEAP_PREPEND + |old(Contents())| + len > old(data.Length) then data.Length == old(writerIndex) + len
              else data == old(data) && data.Length == old(data.Length) && readerIndex == CHEAP_PREPEND
      ensures Contents() == old(Contents())
    {
      if WritableBytes() + readerIndex < len + CHEAP_PREPEND {
        Resize(writerIndex + len);
      } else {
        MoveToFront();
      }
    }

    method EnsureWritableBytes(len: nat)
      requires Valid()
      modifies this, data
      ensures Valid() && len <= WritableBytes() && (fresh(data) || data == old(data))
      ensures Contents() == old(Contents())
    {
      if WritableBytes() < len {
        MakeSpace(len);
      }
    }

    /** Bytes stored at the writer index, which then moves past them. */
    method Store(s: string)
      requires Valid() && |s| <= WritableBytes()
      modifies this`writerIndex, data
      ensures Valid() && writerIndex == old(writerIndex) + |s|
      ensures Contents() == old(Contents()) + s
    {
      for i := 0 to |s|
        invariant writerIndex == old(writerIndex)
        invariant data[readerIndex..writerIndex] == old(Contents())
        invariant data[writerIndex..writerIndex + i] == s[..i]
      {
        data[writerIndex + i] := s[i];
      }
      writerIndex := writerIndex + |s|;
    }

    method Append(s: string)
      requires Valid()
      modifies this, data
      ensures Valid() && (fresh(data) || data == old(data))
      ensures Contents() == old(Contents()) + s
    {
      EnsureWritableBytes(|s|);
      Store(s);
    }

    /** readFd: readv fills the writable part first and the rest goes to an array on the
        stack, offered only while the writable part is the smaller. `received` is what the
        kernel delivers, and nothing is stored when the call fails. */
    method ReadFd(ok: bool, received: string)
      requires Valid()
      requires |received| <= WritableBytes() + (if WritableBytes() < EXTRA_SIZE then EXTRA_SIZE else 0)
      modifies this, data
      ensures Valid() && (fresh(data) || data == old(data))
      ensures Contents() == if ok then old(Contents()) + received else old(Contents())
    {
      if !ok { return; }
      var writable := WritableBytes();
      if |received| <= writable {
        Store(received);
      } else {
        Store(received[..writable]);
        Append(received[writable..]);
        assert received[..writable] + received[writable..] == received;
      }
    }
  }

  // ----- whole runs -----

  /** Receive is readFd while the kernel holds `bytes`; `ok` is false where the call fails. */
  datatype BufferOp = Put(bytes: string) | Take(len: nat) | Receive(ok: bool, bytes: string)

  /** One operation on a plain queue of bytes: what is left, and what it gives. */
  function QueueNext(queue: string, op: BufferOp): string {
    match op
    case Put(s) => queue + s
    case Take(n) => if n < |queue| then queue[n..] else ""
    case Receive(ok, s) => if ok then queue + s else queue
  }

  function QueueGives(queue: string, op: BufferOp): seq<string> {
    if op.Take? then [if op.len < |queue| then queue[..op.len] else queue] else []
  }

  /** All that the queue gives in a run. */
  function QueueRun(queue: string, ops: seq<BufferOp>): (taken: seq<string>)
    decreases |ops|
  {
    if ops == [] then []
    else QueueGives(queue, ops[0]) + QueueRun(QueueNext(queue, ops[0]), ops[1..])
  }

  function QueueAfter(queue: string, ops: seq<BufferOp>): string
    decreases |ops|
  {
    if ops == [] then queue else QueueAfter(QueueNext(queue, ops[0]), ops[1..])
  }

  /** What was done when `asked` was asked for: readFd may deliver only the front of what the
      kernel holds, and up to the size of its overflow area delivers all of it. */
  predicate DoneFor(asked: BufferOp, done: BufferOp) {
    if asked.Receive? then
      done.Receive? && done.ok == asked.ok && done.bytes <= asked.bytes &&
      (|asked.bytes| <= EXTRA_SIZE ==> done == asked)
    else done == asked
  }

  lemma {:induction false} QueueRunLast(queue: string, ops: seq<BufferOp>, op: BufferOp)
    ensures QueueRun(queue, ops + [op]) == QueueRun(queue, ops) + QueueGives(QueueAfter(queue, ops), op)
    ensures QueueAfter(queue, ops + [op]) == QueueNext(QueueAfter(queue, ops), op)
    decreases |ops|
  {
    if ops == [] {
      assert ops + [op] == [op] && [op][1..] == [];
    } else {
      assert (ops + [op])[1..] == ops[1..] + [op];
      QueueRunLast(QueueNext(queue, ops[0]), ops[1..], op);
    }
  }

  lemma {:induction false} NothingRun()
    ensures QueueRun("", []) == [] && QueueAfter("", []) == ""
  {}

  /** Whatever is put, received and taken, the buffer hands out what the queue does. */
  method Drive(ops: seq<BufferOp>) returns (taken: seq<string>, done: seq<BufferOp>)
    ensures |done| == |ops| && forall i | 0 <= i < |ops| :: DoneFor(ops[i], done[i])
    ensures taken == QueueRun("", done)
  {
    hide QueueRun, QueueAfter, QueueGives, QueueNext, DoneFor;
    NothingRun();
    taken, done := [], [];
    var buf := new Buffer();
    for i := 0 to |ops|
      invariant fresh(buf) && fresh(buf.data) && buf.Valid()
      invariant |done| == i && forall j | 0 <= j < i :: DoneFor(ops[j], done[j])
      invariant taken == QueueRun("", done) && buf.Contents() == QueueAfter("", done)
    {
      var given, op := Do(buf, ops[i]);
      QueueRunLast("", done, op);
      taken, done := taken + given, done + [op];
    }
  }

  /** One operation on the buffer. */
  method Do(buf: Buffer, asked: BufferOp) returns (given: seq<string>, op: BufferOp)
    requires buf.Valid()
    modifies buf, buf.data
    ensures buf.Valid() && (fresh(buf.data) || buf.data == old(buf.data))
    ensures DoneFor(asked, op)
    ensures given == QueueGives(old(buf.Contents()), op) && buf.Contents() == QueueNext(old(buf.Contents()), op)
  {
    given, op := [], asked;
    ghost var was := buf.Contents();
    assert was[..|was|] == was && was[|was|..] == "";
    match asked {
      case Put(s) => buf.Append(s);
      case Take(n) =>
        var k := if n < buf.ReadableBytes() then n else buf.ReadableBytes();
        var s := buf.RetrieveAsString(k);
        given := [s];
      case Receive(ok, s) =>
        var room := buf.WritableBytes() + (if buf.WritableBytes() < EXTRA_SIZE then EXTRA_SIZE else 0);
        var got := if |s| <= room then s else s[..room];
        buf.ReadFd(ok, got);
        op := Receive(ok, got);
    }
  }
}
