/** The socket buffer: one array with a read and a write index,

      [ prependable | readable | writable ]

    proved to behave as a queue of bytes through growth and compaction. */
module Buffers {

  const INITIAL_SIZE: nat := 4096
  const PREPENDABLE_SIZE: nat := 128
  const STACK_BUFFER: nat := 65536

  // ---- prepend beyond the reserve ----

  /** Array size and the two indices. */
  datatype Layout = Layout(size: nat, read: nat, write: nat)

  predicate Sound(l: Layout) {
    l.read <= l.write <= l.size
  }

  /** The indices as `prepend` leaves them. Its growing branch moves the read index first
      and then adds the readable size computed from the moved index, so the write index
      keeps its old value. */
  function PrependLayout(l: Layout, n: nat): Layout
    requires Sound(l)
  {
    if n > l.read then Layout(n + (l.write - l.read) + PREPENDABLE_SIZE, PREPENDABLE_SIZE, l.write)
    else Layout(l.size, l.read - n, l.write)
  }

  /** Prepending n bytes makes the queue n bytes longer exactly when they fit the reserve. */
  lemma PrependFitsReserve(l: Layout, n: nat)
    requires Sound(l)
    ensures n <= l.read <==>
              var after := PrependLayout(l, n);
              Sound(after) && after.write - after.read == n + (l.write - l.read)
  {
  }

  /** The indices as `shrink` leaves them. */
  function ShrinkLayout(l: Layout): Layout
    requires Sound(l)
  {
    if l.read == PREPENDABLE_SIZE then l
    else Layout(l.size, PREPENDABLE_SIZE, PREPENDABLE_SIZE + (l.write - l.read))
  }

  /** Compaction stays inside the array exactly when reserve and readable bytes fit. They do
      when nothing was put into the reserve, and when `ensure_writable` calls; in a full
      buffer with something in the reserve they do not. */
  lemma ShrinkFitsIff(l: Layout, n: nat)
    requires Sound(l)
    ensures Sound(ShrinkLayout(l)) <==> PREPENDABLE_SIZE + (l.write - l.read) <= l.size
    ensures PREPENDABLE_SIZE <= l.read ==> Sound(ShrinkLayout(l))
    ensures l.size - l.write < n && l.read + (l.size - l.write) >= n + PREPENDABLE_SIZE ==> Sound(ShrinkLayout(l))
    ensures l.read == PREPENDABLE_SIZE && l.write == l.size && 0 < n <= l.read ==>
              !Sound(ShrinkLayout(PrependLayout(l, n)))
  {
  }

  /** memcpy into an array: the bytes land at `at`, the rest stays. */
  method CopyInto(a: array<char>, at: nat, data: string)
    requires at + |data| <= a.Length
    modifies a
    ensures a[at..at + |data|] == data
    ensures forall i :: 0 <= i < at || at + |data| <= i < a.Length ==> a[i] == old(a[i])
  {
    forall i | 0 <= i < |data| {
      a[at + i] := data[i];
    }
  }

  class Buffer {
    var buf: array<char>
    var readIdx: nat
    var writeIdx: nat

    ghost predicate Valid()
      reads this
    {
      readIdx <= writeIdx <= buf.Length && PREPENDABLE_SIZE <= buf.Length
    }

    /** The queue this buffer stands for. */
    function Contents(): string
      requires Valid()
      reads this, buf
    {
      buf[readIdx..writeIdx]
    }

    function ReadableSize(): nat
      requires Valid()
      reads this
    {
      writeIdx - readIdx
    }

    function WritableSize(): nat
      requires Valid()
      reads this
    {
      buf.Length - writeIdx
    }

    constructor ()
      ensures Valid() && Contents() == "" && fresh(buf)
      ensures WritableSize() == INITIAL_SIZE && readIdx == PREPENDABLE_SIZE
    {
      buf := new char[INITIAL_SIZE + PREPENDABLE_SIZE](_ => '\0');
      readIdx, writeIdx := PREPENDABLE_SIZE, PREPENDABLE_SIZE;
    }

    /** Compaction: the readable bytes move to the front, leaving the reserve free. It is
        safe only when they fit there, which EnsureWritable establishes before calling. */
    method Shrink()
      requires Valid() && PREPENDABLE_SIZE + ReadableSize() <= buf.Length
      modifies this`readIdx, this`writeIdx, buf
      ensures Valid() && Contents() == old(Contents())
      ensures readIdx == PREPENDABLE_SIZE
    {
      if readIdx == PREPENDABLE_SIZE {
        return;
      }
      var size := ReadableSize();
      if size > 0 {
        forall i | 0 <= i < size {
          buf[PREPENDABLE_SIZE + i] := buf[readIdx + i];
        }
      }
      readIdx, writeIdx := PREPENDABLE_SIZE, PREPENDABLE_SIZE + size;
    }

    /** `buf_.resize`: a larger array with the old bytes in place. */
    method Grow(more: nat)
      requires Valid()
      modifies this`buf
      ensures Valid() && Contents() == old(Contents())
      ensures fresh(buf) && buf.Length == old(buf.Length) + more
    {
      var larger := new char[buf.Length + more](_ => '\0');
      forall i | 0 <= i < buf.Length {
        larger[i] := buf[i];
      }
      buf := larger;
    }

    /** Afterwards n bytes can be written, and the queue is what it was. */
    method EnsureWritable(n: nat)
      requires Valid()
      modifies this, buf
      ensures Valid() && Contents() == old(Contents())
      ensures WritableSize() >= n
      ensures buf == old(buf) || fresh(buf)
      ensures old(WritableSize()) >= n ==> buf == old(buf) && readIdx == old(readIdx) && writeIdx == old(writeIdx)
    {
      if WritableSize() >= n {
        return;
      }
      var needed := n - WritableSize();
      if readIdx + WritableSize() >= n + PREPENDABLE_SIZE {
        Shrink();
      } else {
        Grow(needed);
      }
    }

    /** Bytes written into the free tail join the queue. */
    method Fill(data: string)
      requires Valid() && |data| <= WritableSize()
      modifies this`writeIdx, buf
      ensures Valid() && Contents() == old(Contents()) + data
      ensures WritableSize() == old(WritableSize()) - |data|
    {
      ghost var end := writeIdx;
      CopyInto(buf, writeIdx, data);
      writeIdx := writeIdx + |data|;
      assert buf[readIdx..end] == old(Contents());
      assert buf[readIdx..writeIdx] == buf[readIdx..end] + buf[end..writeIdx];
    }

    method Append(data: string)
      requires Valid()
      modifies this, buf
      ensures Valid() && Contents() == old(Contents()) + data
      ensures buf == old(buf) || fresh(buf)
    {
      if |data| == 0 {
        return;
      }
      EnsureWritable(|data|);
      Fill(data);
    }

    /** Asking for more than there is takes everything. */
    method Consume(n: nat)
      requires Valid()
      modifies this`readIdx, this`writeIdx
      ensures Valid()
      ensures Contents() == if n < |old(Contents())| then old(Contents())[n..] else ""
    {
      var k := if n > ReadableSize() then ReadableSize() else n;
      readIdx := readIdx + k;
      if readIdx == writeIdx {
        readIdx, writeIdx := PREPENDABLE_SIZE, PREPENDABLE_SIZE;
      }
    }

    /** The bytes go in front of the queue, inside the reserve. */
    method Prepend(data: string)
      requires Valid() && |data| <= readIdx
      modifies this`readIdx, buf
      ensures Valid() && Contents() == data + old(Contents())
    {
      readIdx := readIdx - |data|;
      CopyInto(buf, readIdx, data);
      assert buf[readIdx + |data|..writeIdx] == old(Contents());
      assert buf[readIdx..writeIdx] == buf[readIdx..readIdx + |data|] + buf[readIdx + |data|..writeIdx];
    }

    /** What readv may deliver: the free tail, and a stack buffer behind it unless the
        tail alone is that large. */
    function ReadCapacity(): nat
      requires Valid()
      reads this
    {
      if WritableSize() >= STACK_BUFFER then WritableSize() else WritableSize() + STACK_BUFFER
    }

    /** A successful readv of `input`: the first bytes are already in the tail, the
        others come from the stack buffer. */
    method ReadFromFd(input: string) returns (n: nat)
      requires Valid() && |input| <= ReadCapacity()
      modifies this, buf
      ensures Valid() && Contents() == old(Contents()) + input
      ensures n == |input|
      ensures buf == old(buf) || fresh(buf)
    {
      var writable := WritableSize();
      n := |input|;
      if n <= writable {
        Fill(input);
      } else {
        Fill(input[..writable]);
        Append(input[writable..]);
        assert input == input[..writable] + input[writable..];
      }
    }

    /** A write to the socket that took `accepted` bytes removes them from the front. */
    method WriteToFd(accepted: nat)
      requires Valid() && accepted <= ReadableSize()
      modifies this`readIdx, this`writeIdx
      ensures Valid() && Contents() == old(Contents())[accepted..]
    {
      if ReadableSize() == 0 {
        return;
      }
      if accepted > 0 {
        Consume(accepted);
      }
    }
  }
}
