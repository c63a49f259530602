/** The ring buffer of device/ioqueue.c and the byte side of pipes (shell/pipe.c). */
module Ring {

  type Byte = bv8
  const BUFSIZE := 64

  datatype Ring = Ring(buf: seq<Byte>, head: int, tail: int)

  ghost predicate Shaped(q: Ring) {
    |q.buf| == BUFSIZE && 0 <= q.head < BUFSIZE && 0 <= q.tail < BUFSIZE
  }

  function NextPos(pos: int): int
    requires pos >= 0
  {
    (pos + 1) % BUFSIZE
  }

  function Length(q: Ring): nat
    requires Shaped(q)
  {
    if q.head >= q.tail then q.head - q.tail else BUFSIZE - (q.tail - q.head)
  }

  /** The bytes in the ring, oldest first. */
  function Contents(q: Ring): seq<Byte>
    requires Shaped(q)
  {
    seq(Length(q), i requires 0 <= i < Length(q) => q.buf[(q.tail + i) % BUFSIZE])
  }

  predicate Full(q: Ring)
    requires Shaped(q)
  {
    NextPos(q.head) == q.tail
  }

  predicate Empty(q: Ring)
    requires Shaped(q)
  {
    q.head == q.tail
  }

  function Put(q: Ring, b: Byte): Ring
    requires Shaped(q)
  {
    q.(buf := q.buf[q.head := b], head := NextPos(q.head))
  }

  function Get(q: Ring): Ring
    requires Shaped(q)
  {
    q.(tail := NextPos(q.tail))
  }

  /** Full, empty and the length are what they say: 63 bytes fill a ring of 64. */
  lemma FullAndEmpty(q: Ring)
    requires Shaped(q)
    ensures Full(q) <==> |Contents(q)| == 63
    ensures Empty(q) <==> Contents(q) == []
    ensures |Contents(q)| <= 63
  {
  }

  lemma PutAppends(q: Ring, b: Byte)
    requires Shaped(q) && !Full(q)
    ensures Shaped(Put(q, b)) && Contents(Put(q, b)) == Contents(q) + [b]
  {
    var r := Put(q, b);
    assert Length(r) == Length(q) + 1;
    forall i | 0 <= i < Length(r) ensures Contents(r)[i] == (Contents(q) + [b])[i] {
      assert (q.tail + i) % BUFSIZE == q.head <==> i == Length(q);
    }
  }

  lemma GetTakesOldest(q: Ring)
    requires Shaped(q) && !Empty(q)
    ensures Shaped(Get(q)) && Contents(q) == [q.buf[q.tail]] + Contents(Get(q))
  {
    var r := Get(q);
    assert Length(q) == Length(r) + 1;
    forall i | 0 <= i < Length(q) ensures Contents(q)[i] == ([q.buf[q.tail]] + Contents(r))[i] {
      assert i > 0 ==> (r.tail + (i - 1)) % BUFSIZE == (q.tail + i) % BUFSIZE;
    }
  }

  // ---------------------------------------------------------------- the queue in place

  /** How a call ends when it does not have to wait, and when it does. */
  datatype Done = Returned(n: nat) | Waits(after: nat)

  class Queue {
    var buf: array<Byte>
    var head: int
    var tail: int

    ghost predicate Valid()
      reads this, buf
    {
      Shaped(View())
    }

    ghost function View(): Ring
      reads this, buf
    {
      Ring(buf[..], head, tail)
    }

    constructor ()
      ensures Valid() && fresh(buf) && Contents(View()) == []
    {
      buf := new Byte[BUFSIZE];
      head, tail := 0, 0;
    }

    method GetNow() returns (b: Byte)
      requires Valid() && !Empty(View())
      modifies this`tail
      ensures Valid() && old(Contents(View())) == [b] + Contents(View())
    {
      GetTakesOldest(View());
      b := buf[tail];
      tail := NextPos(tail);
    }

    method PutNow(b: Byte)
      requires Valid() && !Full(View())
      modifies this`head, buf
      ensures Valid() && Contents(View()) == old(Contents(View())) + [b]
    {
      PutAppends(View(), b);
      ghost var was := View();
      buf[head] := b;
      head := NextPos(head);
      assert View() == Put(was, b);
    }

    method Len() returns (len: nat)
      requires Valid()
      ensures len == |Contents(View())|
    {
      len := if head >= tail then head - tail else BUFSIZE - (tail - head);
    }

    /** pipe_read: the oldest bytes, as many as are there and wanted; it never waits. */
    method PipeRead(count: nat) returns (out: seq<Byte>)
      requires Valid()
      modifies this`tail
      ensures Valid() && old(Contents(View())) == out + Contents(View())
      ensures |out| == if count < old(|Contents(View())|) then count else old(|Contents(View())|)
    {
      hide Contents, Length;
      var len := Len();
      var size := if len > count then count else len;
      out := [];
      while |out| < size
        invariant Valid() && |out| <= size <= len
        invariant old(Contents(View())) == out + Contents(View())
      {
        FullAndEmpty(View());
        var b := GetNow();
        assert out + ([b] + Contents(View())) == out + [b] + Contents(View());
        out := out + [b];
      }
    }

    /** pipe_write takes the room to be 64 less the length, one more than there is.  It writes
        everything if that fits, and otherwise fills the ring and waits inside ioq_putchar. */
    method PipeWrite(data: seq<Byte>) returns (r: Done)
      requires Valid()
      modifies this`head, buf
      ensures Valid()
      ensures r.Waits? <==> |data| > 63 - old(|Contents(View())|)
      ensures r.Returned? ==> r.n == |data| && Contents(View()) == old(Contents(View())) + data
      ensures r.Waits? ==>
        r.after <= |data| && |Contents(View())| == 63 && Contents(View()) == old(Contents(View())) + data[..r.after]
    {
      var len := Len();
      var left := BUFSIZE - len;
      var size := if left > |data| then |data| else left;
      var i := 0;
      FullAndEmpty(View());
      while i < size
        invariant Valid() && 0 <= i <= size && size <= |data| && size <= left
        invariant Contents(View()) == old(Contents(View())) + data[..i]
      {
        FullAndEmpty(View());
        if NextPos(head) == tail {
          return Waits(i);
        }
        PutNow(data[i]);
        assert data[..i + 1] == data[..i] + [data[i]];
        i := i + 1;
      }
      FullAndEmpty(View());
      return Returned(i);
    }
  }
}
