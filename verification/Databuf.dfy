/** src/source/databuf.c: the byte buffer of a message, a stack of bytes in an array
    that grows by doubling. */
module Databufs {
  import opened Basics

  /** The growth loop of push_buf: the capacity that holds `need` bytes. */
  function GrowTo(cap: nat, need: nat): (r: nat)
    ensures r >= need && r >= cap
    decreases need - cap
  {
    if cap >= need then cap else GrowTo(cap * 2 + 10, need)
  }

  /** Starting from nothing the loop visits these capacities only. */
  function Pow2(k: nat): nat {
    if k == 0 then 1 else 2 * Pow2(k - 1)
  }

  ghost predicate Doubled(cap: nat) {
    exists k: nat :: cap == 10 * (Pow2(k) - 1)
  }

  lemma {:induction false} GrowToShape(cap: nat, need: nat)
    requires Doubled(cap)
    ensures Doubled(GrowTo(cap, need))
    ensures GrowTo(cap, need) <= Max(cap, 2 * need + 8)
    decreases need - cap
  {
    if cap < need {
      var k: nat :| cap == 10 * (Pow2(k) - 1);
      assert cap * 2 + 10 == 10 * (Pow2(k + 1) - 1);
      GrowToShape(cap * 2 + 10, need);
    }
  }

  class Databuf {
    var buffer: array<Byte>
    var size: nat

    ghost predicate Valid()
      reads this
    {
      size <= buffer.Length
    }

    ghost function Contents(): Bytes
      reads this, buffer
      requires Valid()
    {
      buffer[..size]
    }

    constructor ()
      ensures Valid() && Contents() == [] && buffer.Length == 0 && fresh(buffer)
    {
      buffer := new Byte[0];
      size := 0;
    }

    /** realloc_buf: what fits of the old bytes is kept. */
    method Realloc(newsize: nat)
      requires Valid()
      modifies this`buffer
      ensures buffer.Length == newsize && fresh(buffer)
      ensures forall i :: 0 <= i < newsize && i < old(buffer.Length) ==> buffer[i] == old(buffer[i])
    {
      var bigger := new Byte[newsize];
      forall i | 0 <= i < newsize && i < buffer.Length {
        bigger[i] := buffer[i];
      }
      buffer := bigger;
    }

    /** The memcpy of push_buf. */
    method Copy(bytes: Bytes)
      requires size + |bytes| <= buffer.Length
      modifies buffer
      ensures buffer[..size] == old(buffer[..size]) && buffer[size..size + |bytes|] == bytes
    {
      forall i | 0 <= i < |bytes| {
        buffer[size + i] := bytes[i];
      }
    }

    /** push_buf: the bytes go on top, whatever growing that takes. */
    method Push(bytes: Bytes)
      requires Valid()
      modifies this, buffer
      ensures Valid() && Contents() == old(Contents()) + bytes
      ensures buffer.Length == GrowTo(old(buffer.Length), old(size) + |bytes|)
      ensures buffer == old(buffer) || fresh(buffer)
    {
      while buffer.Length - size < |bytes|
        invariant Valid() && size == old(size) && Contents() == old(Contents())
        invariant buffer == old(buffer) || fresh(buffer)
        invariant GrowTo(buffer.Length, size + |bytes|) == GrowTo(old(buffer.Length), old(size) + |bytes|)
        decreases size + |bytes| - buffer.Length
      {
        Realloc(buffer.Length * 2 + 10);
      }
      Copy(bytes);
      size := size + |bytes|;
      assert Contents() == buffer[..old(size)] + buffer[old(size)..size];
    }

    /** pop_buf: the bytes pushed last, or None (ENOBUFS) and no change. */
    method Pop(n: nat) returns (r: Option<Bytes>)
      requires Valid()
      modifies this`size
      ensures Valid()
      ensures n > old(size) ==> r == None && Contents() == old(Contents())
      ensures n <= old(size) ==>
                r == Some(old(Contents())[old(size) - n..]) && Contents() == old(Contents())[..old(size) - n]
    {
      if n > size { return None; }
      size := size - n;
      return Some(buffer[size..size + n]);
    }

    /** resize_data_buffer. */
    method Resize(newsize: nat)
      requires Valid()
      modifies this
      ensures Valid() && buffer.Length == newsize && fresh(buffer)
      ensures Contents() == old(Contents())[..if old(size) > newsize then newsize else old(size)]
    {
      Realloc(newsize);
      if size > newsize { size := newsize; }
    }

    /** The readn of read_msgbody straight into the buffer, and the new size. */
    method Fill(bytes: Bytes)
      requires Valid() && |bytes| == buffer.Length
      modifies this`size, buffer
      ensures Valid() && Contents() == bytes
    {
      forall i | 0 <= i < |bytes| {
        buffer[i] := bytes[i];
      }
      size := |bytes|;
    }
  }

  // ------------------------------------------------------ the cost in capacity

  /** The life of a buffer as far as its capacity is concerned. */
  datatype Use = Pushed(n: nat) | Popped(n: nat)

  datatype Shape = Shape(cap: nat, size: nat, most: nat)

  function ShapeAfter(uses: seq<Use>): Shape {
    if |uses| == 0 then Shape(0, 0, 0)
    else
      var s := ShapeAfter(uses[..|uses| - 1]);
      match uses[|uses| - 1]
      case Pushed(n) => Shape(GrowTo(s.cap, s.size + n), s.size + n, Max(s.most, s.size + n))
      case Popped(n) => if n > s.size then s else s.(size := s.size - n)
  }

  /** However a buffer is pushed to and popped from, its capacity is 10 * (2^k - 1)
      for some k, holds what is in it, and is at most twice the most it ever held
      plus 8. */
  lemma {:induction false} CapacityShape(uses: seq<Use>)
    ensures var s := ShapeAfter(uses);
            Doubled(s.cap) && s.size <= s.cap && s.size <= s.most && (s.cap > 0 ==> s.cap <= 2 * s.most + 8)
  {
    if |uses| == 0 {
      assert 0 == 10 * (Pow2(0) - 1);
    } else {
      var s := ShapeAfter(uses[..|uses| - 1]);
      CapacityShape(uses[..|uses| - 1]);
      if uses[|uses| - 1].Pushed? {
        GrowToShape(s.cap, s.size + uses[|uses| - 1].n);
      }
    }
  }
}
