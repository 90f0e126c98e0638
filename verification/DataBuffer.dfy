/** The growable byte buffer of VFSCryptLib. */
module DataBuffers {

  class DataBuffer {
    var data: array<bv8>  // its length is the capacity; a buffer never allocated has an empty one
    var size: nat

    ghost predicate Valid()
      reads this
    {
      size <= data.Length
    }

    ghost function Contents(): seq<bv8>
      requires Valid()
      reads this, data
    {
      data[..size]
    }

    constructor ()
      ensures Valid() && fresh(data) && Contents() == []
    {
      data := new bv8[0];
      size := 0;
    }

    /** Move the contents to a new allocation of n bytes, zero after the old contents. */
    method Reallocate(n: nat)
      requires Valid() && n >= data.Length
      modifies this`data
      ensures Valid() && fresh(data) && data.Length == n
      ensures Contents() == old(Contents())
      ensures forall i | size <= i < n :: data[i] == 0
    {
      var grown := new bv8[n](_ => 0);
      var oldData, count := data, size;
      for i := 0 to count
        invariant data == oldData && size == count && oldData[..] == old(oldData[..])
        invariant grown[..i] == oldData[..i]
        invariant forall k | i <= k < n :: grown[k] == 0
      {
        grown[i] := oldData[i];
      }
      data := grown;
    }

    /** Growing beyond the capacity keeps the contents and adds zeros; within it, the added bytes are
        whatever the allocation holds there. */
    method SetSize(n: nat)
      requires Valid()
      modifies this
      ensures Valid() && data.Length >= old(data.Length)
      ensures if n > old(data.Length) then fresh(data) else data == old(data)
      ensures |Contents()| == n
      ensures n <= old(size) ==> Contents() == old(Contents())[..n]
      ensures n > old(size) ==> Contents()[..old(size)] == old(Contents())
      ensures n > old(data.Length) ==> forall i | old(size) <= i < n :: Contents()[i] == 0
    {
      if n > data.Length {
        Reallocate(n);
      }
      size := n;
    }

    method SetCapacity(n: nat)
      requires Valid()
      modifies this`data
      ensures Valid() && (data == old(data) || fresh(data))
      ensures Contents() == old(Contents())
      ensures data.Length == if n > old(data.Length) then n else old(data.Length)
    {
      if n > data.Length {
        Reallocate(n);
      }
    }

    /** Append sixteen bytes, growing the capacity by 1 KiB when there is no room. */
    method Append16(block: seq<bv8>)
      requires Valid() && |block| == 16
      modifies this, data
      ensures Valid() && (data == old(data) || fresh(data))
      ensures Contents() == old(Contents()) + block
    {
      var current := size;
      if data.Length - current < 16 {
        SetCapacity(data.Length + 1024);
      }
      SetSize(current + 16);
      for i := 0 to 16
        invariant size == current + 16 <= data.Length && (data == old(data) || fresh(data))
        invariant data[..current] == old(Contents()) && data[current..current + i] == block[..i]
      {
        data[current + i] := block[i];
      }
    }
  }
}
