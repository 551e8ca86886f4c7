/** The bounded buffer that holds a session's newest output (internal/session/ring.go). */
module Ring {
  import opened Sequences

  class ByteRing {
    const capacity: nat
    var data: array<byte>  // backing array of the slice
    var length: nat        // slice length

    ghost predicate Valid()
      reads this
    {
      length <= data.Length && length <= capacity
    }

    ghost function Contents(): (s: seq<byte>)
      requires Valid()
      reads this, data
      ensures |s| <= capacity
    {
      data[..length]
    }

    constructor (capacity: nat)
      ensures Valid() && fresh(data) && this.capacity == capacity && Contents() == []
    {
      this.capacity := capacity;
      data := new byte[0];
      length := 0;
    }

    /** Go's append: reuse the backing array when it is large enough, else move to a larger one. */
    method Append(p: seq<byte>)
      requires Valid() && length + |p| <= capacity
      modifies this, data
      ensures Valid() && (data == old(data) || fresh(data))
      ensures Contents() == old(Contents()) + p
    {
      if length + |p| > data.Length {
        var grown := new byte[2 * data.Length + |p|];
        forall i | 0 <= i < length { grown[i] := data[i]; }
        data := grown;
      }
      assert data[..length] == old(data[..length]);
      forall i | 0 <= i < |p| { data[length + i] := p[i]; }
      assert data[..length + |p|] == old(data[..length]) + p;
      length := length + |p|;
    }

    method Write(p: seq<byte>)
      requires Valid()
      modifies this, data
      ensures Valid() && (data == old(data) || fresh(data))
      ensures Contents() == Newest(old(Contents()) + p, capacity)
    {
      if |p| >= capacity {
        length := 0;
        Append(p[|p| - capacity..]);
        return;
      }
      var overflow := length + |p| - capacity;
      if overflow > 0 {
        forall i | 0 <= i < length - overflow { data[i] := data[i + overflow]; }
        length := length - overflow;
        assert data[..length] == old(data[..length])[overflow..];
      }
      Append(p);
    }

    method Bytes() returns (s: seq<byte>)
      requires Valid()
      ensures s == Contents()
    {
      s := data[..length];
    }
  }

  /** What a ring of this capacity holds after the given writes. */
  function AfterWrites(capacity: nat, writes: seq<seq<byte>>): seq<byte> {
    if writes == [] then []
    else Newest(AfterWrites(capacity, writes[..|writes| - 1]) + writes[|writes| - 1], capacity)
  }

  /** However output was cut into writes, the ring holds the newest bytes of all of it. */
  lemma {:induction false} RingHoldsNewest(capacity: nat, writes: seq<seq<byte>>)
    ensures AfterWrites(capacity, writes) == Newest(Flatten(writes), capacity)
  {
    if writes != [] {
      var init, last := writes[..|writes| - 1], writes[|writes| - 1];
      RingHoldsNewest(capacity, init);
      assert writes == init + [last];
      FlattenSnoc(init, last);
      NewestAdvances(Flatten(init), last, capacity);
    }
  }
}
