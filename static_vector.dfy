// The bounded vector over caller-owned storage (static_vector in
// BLETestCpp/include/static_vector.h, duplicated at the top of
// structured_logger.h): a fixed array, a size that never passes the array's
// length, and adds that silently stop once the vector is full.

module StaticVectors {
  import opened Bytes

  /** What a vector holding `s` holds after trying to add the elements of `t`
      one by one, when it can hold at most `cap`: elements go in while there
      is room, the rest are dropped. */
  function Fill<T>(s: seq<T>, t: seq<T>, cap: nat): (r: seq<T>)
    requires |s| <= cap
  {
    (s + t)[..Min(|s| + |t|, cap)]
  }

  /** While there is room for all of `t`, nothing is dropped. */
  lemma {:induction false} FillFits<T>(s: seq<T>, t: seq<T>, cap: nat)
    requires |s| + |t| <= cap
    ensures Fill(s, t, cap) == s + t
  {
  }

  /** Adding `a` and then `b` leaves the vector as adding `a + b` at once. */
  lemma {:induction false} FillFill<T>(s: seq<T>, a: seq<T>, b: seq<T>, cap: nat)
    requires |s| <= cap
    ensures |Fill(s, a, cap)| <= cap
    ensures Fill(Fill(s, a, cap), b, cap) == Fill(s, a + b, cap)
  {
    var sa := Fill(s, a, cap);
    var n := Min(|s| + |a| + |b|, cap);
    assert s + (a + b) == (s + a) + b;
    if |s| + |a| <= cap {
      assert sa == s + a;
    } else {
      assert |sa| == cap;
      assert Fill(sa, b, cap) == sa;
      assert n == cap;
      assert (s + a + b)[..cap] == (s + a)[..cap];
    }
  }

  /** Adding to a vector that is not full keeps what it held and takes as
      much of `t` as the room left allows. */
  lemma {:induction false} FillPrefix<T>(s: seq<T>, t: seq<T>, cap: nat)
    requires |s| <= cap
    ensures Fill(s, t, cap) == s + t[..Min(|t|, cap - |s|)]
  {
    var n := Min(|t|, cap - |s|);
    assert (s + t)[..|s| + n] == s + t[..n];
  }

  /** Four adds in a row leave the vector as one add of all four parts. */
  lemma {:induction false} FillFour<T>(s: seq<T>, a: seq<T>, b: seq<T>, c: seq<T>, d: seq<T>, cap: nat)
    requires |s| <= cap
    ensures |Fill(s, a, cap)| <= cap && |Fill(Fill(s, a, cap), b, cap)| <= cap
    ensures |Fill(Fill(Fill(s, a, cap), b, cap), c, cap)| <= cap
    ensures Fill(Fill(Fill(Fill(s, a, cap), b, cap), c, cap), d, cap) == Fill(s, a + b + c + d, cap)
  {
    FillFill(s, a, b, cap);
    FillFill(s, a + b, c, cap);
    FillFill(s, a + b + c, d, cap);
  }

  class StaticVector<T(0)> {
    /** The caller-owned backing storage; its length is the capacity. */
    const data: array<T>
    var size: nat

    ghost predicate Valid()
      reads this
    {
      size <= data.Length
    }

    function Capacity(): nat
    {
      data.Length
    }

    /** The elements currently held, in order. */
    function Contents(): seq<T>
      reads this, data
      requires Valid()
    {
      data[..size]
    }

    constructor (backing: array<T>)
      ensures Valid() && data == backing
      ensures Contents() == [] && Capacity() == backing.Length
    {
      data := backing;
      size := 0;
    }

    function Empty(): (r: bool)
      reads this, data
      requires Valid()
      ensures r <==> Contents() == []
    {
      size == 0
    }

    function Full(): (r: bool)
      reads this, data
      requires Valid()
      ensures r <==> |Contents()| == Capacity()
    {
      size == data.Length
    }

    method Clear()
      requires Valid()
      modifies this
      ensures Valid() && Contents() == []
    {
      size := 0;
    }

    /** Stores `x` in the first free slot, or does nothing when full. */
    method PushBack(x: T)
      requires Valid()
      modifies this, data
      ensures Valid()
      ensures old(size) < Capacity() ==> size == old(size) + 1 && data[..] == old(data[..])[old(size) := x]
      ensures old(size) >= Capacity() ==> size == old(size) && data[..] == old(data[..])
      ensures Contents() == Fill(old(Contents()), [x], Capacity())
    {
      if size >= data.Length {
        return;
      }
      data[size] := x;
      size := size + 1;
    }

    /** Copies the elements of `c` in order until `c` runs out or the vector
        is full. */
    method Append(c: seq<T>)
      requires Valid()
      modifies this, data
      ensures Valid()
      ensures size - old(size) == Min(|c|, Capacity() - old(size))
      ensures Contents() == Fill(old(Contents()), c, Capacity())
      ensures forall k :: size <= k < data.Length ==> data[k] == old(data[k])
    {
      ghost var s0 := Contents();
      var i := 0;
      while i < |c|
        invariant 0 <= i <= |c|
        invariant Valid()
        invariant size == old(size) + i
        invariant Contents() == s0 + c[..i]
        invariant forall k :: size <= k < data.Length ==> data[k] == old(data[k])
      {
        if size >= data.Length {
          assert Fill(s0, c, Capacity()) == (s0 + c[..i])[..data.Length];
          return;
        }
        data[size] := c[i];
        size := size + 1;
        i := i + 1;
        assert Contents() == s0 + c[..i];
      }
      assert c[..i] == c;
    }
  }
}
