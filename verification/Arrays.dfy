/** Go's copy on byte slices, as the buffers of every layer use it. */
module Arrays {
  import opened Bytes

  /** copy(a[at:], dat) */
  method Put(a: array<byte>, at: nat, dat: Bytes)
    requires at + |dat| <= a.Length
    modifies a
    ensures a[..at] == old(a[..at]) && a[at..at + |dat|] == dat && a[at + |dat|..] == old(a[at + |dat|..])
    ensures a[..at + |dat|] == old(a[..at]) + dat
  {
    forall k | 0 <= k < |dat| {
      a[at + k] := dat[k];
    }
  }

  /** The array after copy(a, a[n:size]): what lies behind stays where it is. */
  function Shifted(s: Bytes, size: nat, n: nat): (r: Bytes)
    requires n <= size <= |s|
    ensures |r| == |s| && r[..size - n] == s[n..size]
  {
    s[n..size] + s[size - n..]
  }

  /** copy(a, a[n:size]) */
  method DropFront(a: array<byte>, size: nat, n: nat)
    requires n <= size <= a.Length
    modifies a
    ensures a[..] == Shifted(old(a[..]), size, n) && a[..size - n] == old(a[..size])[n..]
  {
    ghost var all, before := a[..], a[..size];
    forall k | 0 <= k < size - n {
      a[k] := a[n + k];
    }
    assert a[..size - n] == before[n..];
    assert a[..] == Shifted(all, size, n);
  }

  /** Hand out up to out.Length of the first `size` bytes of a, and move the rest of them to the front. */
  method MoveFront(a: array<byte>, size: nat, out: array<byte>) returns (n: nat)
    requires size <= a.Length && out != a
    modifies a, out
    ensures n == Min(size, out.Length)
    ensures out[..n] == old(a[..size])[..n] && out[n..] == old(out[n..])
    ensures a[..] == Shifted(old(a[..]), size, n) && a[..size - n] == old(a[..size])[n..]
  {
    n := Min(size, out.Length);
    ghost var before := a[..size];
    Put(out, 0, a[..n]);
    assert out[0..n] == out[..n] && a[..size] == before && a[..n] == before[..n];
    DropFront(a, size, n);
  }

  /** A larger array that begins with the first `size` bytes of a. */
  method Enlarged(a: array<byte>, size: nat, capacity: nat) returns (b: array<byte>)
    requires size <= a.Length && size <= capacity
    ensures fresh(b) && b.Length == capacity && b[..size] == a[..size] && b[size..] == Zeros(capacity - size)
  {
    b := new byte[capacity](_ => 0);
    forall i | 0 <= i < size {
      b[i] := a[i];
    }
  }
}
