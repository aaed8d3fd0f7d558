/** The memory routines of stdmem.c. A destination is an array and an offset; a source that the
    routine only reads, and that C's restrict keeps apart from the destination, is a sequence. */
module StdMem {
  import opened Bytes

  method MemSet(dst: array<Byte>, at: nat, c: int, n: nat)
    requires at + n <= dst.Length
    modifies dst
    ensures dst[..] == Patch(old(dst[..]), at, seq(n, _ => c % 0x100))
  {
    for i := 0 to n
      invariant forall k | 0 <= k < dst.Length ::
        dst[k] == if at <= k < at + i then c % 0x100 else old(dst[k])
    {
      dst[at + i] := c % 0x100;
    }
  }

  method MemCpy(dst: array<Byte>, at: nat, src: seq<Byte>, n: nat)
    requires at + n <= dst.Length && n <= |src|
    modifies dst
    ensures dst[..] == Patch(old(dst[..]), at, src[..n])
  {
    for i := 0 to n
      invariant forall k | 0 <= k < dst.Length ::
        dst[k] == if at <= k < at + i then src[k - at] else old(dst[k])
    {
      dst[at + i] := src[i];
    }
  }

  /** Both ranges lie in the array mem: the bytes at to become what the bytes at from were,
      however the two ranges overlap. */
  method MemMove(mem: array<Byte>, to: nat, from: nat, n: nat)
    requires to + n <= mem.Length && from + n <= mem.Length
    modifies mem
    ensures mem[..] == Patch(old(mem[..]), to, old(mem[from..from + n]))
  {
    ghost var src := mem[from..from + n];
    assert forall k | 0 <= k < n :: src[k] == mem[from + k];
    if to < from {
      for i := 0 to n
        invariant forall k | 0 <= k < mem.Length ::
          mem[k] == if to <= k < to + i then src[k - to] else old(mem[k])
      {
        mem[to + i] := mem[from + i];
      }
    } else {
      for i := n downto 0
        invariant forall k | 0 <= k < mem.Length ::
          mem[k] == if to + i <= k < to + n then src[k - to] else old(mem[k])
      {
        mem[to + i] := mem[from + i];
      }
    }
  }

  /** Unsigned lexicographic order of two buffers of the same length: the sign of the first difference. */
  function Compare(a: seq<Byte>, b: seq<Byte>): (r: int)
    requires |a| == |b|
    ensures r == 0 <==> a == b
    ensures r == 0 || r == 1 || r == -1
  {
    if a == [] then 0
    else if a[0] < b[0] then -1
    else if a[0] > b[0] then 1
    else
      assert a == [a[0]] + a[1..] && b == [b[0]] + b[1..];
      Compare(a[1..], b[1..])
  }

  method MemCmp(s1: seq<Byte>, s2: seq<Byte>, n: nat) returns (r: int)
    requires n <= |s1| && n <= |s2|
    ensures r == Compare(s1[..n], s2[..n])
    ensures r == 0 <==> s1[..n] == s2[..n]
  {
    for i := 0 to n
      invariant s1[..i] == s2[..i]
      invariant Compare(s1[..n], s2[..n]) == Compare(s1[i..n], s2[i..n])
    {
      if s1[i] < s2[i] {
        return -1;
      } else if s1[i] > s2[i] {
        return 1;
      }
      assert s1[i..n][1..] == s1[i + 1..n] && s2[i..n][1..] == s2[i + 1..n];
    }
    return 0;
  }

  lemma {:induction false} CompareAntisymmetric(a: seq<Byte>, b: seq<Byte>)
    requires |a| == |b|
    ensures Compare(a, b) == -Compare(b, a)
  {
    if a != [] {
      CompareAntisymmetric(a[1..], b[1..]);
    }
  }

  lemma {:induction false} CompareTransitive(a: seq<Byte>, b: seq<Byte>, c: seq<Byte>)
    requires |a| == |b| == |c|
    requires Compare(a, b) <= 0 && Compare(b, c) <= 0
    ensures Compare(a, c) <= 0
    ensures Compare(a, c) == 0 ==> a == b == c
  {
    if a != [] && a[0] == b[0] == c[0] {
      CompareTransitive(a[1..], b[1..], c[1..]);
      assert a == [a[0]] + a[1..] && b == [b[0]] + b[1..] && c == [c[0]] + c[1..];
    }
  }
}
