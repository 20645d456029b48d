/** BaseSingleRingBufferData: a byte FIFO over an array whose size is a power of two, with two
    32-bit counters that are never reduced and wrap around at 2^32. */
module Kfifo {
  import opened Basics
  import opened Bytes

  const TWO32: nat := 0x1_0000_0000

  type uint32 = x: int | 0 <= x < TWO32

  function Wrap(x: int): uint32 {
    x % TWO32
  }

  // ---- Bits ----

  /** The bitwise and of two non-negative numbers. */
  function And(x: nat, y: nat): (r: nat)
    ensures r <= x && r <= y
  {
    if x == 0 || y == 0 then 0 else 2 * And(x / 2, y / 2) + (x % 2) * (y % 2)
  }

  function Pow2(k: nat): (p: nat)
    ensures p > 0
  {
    if k == 0 then 1 else 2 * Pow2(k - 1)
  }

  ghost predicate PowerOfTwo(n: nat) {
    exists k: nat :: n == Pow2(k)
  }

  lemma AndOdd(x: nat, p: nat)
    requires p > 0
    ensures And(x, 2 * p - 1) == 2 * And(x / 2, p - 1) + x % 2
  {
    assert (2 * p - 1) / 2 == p - 1 && (2 * p - 1) % 2 == 1;
  }

  /** `x & (size - 1)` is the remainder when the size is a power of two. */
  lemma {:induction false} MaskIsMod(x: nat, k: nat)
    ensures And(x, Pow2(k) - 1) == x % Pow2(k)
  {
    hide And;
    if k == 0 {
      assert And(x, 0) == 0;
    } else {
      var p := Pow2(k - 1);
      MaskIsMod(x / 2, k - 1);
      AndOdd(x, p);
      HalfMod(x, p);
    }
  }

  lemma HalfMod(x: nat, p: nat)
    requires p > 0
    ensures x % (2 * p) == 2 * ((x / 2) % p) + x % 2
  {
    var q, r := (x / 2) / p, (x / 2) % p;
    assert x / 2 == p * q + r;
    assert x == (2 * p) * q + (2 * r + x % 2);
    ModUnique(x, 2 * p, q, 2 * r + x % 2);
  }

  lemma ModUnique(n: nat, m: nat, q: int, r: nat)
    requires m > 0 && n == m * q + r && r < m
    ensures n % m == r && n / m == q
  {
    assert n == m * (n / m) + n % m;
    assert m * (n / m - q) == r - n % m;
    MulBound(m, n / m - q);
  }

  predicate IsPowerOf2(n: uint32) {
    n != 0 && And(n, n - 1) == 0
  }

  lemma {:induction false} IsPowerOf2Exact(n: nat)
    requires n > 0
    ensures And(n, n - 1) == 0 <==> PowerOfTwo(n)
  {
    if n == 1 {
      assert n == Pow2(0);
    } else if n % 2 == 1 {
      assert And(n, n - 1) == 2 * And(n / 2, n / 2);
      AndSelf(n / 2);
      forall k: nat ensures n != Pow2(k) { assert k > 0 ==> Pow2(k) % 2 == 0; }
    } else {
      IsPowerOf2Exact(n / 2);
      assert (n - 1) / 2 == n / 2 - 1;
      if PowerOfTwo(n / 2) {
        var k: nat :| n / 2 == Pow2(k);
        assert n == Pow2(k + 1);
      }
      if PowerOfTwo(n) {
        var k: nat :| n == Pow2(k);
        assert n / 2 == Pow2(k - 1);
      }
    }
  }

  lemma {:induction false} AndSelf(x: nat)
    ensures And(x, x) == x
  {
    if x > 0 { AndSelf(x / 2); }
  }

  lemma {:induction false} Pow2Monotone(j: nat, k: nat)
    requires j < k
    ensures 2 * Pow2(j) <= Pow2(k)
    decreases k
  {
    if j < k - 1 { Pow2Monotone(j, k - 1); }
  }

  /** The least power of two above `a`; for 0 it is 0.  From 2^30 on the shift in the source no
      longer fits its int. */
  method RoundupPowerOf2(a: uint32) returns (r: uint32)
    requires a < 0x4000_0000
    ensures a == 0 ==> r == 0
    ensures a > 0 ==> PowerOfTwo(r) && r / 2 <= a < r
  {
    if a == 0 {
      return 0;
    }
    var position: nat := 0;
    var i: int := a;
    while i != 0
      invariant 0 <= i
      invariant i * Pow2(position) <= a < (i + 1) * Pow2(position)
      invariant i == 0 ==> position > 0 && Pow2(position - 1) <= a
      decreases i
    {
      ShiftStep(a, i, position);
      i := i / 2;
      position := position + 1;
    }
    assert Pow2(position) == 2 * Pow2(position - 1);
    r := Pow2(position);
  }

  lemma ShiftStep(a: nat, i: nat, position: nat)
    requires i > 0 && i * Pow2(position) <= a < (i + 1) * Pow2(position)
    ensures (i / 2) * Pow2(position + 1) <= a < (i / 2 + 1) * Pow2(position + 1)
    ensures i / 2 == 0 ==> Pow2(position) <= a
  {
    var p, h := Pow2(position), i / 2;
    assert h * (2 * p) == (2 * h) * p && (h + 1) * (2 * p) == (2 * h + 2) * p;
    MulMonotone(2 * h, i, p);
    MulMonotone(i + 1, 2 * h + 2, p);
    if h == 0 { assert i * p == p; }
  }

  lemma MulMonotone(x: nat, y: nat, p: nat)
    requires x <= y
    ensures x * p <= y * p
  {
  }

  /** Not already a power of two: then it is the least one not below `a`. */
  lemma RoundupIsLeast(a: nat, r: nat, other: nat)
    requires a > 0 && !PowerOfTwo(a) && PowerOfTwo(r) && r / 2 <= a < r
    requires PowerOfTwo(other) && a <= other
    ensures r <= other
  {
    var j: nat :| r == Pow2(j);
    var k: nat :| other == Pow2(k);
    assert other != a;
    if k < j { Pow2Monotone(k, j); }
    if j < k { Pow2Monotone(j, k); }
  }

  // ---- Slots ----

  /** The slot of the byte `i` places after a counter value. */
  function Slot(counter: int, i: int, size: nat): (k: nat)
    requires size > 0
    ensures k < size
  {
    (counter + i) % size
  }

  /** A size is a power of two that fits 32 bits, so it divides 2^32. */
  lemma SizeDivides(size: nat) returns (q: nat)
    requires PowerOfTwo(size) && size < TWO32
    ensures TWO32 == size * q
  {
    var k: nat :| size == Pow2(k);
    assert Pow2(32) == TWO32 by {
      assert Pow2(8) == 256;
      Pow2Split(8, 8);
      Pow2Split(16, 16);
    }
    if k > 32 { Pow2Monotone(32, k); }
    Pow2Split(k, 32 - k);
    q := Pow2(32 - k);
  }

  lemma {:induction false} Pow2Split(j: nat, k: nat)
    ensures Pow2(j + k) == Pow2(j) * Pow2(k)
  {
    if j == 0 {
      assert Pow2(0) == 1;
    } else {
      Pow2Split(j - 1, k);
      calc {
        Pow2(j + k);
        2 * Pow2(j - 1 + k);
        2 * (Pow2(j - 1) * Pow2(k));
        { Associate(2, Pow2(j - 1), Pow2(k)); }
        (2 * Pow2(j - 1)) * Pow2(k);
        Pow2(j) * Pow2(k);
      }
    }
  }

  lemma Associate(x: int, y: int, z: int)
    ensures x * (y * z) == (x * y) * z
  {
  }

  lemma ModShift(x: int, c: int, size: nat)
    requires size > 0
    ensures (x + size * c) % size == x % size
  {
    assert x == size * (x / size) + x % size;
    assert x + size * c == size * (x / size + c) + x % size;
    var n := x + size * c;
    assert n == size * (n / size) + n % size;
    assert size * (n / size - (x / size + c)) == x % size - n % size;
    MulBound(size, n / size - (x / size + c));
  }

  /** Wrapping a counter does not change the slots counted from it. */
  lemma WrapKeepsSlots(x: int, i: int, size: nat)
    requires PowerOfTwo(size) && size < TWO32
    ensures Slot(Wrap(x), i, size) == Slot(x, i, size)
  {
    var q := SizeDivides(size);
    var c := x / TWO32;
    assert x == TWO32 * c + Wrap(x);
    assert size * (q * c) == (size * q) * c;
    assert x + i == (Wrap(x) + i) + size * (q * c);
    ModShift(Wrap(x) + i, q * c, size);
  }

  /** Fewer than `size` places apart: different slots. */
  lemma SlotsDiffer(x: int, i: nat, j: nat, size: nat)
    requires size > 0 && i < j < i + size
    ensures Slot(x, i, size) != Slot(x, j, size)
  {
    var a, b := x + i, x + j;
    assert a == size * (a / size) + a % size && b == size * (b / size) + b % size;
    assert size * (b / size - a / size) == (j - i) - (b % size - a % size);
    MulBound(size, b / size - a / size);
  }

  /** Counting on from a counter: straight on to the end of the array, then from its start. */
  lemma SlotSplits(x: nat, j: nat, size: nat)
    requires size > 0 && j < size
    ensures var off := x % size; Slot(x, j, size) == if off + j < size then off + j else off + j - size
  {
    var off := x % size;
    assert x == size * (x / size) + off;
    if off + j < size {
      ModUnique(x + j, size, x / size, off + j);
    } else {
      assert size * (x / size + 1) == size * (x / size) + size;
      ModUnique(x + j, size, x / size + 1, off + j - size);
    }
  }

  // ---- The buffer ----

  class BaseSingleRingBufferData {
    var in_ptr: uint32
    var out_ptr: uint32
    var data: array<byte>
    var size: uint32

    /** Only the difference of the counters matters, modulo 2^32. */
    ghost predicate Valid()
      reads this
    {
      && data.Length == size
      && (size == 0 || PowerOfTwo(size))
      && Used() <= size
    }

    function Used(): uint32
      reads this
    {
      Wrap(in_ptr - out_ptr)
    }

    /** The FIFO this object stands for. */
    ghost function Contents(): (s: seq<byte>)
      reads this, data
      requires Valid()
      ensures |s| == Used()
      ensures size > 0 ==> forall i :: 0 <= i < |s| ==> s[i] == data[Slot(out_ptr, i, size)]
    {
      ContentsOf(data[..], out_ptr, Used())
    }

    constructor (buffer_size: uint32)
      requires buffer_size < 0x4000_0000 || PowerOfTwo(buffer_size)
      ensures Valid() && Contents() == []
      ensures buffer_size <= size && (PowerOfTwo(buffer_size) ==> size == buffer_size)
      ensures forall n: nat :: PowerOfTwo(n) && buffer_size <= n && buffer_size > 0 ==> size <= n
    {
      hide And, ContentsOf, PowerOfTwo;
      if buffer_size > 0 { IsPowerOf2Exact(buffer_size); }
      in_ptr, out_ptr := 0, 0;
      var n := buffer_size;
      if !IsPowerOf2(buffer_size) {
        n := RoundupPowerOf2(buffer_size);
      }
      data := new byte[n];
      size := n;
      new;
      NoContents(data[..]);
      forall other: nat | PowerOfTwo(other) && buffer_size <= other && buffer_size > 0 ensures size <= other {
        if !PowerOfTwo(buffer_size) { RoundupIsLeast(buffer_size, size, other); }
      }
    }

    /** memcpy into the array. */
    method CopyIn(at: nat, src: seq<byte>)
      requires at + |src| <= data.Length
      modifies data
      ensures forall k :: at <= k < at + |src| ==> data[k] == src[k - at]
      ensures forall k :: 0 <= k < data.Length && !(at <= k < at + |src|) ==> data[k] == old(data[k])
    {
      for i := 0 to |src|
        invariant forall k :: at <= k < at + i ==> data[k] == src[k - at]
        invariant forall k :: 0 <= k < data.Length && !(at <= k < at + i) ==> data[k] == old(data[k])
      {
        data[at + i] := src[i];
      }
    }

    /** `counter & (size_ - 1)` */
    function Masked(counter: uint32): (k: nat)
      reads this
      requires size == 0 || PowerOfTwo(size)
      ensures size > 0 ==> k == counter % size && k < size
    {
      MaskedIs(counter, size);
      And(counter, Wrap(size - 1))
    }

    /** The two memcpy calls of BaseWrite, split at the end of the array: byte j lands in the slot
        j places after in_ptr, and no other slot changes. */
    method Store(src: seq<byte>)
      requires Valid() && |src| <= size
      modifies data
      ensures size > 0 ==> forall j :: 0 <= j < |src| ==> data[Slot(in_ptr, j, size)] == src[j]
      ensures forall k :: 0 <= k < size && (forall j :: 0 <= j < |src| ==> k != Slot(in_ptr, j, size)) ==>
                data[k] == old(data[k])
    {
      hide And, PowerOfTwo, Slot, Wrap;
      if src == [] { return; }
      var off := Masked(in_ptr);
      WrapSmall(size - off);
      var l := if |src| <= Wrap(size - off) then |src| else Wrap(size - off);
      CopyIn(off, src[..l]);
      CopyIn(0, src[l..]);
      forall j | 0 <= j < |src| ensures data[Slot(in_ptr, j, size)] == src[j] {
        SlotSplits(in_ptr, j, size);
      }
      forall k | 0 <= k < size && (forall j :: 0 <= j < |src| ==> k != Slot(in_ptr, j, size))
        ensures data[k] == old(data[k])
      {
        if off <= k < off + l { SlotSplits(in_ptr, k - off, size); }
        if k < |src| - l { SlotSplits(in_ptr, k + l, size); }
      }
    }

    /** Writes as much as fits, and says how much. */
    method BaseWrite(new_data: seq<byte>) returns (len: nat)
      requires Valid() && |new_data| < TWO32
      modifies this`in_ptr, data
      ensures Valid() && len == if |new_data| <= size - old(Used()) then |new_data| else size - old(Used())
      ensures Contents() == old(Contents()) + new_data[..len]
    {
      hide Wrap, Slot, PowerOfTwo, ContentsOf;
      FreeSpace(in_ptr, out_ptr, size);
      var space := Wrap(size - in_ptr + out_ptr);
      len := if |new_data| <= space then |new_data| else space;
      Store(new_data[..len]);
      Grown(old(data[..]), data[..], in_ptr, out_ptr, new_data[..len]);
      InMoves(in_ptr, out_ptr, len);
      in_ptr := Wrap(in_ptr + len);
    }

    /** Reads as much as there is, up to `len`. */
    method BaseRead(len: uint32) returns (read: seq<byte>)
      requires Valid()
      modifies this`out_ptr
      ensures Valid()
      ensures |read| == if len <= old(Used()) then len else old(Used())
      ensures read == old(Contents())[..|read|] && Contents() == old(Contents())[|read|..]
    {
      hide Wrap, Slot, PowerOfTwo, ContentsOf;
      var n := if len <= Used() then len else Used();
      read := Load(n);
      Shrunk(data[..], out_ptr, Used(), n);
      OutMoves(in_ptr, out_ptr, n);
      out_ptr := Wrap(out_ptr + n);
    }

    /** The two memcpy calls of BaseRead. */
    method Load(n: uint32) returns (read: seq<byte>)
      requires Valid() && n <= Used()
      ensures read == Contents()[..n]
    {
      hide Wrap, Slot, PowerOfTwo, ContentsOf, And;
      if n == 0 { return []; }
      var off := Masked(out_ptr);
      assert Wrap(size - off) == size - off by { WrapSmall(size - off); }
      var l := if n <= Wrap(size - off) then n else Wrap(size - off);
      read := data[off..off + l] + data[..n - l];
      forall j | 0 <= j < n ensures read[j] == Contents()[j] {
        SlotSplits(out_ptr, j, size);
      }
    }

    method MoveOut(len: uint32) returns (n: uint32)
      requires Valid()
      modifies this`out_ptr
      ensures Valid() && n == if len <= old(Used()) then len else old(Used())
      ensures Contents() == old(Contents())[n..]
    {
      hide Wrap, Slot, PowerOfTwo, ContentsOf;
      n := if len <= Used() then len else Used();
      Shrunk(data[..], out_ptr, Used(), n);
      OutMoves(in_ptr, out_ptr, n);
      out_ptr := Wrap(out_ptr + n);
    }

    /** Claims bytes that are already in the array, behind what is there. */
    method MoveIn(len: uint32) returns (n: uint32)
      requires Valid()
      modifies this`in_ptr
      ensures Valid() && n == if len <= size - old(Used()) then len else size - old(Used())
      ensures |Contents()| == |old(Contents())| + n && old(Contents()) <= Contents()
    {
      hide Wrap, Slot, PowerOfTwo;
      FreeSpace(in_ptr, out_ptr, size);
      var space := Wrap(size - in_ptr + out_ptr);
      n := if len <= space then len else space;
      InMoves(in_ptr, out_ptr, n);
      in_ptr := Wrap(in_ptr + n);
    }
  }

  lemma WrapSmall(x: nat)
    requires x < TWO32
    ensures Wrap(x) == x
  {
  }

  /** The unsigned difference the source computes is the free space, wherever the counters are. */
  lemma FreeSpace(in_ptr: uint32, out_ptr: uint32, size: uint32)
    requires Wrap(in_ptr - out_ptr) <= size
    ensures Wrap(size - in_ptr + out_ptr) == size - Wrap(in_ptr - out_ptr)
  {
  }

  lemma InMoves(in_ptr: uint32, out_ptr: uint32, n: nat)
    requires Wrap(in_ptr - out_ptr) + n < TWO32
    ensures Wrap(Wrap(in_ptr + n) - out_ptr) == Wrap(in_ptr - out_ptr) + n
  {
  }

  lemma OutMoves(in_ptr: uint32, out_ptr: uint32, n: nat)
    requires n <= Wrap(in_ptr - out_ptr)
    ensures Wrap(in_ptr - Wrap(out_ptr + n)) == Wrap(in_ptr - out_ptr) - n
  {
  }

  /** Counting from a moved out_ptr is counting further from the old one. */
  lemma Shrunk(data: seq<byte>, out: uint32, used: nat, n: nat)
    requires n <= used <= |data| < TWO32 && (|data| == 0 || PowerOfTwo(|data|))
    ensures ContentsOf(data, Wrap(out + n), used - n) == ContentsOf(data, out, used)[n..]
  {
    hide Wrap, PowerOfTwo;
    var moved, behind := ContentsOf(data, Wrap(out + n), used - n), ContentsOf(data, out, used)[n..];
    forall i | 0 <= i < used - n ensures moved[i] == behind[i] {
      WrapKeepsSlots(out + n, i, |data|);
    }
  }

  /** Bytes stored behind the content extend it. */
  lemma Grown(before: seq<byte>, after: seq<byte>, in_ptr: uint32, out_ptr: uint32, src: seq<byte>)
    requires |before| == |after| < TWO32 && (|after| == 0 || PowerOfTwo(|after|))
    requires Wrap(in_ptr - out_ptr) + |src| <= |after|
    requires |after| > 0 ==> forall j :: 0 <= j < |src| ==> after[Slot(in_ptr, j, |after|)] == src[j]
    requires forall k :: 0 <= k < |after| && (forall j :: 0 <= j < |src| ==> k != Slot(in_ptr, j, |after|)) ==>
               after[k] == before[k]
    ensures ContentsOf(after, out_ptr, Wrap(in_ptr - out_ptr) + |src|) ==
            ContentsOf(before, out_ptr, Wrap(in_ptr - out_ptr)) + src
  {
    hide Wrap, PowerOfTwo, Slot, ContentsOf;
    if |after| == 0 {
      assert src == [];
    } else {
      WrittenBehind(|after|, in_ptr, out_ptr, |src|);
      var used := Wrap(in_ptr - out_ptr);
      var grown, old_ := ContentsOf(after, out_ptr, used + |src|), ContentsOf(before, out_ptr, used);
      forall i | 0 <= i < used + |src| ensures grown[i] == (old_ + src)[i] {
        if i >= used { assert Slot(in_ptr, i - used, |after|) == Slot(out_ptr, used + (i - used), |after|); }
      }
    }
  }

  lemma SlotShift(x: int, u: int, j: int, size: nat)
    requires size > 0
    ensures Slot(x + u, j, size) == Slot(x, u + j, size)
  {
  }

  lemma InIsAhead(in_ptr: uint32, out_ptr: uint32)
    ensures in_ptr == Wrap(out_ptr + Wrap(in_ptr - out_ptr))
  {
  }

  /** The slots written behind the content are counted from out_ptr as the content is, and are
      none of those in use. */
  lemma WrittenBehind(size: uint32, in_ptr: uint32, out_ptr: uint32, len: nat)
    requires PowerOfTwo(size) && Wrap(in_ptr - out_ptr) + len <= size
    ensures forall j :: 0 <= j < len ==> Slot(in_ptr, j, size) == Slot(out_ptr, Wrap(in_ptr - out_ptr) + j, size)
    ensures forall i, j :: 0 <= i < Wrap(in_ptr - out_ptr) && 0 <= j < len ==>
              Slot(out_ptr, i, size) != Slot(in_ptr, j, size)
  {
    hide PowerOfTwo, Slot;
    var used := Wrap(in_ptr - out_ptr);
    InIsAhead(in_ptr, out_ptr);
    forall j | 0 <= j < len ensures Slot(in_ptr, j, size) == Slot(out_ptr, used + j, size) {
      WrapKeepsSlots(out_ptr + used, j, size);
      SlotShift(out_ptr, used, j, size);
    }
    forall i, j | 0 <= i < used && 0 <= j < len ensures Slot(out_ptr, i, size) != Slot(in_ptr, j, size) {
      SlotsDiffer(out_ptr, i, used + j, size);
    }
  }

  function ContentsOf(data: seq<byte>, out: uint32, used: nat): (s: seq<byte>)
    requires used <= |data|
    ensures |s| == used
    ensures |data| > 0 ==> forall i :: 0 <= i < |s| ==> s[i] == data[Slot(out, i, |data|)]
  {
    if used == 0 then [] else ContentsOf(data, out, used - 1) + [data[Slot(out, used - 1, |data|)]]
  }

  lemma NoContents(data: seq<byte>)
    ensures ContentsOf(data, 0, 0) == []
  {
  }

  lemma MaskedIs(counter: uint32, size: uint32)
    requires size == 0 || PowerOfTwo(size)
    ensures size > 0 ==> And(counter, Wrap(size - 1)) == counter % size
  {
    hide And, Wrap, Pow2;
    if size > 0 {
      WrapSmall(size - 1);
      var k: nat :| size == Pow2(k);
      MaskIsMod(counter, k);
    }
  }
}
