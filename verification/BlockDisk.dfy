/** The two block devices: the inserter's image in memory, and the ATA drive behind its ports. */
module BlockDisk {
  import opened Bytes
  import opened StdMem

  /** The bytes of count blocks from block lba. */
  function Blocks(image: seq<Byte>, lba: nat, count: nat): (b: seq<Byte>)
    requires 512 * (lba + count) <= |image|
    ensures |b| == 512 * count
  {
    image[512 * lba..512 * (lba + count)]
  }

  /** Blocks read back after they were written hold what was written; blocks beside them are as before. */
  lemma {:induction false} ReadBack(image: seq<Byte>, lba: nat, data: seq<Byte>, other: nat, count: nat)
    requires |data| % 512 == 0 && 512 * lba + |data| <= |image| && 512 * (other + count) <= |image|
    ensures Blocks(Patch(image, 512 * lba, data), lba, |data| / 512) == data
    ensures other + count <= lba || lba + |data| / 512 <= other ==>
      Blocks(Patch(image, 512 * lba, data), other, count) == Blocks(image, other, count)
  {
    var after := Patch(image, 512 * lba, data);
    var n := |data| / 512;
    assert |data| == 512 * n;
    assert Blocks(after, lba, n) == data;
    if other + count <= lba || lba + n <= other {
      assert Blocks(after, other, count) == Blocks(image, other, count);
    }
  }

  method ReadBlocks(image: array<Byte>, ptr: array<Byte>, lba: nat, count: Byte)
    requires image != ptr
    requires 512 * (lba + count) <= image.Length && 512 * count <= ptr.Length
    modifies ptr
    ensures ptr[..] == Patch(old(ptr[..]), 0, Blocks(image[..], lba, count))
  {
    for i := 0 to count
      invariant forall k | 0 <= k < ptr.Length ::
        ptr[k] == if k < 512 * i then image[512 * lba + k] else old(ptr[k])
    {
      MemCpy(ptr, 512 * i, image[512 * (lba + i)..512 * (lba + i) + 512], 512);
    }
  }

  method WriteBlocks(image: array<Byte>, ptr: array<Byte>, lba: nat, count: Byte)
    requires image != ptr
    requires 512 * (lba + count) <= image.Length && 512 * count <= ptr.Length
    modifies image
    ensures image[..] == Patch(old(image[..]), 512 * lba, ptr[..512 * count])
  {
    for i := 0 to count
      invariant forall k | 0 <= k < image.Length ::
        image[k] == if 512 * lba <= k < 512 * (lba + i) then ptr[k - 512 * lba] else old(image[k])
    {
      MemCpy(image, 512 * (lba + i), ptr[512 * i..512 * i + 512], 512);
    }
  }

  datatype Transfer = Idle | Reading | Writing

  /** An ATA drive in 28-bit PIO mode, always ready: the task-file registers, and a data port
      that moves one 16-bit word at a time to or from consecutive bytes of the medium. */
  class AtaDrive {
    const medium: array<Byte>
    var head: Byte
    var sectors: Byte
    var lbaLow: Byte
    var lbaMid: Byte
    var lbaHigh: Byte
    var mode: Transfer
    var position: nat
    var wordsLeft: nat

    constructor (medium: array<Byte>)
      ensures this.medium == medium && mode == Idle
    {
      this.medium := medium;
      head, sectors, lbaLow, lbaMid, lbaHigh := 0, 0, 0, 0, 0;
      mode, position, wordsLeft := Idle, 0, 0;
    }

    /** The 28-bit block address that the four address registers hold. */
    function Address(): nat
      reads this
    {
      head % 0x10 * 0x100_0000 + lbaHigh * 0x1_0000 + lbaMid * 0x100 + lbaLow
    }

    /** A write to a control port; a command starts a transfer at the addressed block. */
    method Out(port: Word, data: Byte)
      modifies this
      ensures head == if port == 0x1F6 then data else old(head)
      ensures sectors == if port == 0x1F2 then data else old(sectors)
      ensures lbaLow == if port == 0x1F3 then data else old(lbaLow)
      ensures lbaMid == if port == 0x1F4 then data else old(lbaMid)
      ensures lbaHigh == if port == 0x1F5 then data else old(lbaHigh)
      ensures port == 0x1F7 && (data == 0x20 || data == 0x30) ==>
        && mode == (if data == 0x20 then Reading else Writing)
        && position == 512 * Address()
        && wordsLeft == 256 * (if sectors == 0 then 256 else sectors)
      ensures !(port == 0x1F7 && (data == 0x20 || data == 0x30)) ==>
        mode == old(mode) && position == old(position) && wordsLeft == old(wordsLeft)
    {
      if port == 0x1F6 {
        head := data;
      } else if port == 0x1F2 {
        sectors := data;
      } else if port == 0x1F3 {
        lbaLow := data;
      } else if port == 0x1F4 {
        lbaMid := data;
      } else if port == 0x1F5 {
        lbaHigh := data;
      } else if port == 0x1F7 && (data == 0x20 || data == 0x30) {
        mode := if data == 0x20 then Reading else Writing;
        position := 512 * Address();
        wordsLeft := 256 * (if sectors == 0 then 256 else sectors);
      }
    }

    method In16() returns (w: Word)
      requires mode == Reading && 0 < wordsLeft && position + 2 <= medium.Length
      modifies this`mode, this`position, this`wordsLeft
      ensures w == U16(medium[old(position)], medium[old(position) + 1])
      ensures position == old(position) + 2 && wordsLeft == old(wordsLeft) - 1
      ensures mode == if wordsLeft == 0 then Idle else Reading
    {
      w := U16(medium[position], medium[position + 1]);
      Advance();
    }

    method Out16(w: Word)
      requires mode == Writing && 0 < wordsLeft && position + 2 <= medium.Length
      modifies this`mode, this`position, this`wordsLeft, medium
      ensures medium[..] == Patch(old(medium[..]), old(position), [w % 0x100, w / 0x100])
      ensures position == old(position) + 2 && wordsLeft == old(wordsLeft) - 1
      ensures mode == if wordsLeft == 0 then Idle else Writing
    {
      medium[position] := w % 0x100;
      medium[position + 1] := w / 0x100;
      Advance();
    }

    method Advance()
      requires 0 < wordsLeft
      modifies this`mode, this`position, this`wordsLeft
      ensures position == old(position) + 2 && wordsLeft == old(wordsLeft) - 1
      ensures mode == if wordsLeft == 0 then Idle else old(mode)
    {
      position := position + 2;
      wordsLeft := wordsLeft - 1;
      if wordsLeft == 0 {
        mode := Idle;
      }
    }

    /** The register writes that both block routines start with. */
    method Start(lba: DWord, count: Byte, command: Byte)
      requires command == 0x20 || command == 0x30
      modifies this
      ensures mode == (if command == 0x20 then Reading else Writing)
      ensures position == 512 * (lba % 0x1000_0000)
      ensures wordsLeft == 256 * (if count == 0 then 256 else count)
    {
      Out(0x1F6, 0xE0 + lba / 0x100_0000 % 0x10);
      Out(0x1F2, count);
      Out(0x1F3, lba % 0x100);
      Out(0x1F4, lba / 0x100 % 0x100);
      Out(0x1F5, lba / 0x1_0000 % 0x100);
      AddressRecomposed(lba);
      Out(0x1F7, command);
    }

    /** The word loop ends on the same bytes as the copy of the image in memory, for an address
        that fits the drive's 28 bits; higher address bits never reach the drive. */
    method ReadBlocks(ptr: array<Byte>, lba: DWord, count: Byte)
      requires medium != ptr
      requires 512 * (lba % 0x1000_0000 + count) <= medium.Length && 512 * count <= ptr.Length
      modifies this, ptr
      ensures ptr[..] == Patch(old(ptr[..]), 0, Blocks(medium[..], lba % 0x1000_0000, count))
      ensures count != 0 ==> mode == Idle
    {
      Start(lba, count, 0x20);
      ghost var base := position;
      var target: nat := 0;
      for i := 0 to count
        invariant target == 256 * i
        invariant At(base, target, 256 * count, Reading) || count == 0
        invariant forall k | 0 <= k < ptr.Length ::
          ptr[k] == if k < 2 * target then medium[base + k] else old(ptr[k])
      {
        for j := 0 to 256
          invariant At(base, target + j, 256 * count, Reading)
          invariant forall k | 0 <= k < ptr.Length ::
            ptr[k] == if k < 2 * (target + j) then medium[base + k] else old(ptr[k])
        {
          var w := In16();
          ptr[2 * (target + j)], ptr[2 * (target + j) + 1] := w % 0x100, w / 0x100;
        }
        target := target + 256;
      }
    }

    method WriteBlocks(ptr: array<Byte>, lba: DWord, count: Byte)
      requires medium != ptr
      requires 512 * (lba % 0x1000_0000 + count) <= medium.Length && 512 * count <= ptr.Length
      modifies this, medium
      ensures medium[..] == Patch(old(medium[..]), 512 * (lba % 0x1000_0000), ptr[..512 * count])
      ensures count != 0 ==> mode == Idle
    {
      Start(lba, count, 0x30);
      ghost var base := position;
      for i := 0 to count
        invariant At(base, 256 * i, 256 * count, Writing) || count == 0
        invariant forall k | 0 <= k < medium.Length ::
          medium[k] == if base <= k < base + 512 * i then ptr[k - base] else old(medium[k])
      {
        for j := 0 to 256
          invariant At(base, 256 * i + j, 256 * count, Writing)
          invariant forall k | 0 <= k < medium.Length ::
            medium[k] == if base <= k < base + 2 * (256 * i + j) then ptr[k - base] else old(medium[k])
        {
          var k := 256 * i + j;
          Out16(U16(ptr[2 * k], ptr[2 * k + 1]));
        }
      }
    }

    /** k of n words have gone through the data port since the transfer began at byte base. */
    ghost predicate At(base: nat, k: nat, n: nat, direction: Transfer)
      reads this
    {
      && k <= n
      && position == base + 2 * k
      && wordsLeft == n - k
      && mode == (if k < n then direction else Idle)
    }
  }

  lemma {:induction false} AddressParts(x: nat, high: nat, mid: nat, low: nat)
    requires mid < 0x100 && low < 0x1_0000 && x == 0x100_0000 * high + 0x1_0000 * mid + low
    ensures x / 0x100_0000 == high && x / 0x1_0000 == 0x100 * high + mid
  {
  }

  lemma {:induction false} AddressLow(x: nat, high: nat, low: nat)
    requires low < 0x1000_0000 && x == 0x1000_0000 * high + low
    ensures x % 0x1000_0000 == low
  {
  }

  /** The four address bytes that the driver sends put the low 28 bits of the block number together again. */
  lemma {:induction false} AddressRecomposed(lba: DWord)
    ensures (0xE0 + lba / 0x100_0000 % 0x10) % 0x10 * 0x100_0000 + lba / 0x1_0000 % 0x100 * 0x1_0000
            + lba / 0x100 % 0x100 * 0x100 + lba % 0x100 == lba % 0x1000_0000
  {
    var q1, r0 := lba / 0x100, lba % 0x100;
    var q2, r1 := q1 / 0x100, q1 % 0x100;
    var q3, r2 := q2 / 0x100, q2 % 0x100;
    var q4, r3 := q3 / 0x10, q3 % 0x10;
    AddressParts(lba, q3, r2, 0x100 * r1 + r0);
    AddressLow(lba, q4, 0x100_0000 * r3 + 0x1_0000 * r2 + 0x100 * r1 + r0);
    assert (0xE0 + r3) % 0x10 == r3 && (0x100 * q3 + r2) % 0x100 == r2;
  }
}
