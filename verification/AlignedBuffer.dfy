/** The write buffer of the WAL: memory whose size is always a multiple of the alignment,
    appended to by producers, emptied by the worker, and given back what could not be
    written. */
module AlignedBuffer {
  import opened Bytes

  const ALIGNMENT: nat := 4096

  /** The least multiple of the alignment that is not below `value`. */
  function RoundUp(value: nat): (r: nat)
    ensures r % ALIGNMENT == 0 && value <= r < value + ALIGNMENT
  {
    (value + ALIGNMENT - 1) / ALIGNMENT * ALIGNMENT
  }

  /** What `take` hands out: the memory itself, with the bytes up to `paddedLen` written. */
  class TakenBuffer {
    const memory: array<byte>
    const logicalLen: nat
    const paddedLen: nat

    ghost predicate Valid() reads this { logicalLen <= paddedLen <= memory.Length }

    constructor (memory: array<byte>, logicalLen: nat, paddedLen: nat)
      requires logicalLen <= paddedLen <= memory.Length
      ensures Valid() && this.memory == memory && this.logicalLen == logicalLen && this.paddedLen == paddedLen
    {
      this.memory := memory;
      this.logicalLen := logicalLen;
      this.paddedLen := paddedLen;
    }
  }

  class Buffer {
    var memory: array<byte>
    var len: nat
    const baseCapacity: nat

    ghost predicate Valid()
      reads this
    {
      && len <= memory.Length
      && 0 < baseCapacity <= memory.Length
      && baseCapacity % ALIGNMENT == 0 && memory.Length % ALIGNMENT == 0
    }

    ghost function Contents(): Bytes
      requires Valid()
      reads this, memory
    {
      memory[..len]
    }

    /** `with_capacity`: at least one alignment unit. */
    constructor (capacity: nat)
      ensures Valid() && fresh(memory) && Contents() == []
      ensures memory.Length == baseCapacity == RoundUp(Max(capacity, ALIGNMENT))
    {
      var size := RoundUp(Max(capacity, ALIGNMENT));
      memory := new byte[size](_ => 0);
      len := 0;
      baseCapacity := size;
    }

    /** Make room for `required` bytes; the contents stay. */
    method Grow(required: nat)
      requires Valid() && len <= required
      modifies this`memory
      ensures Valid() && fresh(memory) && memory.Length >= required
      ensures memory.Length == RoundUp(Max(required, 2 * old(memory.Length)))
      ensures Contents() == old(Contents())
    {
      var larger := new byte[RoundUp(Max(required, 2 * memory.Length))](_ => 0);
      for i := 0 to len
        invariant memory == old(memory) && len <= larger.Length
        invariant larger[..i] == memory[..i]
        invariant memory[..len] == old(memory[..len])
      {
        larger[i] := memory[i];
      }
      memory := larger;
    }

    /** Copy `data` over the memory from `from` on; nothing else changes. */
    method CopyIn(from: nat, data: Bytes)
      requires from + |data| <= memory.Length
      modifies memory
      ensures memory[..from] == old(memory[..from])
      ensures memory[from..from + |data|] == data
      ensures memory[from + |data|..] == old(memory[from + |data|..])
    {
      for i := 0 to |data|
        invariant forall j :: 0 <= j < i ==> memory[from + j] == data[j]
        invariant forall j :: 0 <= j < from || from + i <= j < memory.Length ==> memory[j] == old(memory[j])
      {
        memory[from + i] := data[i];
      }
    }

    /** Append. */
    method Extend(data: Bytes)
      requires Valid()
      modifies this`memory, this`len, memory
      ensures Valid() && (memory == old(memory) || fresh(memory))
      ensures Contents() == old(Contents()) + data
    {
      var required := len + |data|;
      if required > memory.Length { Grow(required); }
      CopyIn(len, data);
      assert memory[..required] == memory[..len] + memory[len..required];
      len := required;
    }

    /** Put bytes in front of everything that has arrived meanwhile. */
    method Prepend(data: Bytes)
      requires Valid()
      modifies this`memory, this`len, memory
      ensures Valid() && (memory == old(memory) || fresh(memory))
      ensures Contents() == data + old(Contents())
    {
      if data == [] { return; }
      var required := len + |data|;
      if required > memory.Length { Grow(required); }
      ghost var before := Contents();
      ShiftUp(|data|);
      ghost var shifted := memory[..];
      assert shifted[|data|..required] == before;
      CopyIn(0, data);
      PutInFront(memory[..], shifted, data, before);
      len := required;
    }

    /** The overlapping copy of `prepend`: move the contents up by `shift`, last byte first. */
    method ShiftUp(shift: nat)
      requires Valid() && len + shift <= memory.Length
      modifies memory
      ensures memory[shift..shift + len] == old(memory[..len])
    {
      var i := len;
      while i > 0
        invariant 0 <= i <= len
        invariant forall j :: i <= j < len ==> memory[shift + j] == old(memory[j])
        invariant forall j :: 0 <= j < i ==> memory[j] == old(memory[j])
      {
        i := i - 1;
        memory[shift + i] := memory[i];
      }
    }

    /** Hand out the contents, padded with zeros to the alignment, and start over with fresh
        memory of the base capacity. An empty buffer hands out nothing. */
    method Take() returns (taken: TakenBuffer)
      requires Valid()
      modifies this`memory, this`len, memory
      ensures Valid() && Contents() == [] && fresh(taken)
      ensures taken.Valid() && taken.logicalLen == old(len) && taken.paddedLen == RoundUp(old(len))
      ensures taken.memory[..taken.logicalLen] == old(Contents())
      ensures taken.memory[..taken.paddedLen] == old(Contents()) + Zeros(taken.paddedLen - taken.logicalLen)
      ensures taken.memory != memory && (old(len) > 0 ==> fresh(memory) && memory.Length == baseCapacity)
    {
      if len == 0 {
        var nothing := new byte[0];
        taken := new TakenBuffer(nothing, 0, 0);
        return;
      }
      var handed, logical, padded := memory, len, RoundUp(len);
      PaddingFits(len, memory.Length);
      for i := logical to padded
        invariant handed[..logical] == old(memory[..len])
        invariant forall j :: logical <= j < i ==> handed[j] == 0
      {
        handed[i] := 0;
      }
      assert handed[..padded] == handed[..logical] + Zeros(padded - logical);
      memory := new byte[baseCapacity](_ => 0);
      len := 0;
      taken := new TakenBuffer(handed, logical, padded);
    }
  }

  lemma PutInFront(now: Bytes, shifted: Bytes, data: Bytes, before: Bytes)
    requires |data| + |before| <= |shifted| == |now|
    requires shifted[|data|..|data| + |before|] == before
    requires now[..|data|] == data && now[|data|..] == shifted[|data|..]
    ensures now[..|data| + |before|] == data + before
  {
    var end := |data| + |before|;
    SliceJoin(now, 0, |data|, end);
    assert now[|data|..end] == now[|data|..][..|before|];
    assert shifted[|data|..end] == shifted[|data|..][..|before|];
  }

  /** Because sizes are multiples of the alignment, the padding never leaves the memory. */
  lemma PaddingFits(len: nat, size: nat)
    requires len <= size && size % ALIGNMENT == 0
    ensures RoundUp(len) <= size
  {}
}
