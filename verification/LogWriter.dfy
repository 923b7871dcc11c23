/** The log writer. */
module LogWriter {
  import opened Keys
  import opened Coding
  import opened LogFormat

  class Writer {
    const crc: Checksum
    var dest: Bytes
    var blockOffset: nat

    // The offset in the block follows the length of the file, except that a block that has just
    // been filled is left only by the next fragment.
    ghost predicate Valid()
      reads this
    {
      blockOffset == |dest| % BLOCK_SIZE || (blockOffset == BLOCK_SIZE && |dest| % BLOCK_SIZE == 0)
    }

    // Opens a new file, or goes on with one that has contents already.
    constructor (crc: Checksum, dest: Bytes)
      ensures Valid() && this.crc == crc && this.dest == dest
    {
      this.crc, this.dest, this.blockOffset := crc, dest, |dest| % BLOCK_SIZE;
    }

    method AddRecord(slice: Bytes)
      requires Valid()
      modifies this
      ensures Valid() && dest == old(dest) + Encode(crc, |old(dest)|, slice, true)
    {
      hide Encode, Fragment, Physical, Padding, Room, FragmentLength, Zeros, TypeOf;
      var left := slice;
      var begin := true;
      ghost var goal := dest + Encode(crc, |dest|, slice, true);
      while true
        invariant Valid()
        invariant dest + Encode(crc, |dest|, left, begin) == goal
        decreases |left|, if Room(|dest|) == 0 then 1 else 0
      {
        ghost var before, more := dest, left;
        OffsetFacts(|dest|, blockOffset, |left|);
        StepFacts(crc, |dest|, left, begin);
        var leftover := BLOCK_SIZE - blockOffset;
        if leftover < HEADER_SIZE {
          dest := dest + Zeros(leftover);
          blockOffset := 0;
        }
        assert dest == before + Zeros(Padding(|before|));
        var avail := BLOCK_SIZE - blockOffset - HEADER_SIZE;
        var length := if |left| < avail then |left| else avail;
        var end := |left| == length;
        EmitPhysicalRecord(TypeOf(begin, end), left[..length]);
        assert dest == before + Fragment(crc, |before|, more, begin);
        EncodesOn(crc, before, more, begin, goal);
        left := left[length..];
        begin := false;
        if left == [] {
          break;
        }
      }
    }

    method EmitPhysicalRecord(t: byte, payload: Bytes)
      requires blockOffset + HEADER_SIZE + |payload| <= BLOCK_SIZE && blockOffset % BLOCK_SIZE == |dest| % BLOCK_SIZE
      modifies this
      ensures Valid() && blockOffset == old(blockOffset) + HEADER_SIZE + |payload|
      ensures dest == old(dest) + Physical(crc, t, payload)
    {
      hide Fixed32, Mask;
      var header := Fixed32(Mask(crc([t] + payload))) + [|payload| % 256, |payload| / 256, t];
      dest := dest + header;
      dest := dest + payload;
      blockOffset := blockOffset + HEADER_SIZE + |payload|;
    }
  }

  // What is left to write after the next fragment.
  lemma EncodesOn(crc: Checksum, before: Bytes, data: Bytes, begin: bool, goal: Bytes)
    requires before + Encode(crc, |before|, data, begin) == goal
    ensures var k, dest := FragmentLength(|before|, |data|), before + Fragment(crc, |before|, data, begin);
      && (k == |data| ==> dest == goal)
      && (k < |data| ==> dest + Encode(crc, |dest|, data[k..], false) == goal)
  {
    hide Encode, Fragment, FragmentLength;
    StepFacts(crc, |before|, data, begin);
  }

  // What one turn of the loop adds to the file, for any file of length n.
  lemma StepFacts(crc: Checksum, n: nat, data: Bytes, begin: bool)
    ensures var k, f := FragmentLength(n, |data|), Fragment(crc, n, data, begin);
      && f == Zeros(Padding(n)) + Physical(crc, TypeOf(begin, k == |data|), data[..k])
      && (k == |data| ==> Encode(crc, n, data, begin) == f)
      && (k < |data| ==> Encode(crc, n, data, begin) == f + Encode(crc, n + |f|, data[k..], false))
      && (k < |data| ==> k > 0 || (Room(n) == 0 && Room(n + |f|) > 0))
  {
    hide Physical, Padding;
    if Room(n) == 0 {
      RoomAfterEmpty(n);
    }
  }

  // The writer's arithmetic on its block offset.
  lemma OffsetFacts(n: nat, offset: nat, left: nat)
    requires offset == n % BLOCK_SIZE || (offset == BLOCK_SIZE && n % BLOCK_SIZE == 0)
    ensures var leftover := BLOCK_SIZE - offset;
      && FragmentLength(n, left) == (if left < Room(n) then left else Room(n))
      && (leftover < HEADER_SIZE ==>
            && (n + leftover) % BLOCK_SIZE == 0 && Room(n) == BLOCK_SIZE - HEADER_SIZE
            && Zeros(leftover) == Zeros(Padding(n)))
      && (leftover >= HEADER_SIZE ==> Padding(n) == 0 && Room(n) == leftover - HEADER_SIZE && offset % BLOCK_SIZE == n % BLOCK_SIZE)
  {
  }
}
