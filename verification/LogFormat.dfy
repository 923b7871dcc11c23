/** The log file format: 32 KB blocks of physical records, a record split into fragments where
    it does not fit. The checksum function is a parameter. */
module LogFormat {
  import opened Keys
  import opened Coding

  const BLOCK_SIZE: nat := 32768
  const HEADER_SIZE: nat := 7

  const ZERO_TYPE: byte := 0
  const FULL_TYPE: byte := 1
  const FIRST_TYPE: byte := 2
  const MIDDLE_TYPE: byte := 3
  const LAST_TYPE: byte := 4

  type Checksum = Bytes -> Word

  function TypeOf(begin: bool, end: bool): byte {
    if begin && end then FULL_TYPE else if begin then FIRST_TYPE else if end then LAST_TYPE else MIDDLE_TYPE
  }

  function Physical(crc: Checksum, t: byte, payload: Bytes): (r: Bytes)
    requires |payload| <= 0xffff
    ensures |r| == HEADER_SIZE + |payload|
  {
    Fixed32(Mask(crc([t] + payload))) + [|payload| % 256, |payload| / 256, t] + payload
  }

  function Zeros(n: nat): (r: Bytes)
    ensures |r| == n
  {
    seq(n, _ => 0)
  }

  // The trailer that a header at file offset n has to step over.
  function Padding(n: nat): nat {
    if BLOCK_SIZE - n % BLOCK_SIZE < HEADER_SIZE then BLOCK_SIZE - n % BLOCK_SIZE else 0
  }

  // The payload that still fits into the block that the next header goes to.
  function Room(n: nat): (r: nat)
    ensures r <= BLOCK_SIZE - HEADER_SIZE
  {
    if Padding(n) > 0 then BLOCK_SIZE - HEADER_SIZE else BLOCK_SIZE - n % BLOCK_SIZE - HEADER_SIZE
  }

  function FragmentLength(n: nat, left: nat): (r: nat)
    ensures r <= left && r <= BLOCK_SIZE - HEADER_SIZE
  {
    if left < Room(n) then left else Room(n)
  }

  lemma RoomFacts(n: nat)
    ensures Room(n) == 0 <==> n % BLOCK_SIZE == BLOCK_SIZE - HEADER_SIZE
    ensures (n + Padding(n)) % BLOCK_SIZE + HEADER_SIZE + Room(n) == BLOCK_SIZE
  {
  }

  // After a fragment without room for any payload the next one starts a block.
  lemma RoomAfterEmpty(n: nat)
    requires Room(n) == 0
    ensures Room(n + Padding(n) + HEADER_SIZE) > 0
  {
  }

  // One fragment as it appears in the file at offset n, with the trailer before it.
  function Fragment(crc: Checksum, n: nat, data: Bytes, begin: bool): (r: Bytes)
    ensures |r| == Padding(n) + HEADER_SIZE + FragmentLength(n, |data|)
  {
    var k := FragmentLength(n, |data|);
    Zeros(Padding(n)) + Physical(crc, TypeOf(begin, k == |data|), data[..k])
  }

  // A record, or what is left of one, appended to a file of length n.
  function Encode(crc: Checksum, n: nat, data: Bytes, begin: bool): (r: Bytes)
    ensures |r| >= HEADER_SIZE
    decreases |data|, if Room(n) == 0 then 1 else 0
  {
    var k := FragmentLength(n, |data|);
    var f := Fragment(crc, n, data, begin);
    if k == |data| then f
    else
      assert k == 0 ==> Room(n + |f|) > 0 by { if k == 0 { RoomAfterEmpty(n); } }
      f + Encode(crc, n + |f|, data[k..], false)
  }

  // A list of records appended to a file of length n.
  function Log(crc: Checksum, n: nat, records: seq<Bytes>): Bytes
    decreases |records|
  {
    if records == [] then []
    else
      var e := Encode(crc, n, records[0], true);
      e + Log(crc, n + |e|, records[1..])
  }

  // A log may be written in several sessions.
  lemma {:induction false} LogInTwoSessions(crc: Checksum, n: nat, a: seq<Bytes>, b: seq<Bytes>)
    ensures Log(crc, n, a + b) == Log(crc, n, a) + Log(crc, n + |Log(crc, n, a)|, b)
    decreases |a|
  {
    hide Encode;
    if a == [] {
      assert a + b == b;
    } else {
      var m := n + |Encode(crc, n, a[0], true)|;
      assert (a + b)[0] == a[0] && (a + b)[1..] == a[1..] + b;
      LogOfFirst(crc, n, a);
      LogOfFirst(crc, n, a + b);
      hide Log;
      LogInTwoSessions(crc, m, a[1..], b);
    }
  }

  lemma LogOfFirst(crc: Checksum, n: nat, records: seq<Bytes>)
    requires records != []
    ensures var e := Encode(crc, n, records[0], true);
      Log(crc, n, records) == e + Log(crc, n + |e|, records[1..])
  {
  }
}
