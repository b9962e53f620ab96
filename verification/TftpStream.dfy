/** The DATA stream of one read request (crates/cluster-netboot/src/tftp.rs). */
module TftpStream {
  import opened Common

  type Bytes = seq<byte>

  const OP_DATA: int := 3
  const OP_ACK: int := 4
  const MAX_RETRIES: nat := 5
  const WRAP: nat := 0x1_0000

  /** The 16-bit number of block k on the wire. */
  function Wire(k: nat): nat {
    k % WRAP
  }

  /** Incrementing the 16-bit counter follows the true block index. */
  lemma WireStep(k: nat)
    ensures Wire(k + 1) == (Wire(k) + 1) % WRAP
  {
  }

  /** Two indices less than a full cycle apart share a wire number only when they are equal. */
  lemma WireInjective(a: nat, b: nat)
    requires a <= b < a + WRAP && Wire(a) == Wire(b)
    ensures a == b
  {
  }

  function Min(a: nat, b: nat): nat {
    if a <= b then a else b
  }

  // ---------------------------------------------------------------- blocks

  /** How much of the file the first k blocks cover. */
  function Covered(file: Bytes, size: nat, k: nat): (n: nat)
    ensures n <= |file|
  {
    if k == 0 then 0 else Min(Covered(file, size, k - 1) + size, |file|)
  }

  /** Block k, counted from 1. */
  function Block(file: Bytes, size: nat, k: nat): Bytes
    requires k >= 1
  {
    file[Covered(file, size, k - 1)..Covered(file, size, k)]
  }

  /** How many blocks a transfer takes; the last one is shorter than the others, possibly empty. */
  function BlockCount(file: Bytes, size: nat): nat
    requires size >= 1
  {
    |file| / size + 1
  }

  function Concat(file: Bytes, size: nat, k: nat): Bytes {
    if k == 0 then [] else Concat(file, size, k - 1) + Block(file, size, k)
  }

  /** Up to the last block every block is full; from then on the file is exhausted. */
  lemma {:induction false} CoveredExactly(file: Bytes, size: nat, k: nat)
    requires size >= 1
    ensures k < BlockCount(file, size) ==> Covered(file, size, k) == k * size <= |file|
    ensures k >= BlockCount(file, size) ==> Covered(file, size, k) == |file|
  {
    if k > 0 {
      CoveredExactly(file, size, k - 1);
      FullBlocks(|file|, size, k);
    }
  }

  lemma FullBlocks(len: nat, size: nat, k: nat)
    requires size >= 1 && k >= 1
    ensures k * size == (k - 1) * size + size
    ensures k <= len / size <==> k * size <= len
  {
    var q := len / size;
    assert q * size <= len < q * size + size;
    if k <= q {
      MultiplyMonotone(k, q, size);
    } else {
      MultiplyMonotone(q + 1, k, size);
    }
  }

  lemma MultiplyMonotone(a: nat, b: nat, size: nat)
    requires a <= b
    ensures a * size <= b * size
  {
  }

  /** Every block before the last is full, and the last has the remaining bytes. */
  lemma BlockLength(file: Bytes, size: nat, k: nat)
    requires size >= 1 && 1 <= k <= BlockCount(file, size)
    ensures |Block(file, size, k)| == if k < BlockCount(file, size) then size else |file| % size
    ensures |Block(file, size, k)| < size <==> k == BlockCount(file, size)
  {
    CoveredExactly(file, size, k - 1);
    CoveredExactly(file, size, k);
    assert |file| % size == |file| - (|file| / size) * size;
  }

  lemma {:induction false} ConcatIsPrefix(file: Bytes, size: nat, k: nat)
    ensures Concat(file, size, k) == file[..Covered(file, size, k)]
  {
    if k > 0 {
      ConcatIsPrefix(file, size, k - 1);
      var a, b := Covered(file, size, k - 1), Covered(file, size, k);
      assert file[..b] == file[..a] + file[a..b];
    }
  }

  /** The L/B + 1 blocks of a transfer concatenate to the file. */
  lemma BlocksMakeTheFile(file: Bytes, size: nat)
    requires size >= 1
    ensures Concat(file, size, BlockCount(file, size)) == file
  {
    ConcatIsPrefix(file, size, BlockCount(file, size));
    CoveredExactly(file, size, BlockCount(file, size));
  }

  // --------------------------------------------------------------- packets

  /** A DATA packet: its number on the wire and its payload. */
  datatype Data = Data(wire: nat, payload: Bytes)

  method BuildDataPacket(d: Data) returns (pkt: Bytes)
    requires d.wire < WRAP
    ensures |pkt| == 4 + |d.payload|
    ensures pkt[0] == 0 && pkt[1] == 3
    ensures pkt[2] as int * 256 + pkt[3] == d.wire && pkt[4..] == d.payload
  {
    pkt := [0, OP_DATA];
    pkt := pkt + [d.wire / 256, d.wire % 256];
    pkt := pkt + d.payload;
  }

  datatype Datagram = Datagram(from: nat, bytes: Bytes)

  predicate IsAck(d: Datagram, peer: nat, wire: nat) {
    && d.from == peer && |d.bytes| >= 4
    && d.bytes[0] == 0 && d.bytes[1] == 4
    && d.bytes[2] as int * 256 + d.bytes[3] == wire
  }

  /** Reads datagrams that arrive before the deadline until one acknowledges the expected block. */
  method WaitForAck(inbox: seq<Datagram>, peer: nat, expected: nat) returns (acked: bool, consumed: nat)
    ensures consumed <= |inbox|
    ensures acked <==> exists k | 0 <= k < |inbox| :: IsAck(inbox[k], peer, expected)
    ensures forall k | 0 <= k < consumed :: IsAck(inbox[k], peer, expected) ==> acked && k == consumed - 1
    ensures !acked ==> consumed == |inbox|
  {
    consumed := 0;
    while consumed < |inbox|
      invariant consumed <= |inbox|
      invariant forall k | 0 <= k < consumed :: !IsAck(inbox[k], peer, expected)
    {
      var d := inbox[consumed];
      consumed := consumed + 1;
      if d.from == peer && |d.bytes| >= 4 {
        var opcode := d.bytes[0] as int * 256 + d.bytes[1] as int;
        var block := d.bytes[2] as int * 256 + d.bytes[3];
        if opcode == OP_ACK && block == expected {
          assert IsAck(inbox[consumed - 1], peer, expected);
          return true, consumed;
        }
      }
    }
    acked := false;
  }

  // ---------------------------------------------------------------- stream

  /** How one attempt to send a DATA packet ends; a send that fails puts nothing on the wire. */
  datatype Event = Acked | TimedOut | SendFails

  datatype Outcome = Completed | GaveUp | Aborted

  function EventAt(events: seq<Event>, i: nat): Event {
    if i < |events| then events[i] else TimedOut
  }

  function Copies(packet: Data, n: nat): (r: seq<Data>)
    ensures |r| == n && forall i | 0 <= i < n :: r[i] == packet
  {
    if n == 0 then [] else Copies(packet, n - 1) + [packet]
  }

  /** The packet of block k: its 16-bit number and its bytes of the file. */
  function PacketOf(file: Bytes, size: nat, k: nat): Data
    requires k >= 1
  {
    Data(Wire(k), Block(file, size, k))
  }

  /** Everything sent when block k went out `tries[k - 1]` times: the blocks in order, each repeated. */
  function Transcript(file: Bytes, size: nat, tries: seq<nat>): seq<Data> {
    var n := |tries|;
    if n == 0 then [] else Transcript(file, size, tries[..n - 1]) + Copies(PacketOf(file, size, n), tries[n - 1])
  }

  /** No block goes out more than five times, and only the last may not have gone out at all. */
  ghost predicate Bounded(tries: seq<nat>) {
    forall i | 0 <= i < |tries| :: (i < |tries| - 1 ==> 1 <= tries[i]) && tries[i] <= MAX_RETRIES
  }

  ghost predicate AllSent(tries: seq<nat>) {
    forall i | 0 <= i < |tries| :: 1 <= tries[i] <= MAX_RETRIES
  }

  lemma {:induction false} TranscriptLength(file: Bytes, size: nat, tries: seq<nat>)
    requires Bounded(tries)
    ensures |Transcript(file, size, tries)| <= MAX_RETRIES * |tries|
  {
    if tries != [] {
      TranscriptLength(file, size, tries[..|tries| - 1]);
    }
  }

  lemma OneMoreBlock(file: Bytes, size: nat, tries: seq<nat>, t: nat)
    requires AllSent(tries) && t <= MAX_RETRIES
    ensures Bounded(tries + [t]) && (t >= 1 ==> AllSent(tries + [t]))
    ensures Transcript(file, size, tries + [t]) ==
            Transcript(file, size, tries) + Copies(PacketOf(file, size, |tries| + 1), t)
    ensures |Transcript(file, size, tries + [t])| <= MAX_RETRIES * (|tries| + 1)
  {
    assert (tries + [t])[..|tries|] == tries;
    TranscriptLength(file, size, tries + [t]);
  }

  /** Sends one block until it is acknowledged, at most five times. */
  method SendBlock(packet: Data, events: seq<Event>, before: seq<Data>)
      returns (acked: bool, failed: bool, sent: seq<Data>, tries: nat)
    ensures tries <= MAX_RETRIES && sent == before + Copies(packet, tries)
    ensures acked ==> !failed && tries >= 1 && EventAt(events, |sent| - 1) == Acked
    ensures failed ==> tries < MAX_RETRIES && EventAt(events, |sent|) == SendFails
    ensures !acked && !failed ==> tries == MAX_RETRIES
    ensures forall i | |before| <= i < (if acked then |sent| - 1 else |sent|) :: EventAt(events, i) == TimedOut
    ensures EventAt(events, |before|) == Acked ==> acked && tries == 1
  {
    sent := before;
    tries := 0;
    acked, failed := false, false;
    while tries < MAX_RETRIES
      invariant 0 <= tries <= MAX_RETRIES && !acked && !failed
      invariant sent == before + Copies(packet, tries)
      invariant forall i | |before| <= i < |sent| :: EventAt(events, i) == TimedOut
    {
      var event := EventAt(events, |sent|);
      if event.SendFails? {
        failed := true;
        return;
      }
      sent := sent + [packet];
      tries := tries + 1;
      if event.Acked? {
        acked := true;
        return;
      }
    }
  }

  /** Reads block |tries| + 1, which starts at `pos`, and sends it. */
  method SendNext(file: Bytes, size: nat, events: seq<Event>, before: seq<Data>, tries: seq<nat>, blockNum: nat,
      pos: nat)
      returns (acked: bool, failed: bool, sent: seq<Data>, t: nat, n: nat, nextNum: nat)
    requires blockNum == Wire(|tries| + 1) && pos == Covered(file, size, |tries|)
    requires AllSent(tries) && before == Transcript(file, size, tries)
    ensures t <= MAX_RETRIES && sent == Transcript(file, size, tries + [t])
    ensures |sent| == |before| + t && |sent| <= MAX_RETRIES * (|tries| + 1)
    ensures nextNum == Wire(|tries| + 2)
    ensures n == |Block(file, size, |tries| + 1)| && pos + n == Covered(file, size, |tries| + 1)
    ensures acked ==> !failed && t >= 1 && EventAt(events, |sent| - 1) == Acked
    ensures failed ==> t < MAX_RETRIES && EventAt(events, |sent|) == SendFails
    ensures !acked && !failed ==> t == MAX_RETRIES
    ensures !acked && t >= 1 ==> EventAt(events, |sent| - 1) == TimedOut
    ensures EventAt(events, |before|) == Acked ==> acked && |sent| == |before| + 1
  {
    n := Min(size, |file| - pos);
    var data := file[pos..pos + n];
    acked, failed, sent, t := SendBlock(Data(blockNum, data), events, before);
    OneMoreBlock(file, size, tries, t);
    WireStep(|tries| + 1);
    nextNum := (blockNum + 1) % WRAP;
  }

  /** Exactly the last of `count` blocks is shorter than the block size; of size zero none is. */
  ghost predicate EndsAt(file: Bytes, size: nat, count: nat) {
    forall k | 1 <= k :: (|Block(file, size, k)| < size && k <= count <==> k == count && size >= 1)
  }

  /** The stream's end test recognises exactly the last block. */
  lemma LastBlockIsShort(file: Bytes, size: nat)
    requires size >= 1
    ensures EndsAt(file, size, BlockCount(file, size))
  {
    forall k | 1 <= k <= BlockCount(file, size) ensures |Block(file, size, k)| < size <==> k == BlockCount(file, size) {
      BlockLength(file, size, k);
    }
  }

  ghost predicate AllAcked(count: nat, events: seq<Event>) {
    |events| >= count && forall i | 0 <= i < count :: events[i] == Acked
  }

  /** The sending loop of a file of `count` blocks. */
  method SendBlocks(file: Bytes, size: nat, events: seq<Event>, ghost count: nat)
      returns (sent: seq<Data>, outcome: Outcome, tries: seq<nat>)
    requires size >= 1 ==> count >= 1 && EndsAt(file, size, count)
    ensures Bounded(tries) && tries != [] && sent == Transcript(file, size, tries)
    ensures |sent| <= MAX_RETRIES * |tries| && (size >= 1 ==> |tries| <= count)
    ensures outcome == Completed <==>
            size >= 1 && |tries| == count && tries[|tries| - 1] >= 1 && EventAt(events, |sent| - 1) == Acked
    ensures outcome == GaveUp ==> tries[|tries| - 1] == MAX_RETRIES && EventAt(events, |sent| - 1) == TimedOut
    ensures outcome == Aborted ==> tries[|tries| - 1] < MAX_RETRIES && EventAt(events, |sent|) == SendFails
    ensures size >= 1 && AllAcked(count, events) ==> outcome == Completed && |sent| == count
  {
    sent, tries := [], [];
    var blockNum: nat := 1;
    var pos: nat := 0;
    while true
      invariant blockNum == Wire(|tries| + 1) && pos == Covered(file, size, |tries|)
      invariant AllSent(tries) && sent == Transcript(file, size, tries)
      invariant size >= 1 ==> |tries| < count
      invariant size >= 1 && AllAcked(count, events) ==> |sent| == |tries|
      invariant |sent| <= |events|
      decreases |events| - |sent|
    {
      assert size >= 1 && AllAcked(count, events) ==> EventAt(events, |sent|) == Acked;
      var acked, failed, t, n, nextNum;
      acked, failed, sent, t, n, nextNum := SendNext(file, size, events, sent, tries, blockNum, pos);
      OneMoreBlock(file, size, tries, t);
      tries := tries + [t];
      if failed {
        return sent, Aborted, tries;
      }
      if !acked {
        return sent, GaveUp, tries;
      }
      if n < size {
        return sent, Completed, tries;
      }
      blockNum, pos := nextNum, pos + n;
    }
  }

  /**
    Streams the file.  Sends beyond the given events time out, so a finite
    event list stands for any finite observation of the peer.  A block size of
    zero never completes.
   */
  method Stream(file: Bytes, size: nat, events: seq<Event>) returns (sent: seq<Data>, outcome: Outcome, tries: seq<nat>)
    ensures Bounded(tries) && tries != [] && sent == Transcript(file, size, tries)
    ensures size >= 1 ==> |tries| <= BlockCount(file, size) && |sent| <= MAX_RETRIES * BlockCount(file, size)
    ensures outcome == Completed ==> Concat(file, size, |tries|) == file
    ensures outcome == Completed <==>
            && size >= 1 && |tries| == BlockCount(file, size)
            && tries[|tries| - 1] >= 1 && EventAt(events, |sent| - 1) == Acked
    ensures outcome == GaveUp ==> tries[|tries| - 1] == 5 && EventAt(events, |sent| - 1) == TimedOut
    ensures outcome == Aborted ==> tries[|tries| - 1] < 5 && EventAt(events, |sent|) == SendFails
    ensures size >= 1 && AllAcked(BlockCount(file, size), events) ==>
              outcome == Completed && |sent| == BlockCount(file, size)
  {
    ghost var count := if size >= 1 then BlockCount(file, size) else 0;
    if size >= 1 {
      LastBlockIsShort(file, size);
      BlocksMakeTheFile(file, size);
    }
    sent, outcome, tries := SendBlocks(file, size, events, count);
  }

  // ------------------------------------------------------------ on the wire

  /** An acknowledgement is a datagram of the client that begins with opcode 4 and the block number, high byte first. */
  lemma AckOnTheWire(d: Datagram, peer: nat, wire: nat)
    requires wire < WRAP
    ensures IsAck(d, peer, wire) <==> d.from == peer && [0, 4, wire / 256, wire % 256] <= d.bytes
  {
  }

  /** No block goes out more than five times. */
  lemma FiveTimesAtMost(file: Bytes, size: nat, tries: seq<nat>)
    requires Bounded(tries)
    ensures |Transcript(file, size, tries)| <= 5 * |tries| && forall t | t in tries :: t <= 5
  {
    TranscriptLength(file, size, tries);
  }
}
