/**
  The TFTP sender against an RFC 1350 receiver over a network that loses,
  duplicates and reorders packets.  A packet stays in the network once sent and
  may be delivered any number of times or never.  Index 0 is the option
  acknowledgement, which the receiver answers with ACK 0.

  Packets carry their true block index for the proof; both ends look only at
  its 16-bit wire number.
 */
module TftpTransfer {
  import opened TftpStream

  datatype Packet =
    | Oack
    | DataOf(index: nat, payload: Bytes)
    | AckOf(index: nat)

  datatype Status = Sending | Awaiting | Finished | Abandoned

  /** The sender works on block `block` and has already timed out on it `timeouts` times. */
  datatype Sender = Sender(block: nat, timeouts: nat, status: Status, sends: nat)

  /** The receiver expects block `next` and has stored `stored`. */
  datatype Receiver = Receiver(next: nat, stored: Bytes, done: bool)

  datatype World = World(sender: Sender, receiver: Receiver, net: set<Packet>)

  datatype Step =
    | Transmit
    | Timeout
    | SendError  // the socket refuses a packet; the transfer ends
    | DeliverAck(p: Packet)
    | DeliverData(p: Packet, repeatAck: bool)  // a block that is not new may be acknowledged again
    | DeliverOack
    | Lose(p: Packet)

  /** A request with options begins with the option acknowledgement, one without begins with block 1. */
  predicate Init(w: World) {
    && w.sender.timeouts == 0 && w.sender.status == Sending && w.sender.sends == 0 && w.sender.block <= 1
    && w.receiver == Receiver(1, [], false)
    && w.net == {}
  }

  /** A packet is delivered only while its reader is fewer than `life` blocks past it. */
  predicate Fresh(life: nat, w: World, p: Packet) {
    match p
    case Oack => true
    case DataOf(j, _) => w.receiver.next < j + life
    case AckOf(j) => w.sender.block < j + life
  }

  predicate Enabled(life: nat, w: World, s: Step) {
    match s
    case Transmit => w.sender.status == Sending
    case Timeout => w.sender.status == Awaiting
    case SendError => w.sender.status == Sending
    case DeliverAck(p) => w.sender.status == Awaiting && p in w.net && p.AckOf? && Fresh(life, w, p)
    case DeliverData(p, _) => p in w.net && p.DataOf? && Fresh(life, w, p)
    case DeliverOack => Oack in w.net
    case Lose(p) => p in w.net
  }

  function AfterTimeout(s: Sender): Sender {
    if s.block == 0 || s.timeouts + 1 == MAX_RETRIES then s.(timeouts := s.timeouts + 1, status := Abandoned)
    else s.(timeouts := s.timeouts + 1, status := Sending)
  }

  function AfterAck(file: Bytes, size: nat, s: Sender, wire: nat): Sender {
    if wire != Wire(s.block) then s
    else if s.block >= 1 && |Block(file, size, s.block)| < size then s.(status := Finished)
    else s.(block := s.block + 1, timeouts := 0, status := Sending)
  }

  predicate Accepts(r: Receiver, wire: nat) {
    !r.done && wire == Wire(r.next)
  }

  function AfterData(size: nat, r: Receiver, wire: nat, payload: Bytes): Receiver {
    if Accepts(r, wire) then Receiver(r.next + 1, r.stored + payload, |payload| < size) else r
  }

  function Apply(file: Bytes, size: nat, w: World, s: Step): World
    requires s.DeliverAck? ==> s.p.AckOf?
    requires s.DeliverData? ==> s.p.DataOf?
  {
    match s
    case Transmit =>
      var k := w.sender.block;
      w.(sender := w.sender.(status := Awaiting, sends := w.sender.sends + if k == 0 then 0 else 1),
         net := w.net + {if k == 0 then Oack else DataOf(k, Block(file, size, k))})
    case Timeout => w.(sender := AfterTimeout(w.sender))
    case SendError => w.(sender := w.sender.(status := Abandoned))
    case DeliverAck(p) => w.(sender := AfterAck(file, size, w.sender, Wire(p.index)))
    case DeliverData(p, repeatAck) =>
      w.(receiver := AfterData(size, w.receiver, Wire(p.index), p.payload),
         net := if Accepts(w.receiver, Wire(p.index)) || repeatAck then w.net + {AckOf(p.index)} else w.net)
    case DeliverOack => w.(net := w.net + {AckOf(0)})
    case Lose(p) => w.(net := w.net - {p})
  }

  ghost predicate IsRun(file: Bytes, size: nat, life: nat, worlds: seq<World>, steps: seq<Step>) {
    && |worlds| == |steps| + 1
    && Init(worlds[0])
    && forall k | 0 <= k < |steps| ::
         Enabled(life, worlds[k], steps[k]) && worlds[k + 1] == Apply(file, size, worlds[k], steps[k])
  }

  // -------------------------------------------------------------- invariant

  /** Sender and receiver are at most one block apart, and the receiver holds exactly the blocks before its next. */
  ghost predicate InStep(file: Bytes, size: nat, w: World)
    requires size >= 1
  {
    var k, m, n := w.sender.block, w.receiver.next, BlockCount(file, size);
    && k <= m <= k + 1 && 1 <= m <= n + 1 && k <= n
    && w.receiver.stored == Concat(file, size, m - 1)
    && (w.receiver.done <==> m == n + 1)
    && (w.sender.status == Finished ==> w.receiver.stored == file)
  }

  ghost predicate Genuine(file: Bytes, size: nat, w: World, p: Packet) {
    match p
    case Oack => true
    case DataOf(j, payload) => 1 <= j <= w.sender.block && payload == Block(file, size, j)
    case AckOf(j) => j < w.receiver.next
  }

  /** Each block costs at most five sends. */
  predicate Thrifty(s: Sender) {
    && s.timeouts <= MAX_RETRIES
    && (s.status == Sending || s.status == Awaiting ==> s.timeouts < MAX_RETRIES)
    && (s.block == 0 ==> s.sends == 0)
    && (s.block >= 1 ==>
          s.sends <= MAX_RETRIES * (s.block - 1) + s.timeouts +
              (if s.status == Awaiting || s.status == Finished then 1 else 0))
    && (s.status == Finished ==> s.timeouts < MAX_RETRIES)
  }

  ghost predicate Inv(file: Bytes, size: nat, w: World)
    requires size >= 1
  {
    && InStep(file, size, w)
    && (forall p | p in w.net :: Genuine(file, size, w, p))
    && Thrifty(w.sender)
  }

  /**
    No stale packet can be mistaken for a current one with consequences:
    packets live at most one counter cycle, or the file's bytes end before the
    counter comes round.
   */
  predicate Unambiguous(file: Bytes, size: nat, life: nat) {
    life <= WRAP || |file| <= (WRAP - 1) * size
  }

  /** Such a file has at most 65536 blocks, and the last of that many would be empty. */
  lemma SmallFile(file: Bytes, size: nat)
    requires size >= 1 && |file| <= (WRAP - 1) * size
    ensures BlockCount(file, size) <= WRAP
    ensures BlockCount(file, size) == WRAP ==> Concat(file, size, WRAP - 1) == file
  {
    var n := BlockCount(file, size);
    FullBlocks(|file|, size, WRAP);
    if n == WRAP {
      CoveredExactly(file, size, WRAP - 1);
      ConcatIsPrefix(file, size, WRAP - 1);
    }
  }

  /**
    An acknowledgement that matches by wire number is for the sender's own
    block, which the receiver has stored, or it comes when all bytes are stored.
   */
  lemma AckIsForThisBlock(file: Bytes, size: nat, life: nat, w: World, p: Packet)
    requires size >= 1 && Unambiguous(file, size, life) && Inv(file, size, w)
    requires p in w.net && p.AckOf? && Fresh(life, w, p) && Wire(p.index) == Wire(w.sender.block)
    ensures || (p.index == w.sender.block && w.receiver.next == w.sender.block + 1)
            || (w.sender.block == BlockCount(file, size) && w.receiver.stored == file)
  {
    assert Genuine(file, size, w, p);
    if p.index != w.sender.block {
      if life > WRAP {
        SmallFile(file, size);
        ZeroOnly(p.index, w.sender.block);
        BlocksMakeTheFile(file, size);
      } else {
        WireInjective(p.index, w.sender.block);
      }
    }
  }

  /** Below one counter cycle only 0 and 65536 share a wire number. */
  lemma ZeroOnly(a: nat, b: nat)
    requires a < b <= WRAP && Wire(a) == Wire(b)
    ensures a == 0 && b == WRAP
  {
  }

  /** A block that matches by wire number is the very block the receiver expects. */
  lemma DataIsTheNextBlock(file: Bytes, size: nat, life: nat, w: World, p: Packet)
    requires size >= 1 && Unambiguous(file, size, life) && Inv(file, size, w)
    requires p in w.net && p.DataOf? && Fresh(life, w, p) && Accepts(w.receiver, Wire(p.index))
    ensures p.index == w.receiver.next == w.sender.block && p.payload == Block(file, size, w.receiver.next)
  {
    assert Genuine(file, size, w, p);
    if life > WRAP {
      SmallFile(file, size);
    }
    WireInjective(p.index, w.receiver.next);
  }

  /** Adopting a matching acknowledgement keeps both ends in step. */
  lemma AdvanceKeepsInStep(file: Bytes, size: nat, w: World)
    requires size >= 1 && InStep(file, size, w) && w.sender.status == Awaiting
    requires || w.receiver.next == w.sender.block + 1
             || (w.sender.block == BlockCount(file, size) && w.receiver.stored == file)
    ensures InStep(file, size, w.(sender := AfterAck(file, size, w.sender, Wire(w.sender.block))))
  {
    if w.sender.block >= 1 {
      BlockLength(file, size, w.sender.block);
      BlocksMakeTheFile(file, size);
    }
  }

  lemma AckPreservesInv(file: Bytes, size: nat, life: nat, w: World, p: Packet)
    requires size >= 1 && Unambiguous(file, size, life) && Inv(file, size, w) && Enabled(life, w, DeliverAck(p))
    ensures Inv(file, size, Apply(file, size, w, DeliverAck(p)))
  {
    var w' := Apply(file, size, w, DeliverAck(p));
    if Wire(p.index) == Wire(w.sender.block) {
      AckIsForThisBlock(file, size, life, w, p);
      AdvanceKeepsInStep(file, size, w);
    }
    forall q | q in w'.net ensures Genuine(file, size, w', q) {
      assert Genuine(file, size, w, q);
    }
  }

  /** Taking the next block keeps both ends in step. */
  lemma AcceptKeepsInStep(file: Bytes, size: nat, w: World, net: set<Packet>)
    requires size >= 1 && InStep(file, size, w) && !w.receiver.done && w.sender.block == w.receiver.next
    ensures var payload := Block(file, size, w.receiver.next);
            var r := Receiver(w.receiver.next + 1, w.receiver.stored + payload, |payload| < size);
            InStep(file, size, World(w.sender, r, net))
  {
    BlockLength(file, size, w.receiver.next);
    ConcatIsPrefix(file, size, w.receiver.next - 1);
    ConcatIsPrefix(file, size, w.receiver.next);
  }

  lemma AcceptPreservesInv(file: Bytes, size: nat, life: nat, w: World, p: Packet, repeatAck: bool)
    requires size >= 1 && Unambiguous(file, size, life) && Inv(file, size, w)
        && Enabled(life, w, DeliverData(p, repeatAck))
    requires Accepts(w.receiver, Wire(p.index))
    ensures Inv(file, size, Apply(file, size, w, DeliverData(p, repeatAck)))
  {
    var w' := Apply(file, size, w, DeliverData(p, repeatAck));
    DataIsTheNextBlock(file, size, life, w, p);
    AcceptKeepsInStep(file, size, w, w'.net);
    forall q | q in w'.net ensures Genuine(file, size, w', q) {
      if q in w.net {
        assert Genuine(file, size, w, q);
      }
    }
  }

  lemma DataPreservesInv(file: Bytes, size: nat, life: nat, w: World, p: Packet, repeatAck: bool)
    requires size >= 1 && Unambiguous(file, size, life) && Inv(file, size, w)
        && Enabled(life, w, DeliverData(p, repeatAck))
    ensures Inv(file, size, Apply(file, size, w, DeliverData(p, repeatAck)))
  {
    var w' := Apply(file, size, w, DeliverData(p, repeatAck));
    if Accepts(w.receiver, Wire(p.index)) {
      AcceptPreservesInv(file, size, life, w, p, repeatAck);
    } else {
      StaleOrKnown(file, size, w, p);
      forall q | q in w'.net ensures Genuine(file, size, w', q) {
        if q in w.net {
          assert Genuine(file, size, w, q);
        }
      }
    }
  }

  /** A block the receiver does not take is one it already has. */
  lemma StaleOrKnown(file: Bytes, size: nat, w: World, p: Packet)
    requires size >= 1 && Inv(file, size, w) && p in w.net && p.DataOf?
    requires !Accepts(w.receiver, Wire(p.index))
    ensures p.index < w.receiver.next
  {
    assert Genuine(file, size, w, p);
  }

  lemma StepPreservesInv(file: Bytes, size: nat, life: nat, w: World, s: Step)
    requires size >= 1 && Unambiguous(file, size, life) && Inv(file, size, w) && Enabled(life, w, s)
    ensures Inv(file, size, Apply(file, size, w, s))
  {
    match s
    case DeliverAck(p) => AckPreservesInv(file, size, life, w, p);
    case DeliverData(p, repeatAck) => DataPreservesInv(file, size, life, w, p, repeatAck);
    case _ =>
      var w' := Apply(file, size, w, s);
      forall q | q in w'.net ensures Genuine(file, size, w', q) {
        if q in w.net {
          assert Genuine(file, size, w, q);
        }
      }
  }

  lemma {:induction false} RunKeepsInv(file: Bytes, size: nat, life: nat, worlds: seq<World>, steps: seq<Step>, i: nat)
    requires size >= 1 && Unambiguous(file, size, life) && IsRun(file, size, life, worlds, steps) && i < |worlds|
    ensures Inv(file, size, worlds[i])
  {
    if i > 0 {
      RunKeepsInv(file, size, life, worlds, steps, i - 1);
      StepPreservesInv(file, size, life, worlds[i - 1], steps[i - 1]);
    }
  }

  /**
    In every run the receiver's bytes are a prefix of the file, the two ends are
    at most one block apart although only 16 bits of the block number travel,
    and a sender that finished leaves a receiver holding exactly the file.
   */
  lemma DeliveryIsFaithful(file: Bytes, size: nat, life: nat, worlds: seq<World>, steps: seq<Step>, i: nat)
    requires size >= 1 && Unambiguous(file, size, life) && IsRun(file, size, life, worlds, steps) && i < |worlds|
    ensures worlds[i].receiver.stored <= file
    ensures worlds[i].sender.block <= worlds[i].receiver.next <= worlds[i].sender.block + 1
    ensures worlds[i].receiver.done ==> worlds[i].receiver.stored == file
    ensures worlds[i].sender.status == Finished ==> worlds[i].receiver.stored == file
    ensures worlds[i].sender.sends <= MAX_RETRIES * BlockCount(file, size)
  {
    RunKeepsInv(file, size, life, worlds, steps, i);
    ConcatIsPrefix(file, size, worlds[i].receiver.next - 1);
    BlocksMakeTheFile(file, size);
  }

  // ------------------------------------------ the lifetime bound is needed

  lemma Extend(file: Bytes, size: nat, life: nat, worlds: seq<World>, steps: seq<Step>, s: Step)
    requires IsRun(file, size, life, worlds, steps) && Enabled(life, worlds[|worlds| - 1], s)
    ensures IsRun(file, size, life, worlds + [Apply(file, size, worlds[|worlds| - 1], s)], steps + [s])
  {
  }

  /** Everything sent before block k of a negotiated transfer without losses is still in the network. */
  function Traffic(file: Bytes, size: nat, k: nat): set<Packet> {
    if k <= 1 then {Oack, AckOf(0)}
        else Traffic(file, size, k - 1) + {DataOf(k - 1, Block(file, size, k - 1)), AckOf(k - 1)}
  }

  function AtBlock(file: Bytes, size: nat, k: nat): World
    requires k >= 1
  {
    World(Sender(k, 0, Sending, k - 1), Receiver(k, Concat(file, size, k - 1), false), Traffic(file, size, k))
  }

  /** One loss-free round: block j goes out, is stored and is acknowledged. */
  lemma LossFreeRound(file: Bytes, size: nat, life: nat, j: nat) returns (data: Step, w1: World, w2: World)
    requires size >= 1 && life >= 1 && 1 <= j < BlockCount(file, size)
    ensures var w0 := AtBlock(file, size, j);
            && Enabled(life, w0, Transmit) && w1 == Apply(file, size, w0, Transmit)
            && Enabled(life, w1, data) && w2 == Apply(file, size, w1, data)
            && Enabled(life, w2, DeliverAck(AckOf(j)))
                && Apply(file, size, w2, DeliverAck(AckOf(j))) == AtBlock(file, size, j + 1)
  {
    var p := DataOf(j, Block(file, size, j));
    BlockLength(file, size, j);
    data := DeliverData(p, false);
    w1 := Apply(file, size, AtBlock(file, size, j), Transmit);
    w2 := Apply(file, size, w1, data);
    assert w2.net == Traffic(file, size, j + 1);
  }

  lemma ReachFirstBlock(file: Bytes, size: nat, life: nat) returns (worlds: seq<World>, steps: seq<Step>)
    requires size >= 1 && life >= 1
    ensures IsRun(file, size, life, worlds, steps) && worlds[|worlds| - 1] == AtBlock(file, size, 1)
  {
    var w0 := World(Sender(0, 0, Sending, 0), Receiver(1, [], false), {});
    var w1 := Apply(file, size, w0, Transmit);
    var w2 := Apply(file, size, w1, DeliverOack);
    worlds, steps := [w0, w1, w2, AtBlock(file, size, 1)], [Transmit, DeliverOack, DeliverAck(AckOf(0))];
  }

  lemma {:induction false} ReachBlock(file: Bytes, size: nat, life: nat, k: nat)
      returns (worlds: seq<World>, steps: seq<Step>)
    requires size >= 1 && life >= 1 && 1 <= k <= BlockCount(file, size)
    ensures IsRun(file, size, life, worlds, steps) && worlds[|worlds| - 1] == AtBlock(file, size, k)
  {
    if k == 1 {
      worlds, steps := ReachFirstBlock(file, size, life);
    } else {
      worlds, steps := ReachBlock(file, size, life, k - 1);
      var data, w1, w2 := LossFreeRound(file, size, life, k - 1);
      Extend(file, size, life, worlds, steps, Transmit);
      worlds, steps := worlds + [w1], steps + [Transmit];
      Extend(file, size, life, worlds, steps, data);
      worlds, steps := worlds + [w2], steps + [data];
      Extend(file, size, life, worlds, steps, DeliverAck(AckOf(k - 1)));
      worlds, steps := worlds + [AtBlock(file, size, k)], steps + [DeliverAck(AckOf(k - 1))];
    }
  }

  lemma {:induction false} FirstBlockLingers(file: Bytes, size: nat, k: nat)
    requires k >= 2
    ensures DataOf(1, Block(file, size, 1)) in Traffic(file, size, k)
  {
    if k > 2 {
      FirstBlockLingers(file, size, k - 1);
    }
  }

  /** A first block that outlives a whole counter cycle is taken for block 65537. */
  lemma StaleBlockCorrupts(file: Bytes, size: nat, life: nat) returns (worlds: seq<World>, steps: seq<Step>)
    requires size >= 1 && life > WRAP && BlockCount(file, size) > WRAP
    requires Block(file, size, 1) != Block(file, size, WRAP + 1)
    ensures IsRun(file, size, life, worlds, steps) && !(worlds[|worlds| - 1].receiver.stored <= file)
  {
    worlds, steps := ReachBlock(file, size, life, WRAP + 1);
    var w := AtBlock(file, size, WRAP + 1);
    var p := DataOf(1, Block(file, size, 1));
    FirstBlockLingers(file, size, WRAP + 1);
    assert Accepts(w.receiver, Wire(1));
    Extend(file, size, life, worlds, steps, DeliverData(p, false));
    var w' := Apply(file, size, w, DeliverData(p, false));
    worlds, steps := worlds + [w'], steps + [DeliverData(p, false)];
    OnlyTheRightBlockFits(file, size, WRAP + 1);
  }

  lemma PrefixSlice(a: Bytes, b: Bytes, file: Bytes)
    requires a + b <= file
    ensures file[|a|..|a| + |b|] == b
  {
    assert (a + b)[|a|..] == b;
  }

  /** Appending block 1 in the place of block k gives a prefix of the file only if the two blocks are equal. */
  lemma OnlyTheRightBlockFits(file: Bytes, size: nat, k: nat)
    requires size >= 1 && 1 < k <= BlockCount(file, size)
    ensures Concat(file, size, k - 1) + Block(file, size, 1) <= file ==> Block(file, size, 1) == Block(file, size, k)
  {
    ConcatIsPrefix(file, size, k - 1);
    BlockLength(file, size, 1);
    if Concat(file, size, k - 1) + Block(file, size, 1) <= file {
      PrefixSlice(Concat(file, size, k - 1), Block(file, size, 1), file);
      assert Covered(file, size, k) == Covered(file, size, k - 1) + size;
    }
  }

  lemma {:induction false} AcksLinger(file: Bytes, size: nat, j: nat, k: nat)
    requires j < k
    ensures AckOf(j) in Traffic(file, size, k)
  {
    if j < k - 1 {
      AcksLinger(file, size, j, k - 1);
    }
  }

  /** The last block that holds any bytes. */
  function LastBytes(file: Bytes, size: nat): nat
    requires size >= 1
  {
    if |file| % size == 0 then |file| / size else BlockCount(file, size)
  }

  lemma FallsShort(len: nat, size: nat, q: nat, r: nat, j: nat)
    requires len == q * size + r && r < size && (j < q || (j == q && r > 0))
    ensures j * size < len
  {
    if j < q {
      MultiplyMonotone(j + 1, q, size);
    }
  }

  /** Blocks before the last one with bytes do not make the file. */
  lemma BytesRemain(file: Bytes, size: nat, j: nat)
    requires size >= 1 && j < LastBytes(file, size)
    ensures Concat(file, size, j) != file
  {
    FallsShort(|file|, size, |file| / size, |file| % size, j);
    CoveredExactly(file, size, j);
    ConcatIsPrefix(file, size, j);
  }

  lemma LargeFile(file: Bytes, size: nat)
    requires size >= 1 && |file| > (WRAP - 1) * size
    ensures LastBytes(file, size) >= WRAP
  {
    FullBlocks(|file|, size, WRAP);
    FullBlocks(|file|, size, WRAP - 1);
    assert |file| == (|file| / size) * size + |file| % size;
  }

  /** A stale acknowledgement moves the sender past block k although the receiver has not got it. */
  lemma StaleAckStep(
    file: Bytes, size: nat, life: nat, worlds: seq<World>, steps: seq<Step>, k: nat)
        returns (worlds': seq<World>, steps': seq<Step>)
    requires life > WRAP && k >= WRAP && IsRun(file, size, life, worlds, steps)
    requires var w := worlds[|worlds| - 1];
             w.sender.block == k && w.sender.status == Sending && AckOf(k - WRAP) in w.net
    ensures IsRun(file, size, life, worlds', steps')
    ensures var w, w' := worlds[|worlds| - 1], worlds'[|worlds'| - 1];
            && w'.receiver == w.receiver && w.net <= w'.net
            && if |Block(file, size, k)| < size then w'.sender.status == Finished
               else w'.sender.block == k + 1 && w'.sender.status == Sending
  {
    var w := worlds[|worlds| - 1];
    var w1 := Apply(file, size, w, Transmit);
    Extend(file, size, life, worlds, steps, Transmit);
    worlds', steps' := worlds + [w1], steps + [Transmit];
    var ack := DeliverAck(AckOf(k - WRAP));
    assert Wire(k - WRAP) == Wire(k);
    Extend(file, size, life, worlds', steps', ack);
    worlds', steps' := worlds' + [Apply(file, size, w1, ack)], steps' + [ack];
  }

  /** A large file over long-lived packets: the sender can finish although the receiver lacks bytes. */
  lemma StaleAckLosesBytes(file: Bytes, size: nat, life: nat) returns (worlds: seq<World>, steps: seq<Step>)
    requires size >= 1 && !Unambiguous(file, size, life)
    ensures IsRun(file, size, life, worlds, steps)
    ensures var w := worlds[|worlds| - 1]; w.sender.status == Finished && w.receiver.stored != file
  {
    LargeFile(file, size);
    var k := LastBytes(file, size);
    BlockLength(file, size, k);
    BytesRemain(file, size, k - 1);
    worlds, steps := ReachBlock(file, size, life, k);
    AcksLinger(file, size, k - WRAP, k);
    AcksLinger(file, size, k + 1 - WRAP, k);
    worlds, steps := StaleAckStep(file, size, life, worlds, steps, k);
    if k < BlockCount(file, size) {
      BlockLength(file, size, k + 1);
      worlds, steps := StaleAckStep(file, size, life, worlds, steps, k + 1);
    }
  }

  /** Whatever happens, the stored bytes begin the file, and a sender that finished has delivered it all. */
  ghost predicate AlwaysFaithful(file: Bytes, size: nat, life: nat) {
    forall worlds: seq<World>, steps: seq<Step>, i: int |
      IsRun(file, size, life, worlds, steps) && 0 <= i < |worlds| ::
      && worlds[i].receiver.stored <= file
      && (worlds[i].sender.status == Finished ==> worlds[i].receiver.stored == file)
  }

  /**
    Delivery is faithful in every run exactly when packets live at most one
    counter cycle or the file fills at most 65535 blocks.
   */
  lemma FaithfulIff(file: Bytes, size: nat, life: nat)
    requires size >= 1
    ensures AlwaysFaithful(file, size, life) <==> life <= WRAP || |file| <= (WRAP - 1) * size
  {
    if Unambiguous(file, size, life) {
      forall worlds: seq<World>, steps: seq<Step>, i: int | IsRun(file, size, life, worlds, steps) && 0 <= i < |worlds|
        ensures worlds[i].receiver.stored <= file
        ensures worlds[i].sender.status == Finished ==> worlds[i].receiver.stored == file
      {
        DeliveryIsFaithful(file, size, life, worlds, steps, i);
      }
    } else {
      var worlds, steps := StaleAckLosesBytes(file, size, life);
      var i := |worlds| - 1;
      assert worlds[i].sender.status == Finished;
    }
  }

  // -------------------------------------------- the stream as part of a run

  /** The DATA packets that a run's sender puts on the wire. */
  function SentIn(file: Bytes, size: nat, worlds: seq<World>, steps: seq<Step>): seq<Data>
    requires |worlds| == |steps| + 1
    decreases |steps|
  {
    var n := |steps|;
    if n == 0 then []
    else
      var k := worlds[n - 1].sender.block;
      SentIn(file, size, worlds[..n], steps[..n - 1]) +
      if steps[n - 1].Transmit? && k >= 1 then [PacketOf(file, size, k)] else []
  }

  /** Appends a step to a run. */
  lemma Advance(file: Bytes, size: nat, life: nat, worlds: seq<World>, steps: seq<Step>, s: Step)
      returns (worlds': seq<World>, steps': seq<Step>)
    requires IsRun(file, size, life, worlds, steps) && Enabled(life, worlds[|worlds| - 1], s)
    ensures IsRun(file, size, life, worlds', steps')
    ensures worlds'[|worlds'| - 1] == Apply(file, size, worlds[|worlds| - 1], s)
    ensures var k := worlds[|worlds| - 1].sender.block;
            SentIn(file, size, worlds', steps') ==
            SentIn(file, size, worlds, steps) + if s.Transmit? && k >= 1 then [PacketOf(file, size, k)] else []
  {
    Extend(file, size, life, worlds, steps, s);
    worlds', steps' := worlds + [Apply(file, size, worlds[|worlds| - 1], s)], steps + [s];
    assert worlds'[..|steps'|] == worlds && steps'[..|steps'| - 1] == steps;
  }

  /** The sender is about to send block k for the first time, and the receiver expects it. */
  predicate Before(file: Bytes, size: nat, w: World, k: nat) {
    && w.sender.block == k && w.sender.timeouts == 0 && w.sender.status == Sending
    && w.receiver == Receiver(k, if k >= 1 then Concat(file, size, k - 1) else [], false)
  }

  /** The two steps of a round that times out. */
  lemma TimedOutSteps(file: Bytes, size: nat, life: nat, w: World, k: nat, r: nat)
    requires k >= 1 && w.sender.block == k && w.sender.timeouts == r < MAX_RETRIES && w.sender.status == Sending
    ensures var w1 := Apply(file, size, w, Transmit);
            var w2 := Apply(file, size, w1, Timeout);
            && Enabled(life, w, Transmit) && Enabled(life, w1, Timeout) && w2.receiver == w.receiver
            && w2.sender.block == k && w2.sender.timeouts == r + 1
            && w2.sender.status == if r + 1 == MAX_RETRIES then Abandoned else Sending
  {
  }

  /** A block sent r times in vain. */
  lemma {:induction false} TimeOutTimes(
    file: Bytes, size: nat, life: nat, worlds: seq<World>, steps: seq<Step>, k: nat, r: nat)
      returns (worlds': seq<World>, steps': seq<Step>)
    requires k >= 1 && r <= MAX_RETRIES && IsRun(file, size, life, worlds, steps)
    requires Before(file, size, worlds[|worlds| - 1], k)
    ensures IsRun(file, size, life, worlds', steps')
    ensures var w, w' := worlds[|worlds| - 1], worlds'[|worlds'| - 1];
            && w'.receiver == w.receiver && w'.sender.block == k && w'.sender.timeouts == r
            && w'.sender.status == (if r == MAX_RETRIES then Abandoned else Sending)
    ensures SentIn(file, size, worlds', steps') ==
        SentIn(file, size, worlds, steps) + Copies(PacketOf(file, size, k), r)
  {
    if r == 0 {
      worlds', steps' := worlds, steps;
    } else {
      var worlds1, steps1 := TimeOutTimes(file, size, life, worlds, steps, k, r - 1);
      TimedOutSteps(file, size, life, worlds1[|worlds1| - 1], k, r - 1);
      var worlds2, steps2 := Advance(file, size, life, worlds1, steps1, Transmit);
      worlds', steps' := Advance(file, size, life, worlds2, steps2, Timeout);
    }
  }

  /** The world after block k is sent, stored and acknowledged. */
  ghost predicate PastBlock(file: Bytes, size: nat, w: World, k: nat)
    requires k >= 1
  {
    if |Block(file, size, k)| < size
    then w.sender.block == k && w.sender.status == Finished && w.receiver.stored == Concat(file, size, k)
    else Before(file, size, w, k + 1)
  }

  /** The three steps of a round that succeeds. */
  lemma AckedSteps(file: Bytes, size: nat, life: nat, w: World, k: nat)
    requires life >= 1 && k >= 1 && w.sender.block == k && w.sender.status == Sending
    requires w.receiver == Receiver(k, Concat(file, size, k - 1), false)
    ensures var data, ack := DeliverData(DataOf(k, Block(file, size, k)), false), DeliverAck(AckOf(k));
            var w1 := Apply(file, size, w, Transmit);
            var w2 := Apply(file, size, w1, data);
            && Enabled(life, w, Transmit) && Enabled(life, w1, data) && Enabled(life, w2, ack)
            && PastBlock(file, size, Apply(file, size, w2, ack), k)
  {
  }

  /** One more send of block k is stored and acknowledged. */
  lemma AckedRound(file: Bytes, size: nat, life: nat, worlds: seq<World>, steps: seq<Step>, k: nat)
      returns (worlds': seq<World>, steps': seq<Step>)
    requires life >= 1 && k >= 1 && IsRun(file, size, life, worlds, steps)
    requires var w := worlds[|worlds| - 1];
             w.sender.block == k && w.sender.status == Sending
                 && w.receiver == Receiver(k, Concat(file, size, k - 1), false)
    ensures IsRun(file, size, life, worlds', steps')
    ensures PastBlock(file, size, worlds'[|worlds'| - 1], k)
    ensures SentIn(file, size, worlds', steps') == SentIn(file, size, worlds, steps) + [PacketOf(file, size, k)]
  {
    AckedSteps(file, size, life, worlds[|worlds| - 1], k);
    var data, ack := DeliverData(DataOf(k, Block(file, size, k)), false), DeliverAck(AckOf(k));
    var worlds1, steps1 := Advance(file, size, life, worlds, steps, Transmit);
    var worlds2, steps2 := Advance(file, size, life, worlds1, steps1, data);
    worlds', steps' := Advance(file, size, life, worlds2, steps2, ack);
  }

  /** A block sent t times, the last time with success. */
  lemma SentAndAcked(file: Bytes, size: nat, life: nat, worlds: seq<World>, steps: seq<Step>, k: nat, t: nat)
      returns (worlds': seq<World>, steps': seq<Step>)
    requires life >= 1 && k >= 1 && 1 <= t <= MAX_RETRIES && IsRun(file, size, life, worlds, steps)
    requires Before(file, size, worlds[|worlds| - 1], k)
    ensures IsRun(file, size, life, worlds', steps')
    ensures PastBlock(file, size, worlds'[|worlds'| - 1], k)
    ensures SentIn(file, size, worlds', steps') ==
        SentIn(file, size, worlds, steps) + Copies(PacketOf(file, size, k), t)
  {
    worlds', steps' := TimeOutTimes(file, size, life, worlds, steps, k, t - 1);
    worlds', steps' := AckedRound(file, size, life, worlds', steps', k);
  }

  lemma {:induction false} StreamPrefix(file: Bytes, size: nat, life: nat, tries: seq<nat>)
      returns (worlds: seq<World>, steps: seq<Step>)
    requires size >= 1 && life >= 1 && AllSent(tries) && |tries| < BlockCount(file, size)
    ensures IsRun(file, size, life, worlds, steps) && Before(file, size, worlds[|worlds| - 1], |tries| + 1)
    ensures SentIn(file, size, worlds, steps) == Transcript(file, size, tries)
  {
    var n := |tries|;
    if n == 0 {
      worlds, steps := [World(Sender(1, 0, Sending, 0), Receiver(1, [], false), {})], [];
    } else {
      worlds, steps := StreamPrefix(file, size, life, tries[..n - 1]);
      BlockLength(file, size, n);
      worlds, steps := SentAndAcked(file, size, life, worlds, steps, n, tries[n - 1]);
    }
  }

  /**
    Every way the stream can end is the sender's part of a run: the same
    packets in the same order, the same last block, and the same success.
   */
  lemma StreamIsARun(file: Bytes, size: nat, life: nat, tries: seq<nat>, outcome: Outcome)
      returns (worlds: seq<World>, steps: seq<Step>)
    requires size >= 1 && life >= 1 && Bounded(tries) && 1 <= |tries| <= BlockCount(file, size)
    requires outcome == Completed ==> |tries| == BlockCount(file, size) && tries[|tries| - 1] >= 1
    requires outcome == GaveUp ==> tries[|tries| - 1] == MAX_RETRIES
    requires outcome == Aborted ==> tries[|tries| - 1] < MAX_RETRIES
    ensures IsRun(file, size, life, worlds, steps)
    ensures SentIn(file, size, worlds, steps) == Transcript(file, size, tries)
    ensures var w := worlds[|worlds| - 1];
            && w.sender.block == |tries|
            && w.sender.status == (if outcome == Completed then Finished else Abandoned)
            && (outcome == Completed ==> w.receiver.stored == file)
  {
    var n, t := |tries|, tries[|tries| - 1];
    worlds, steps := StreamPrefix(file, size, life, tries[..n - 1]);
    match outcome
    case Completed =>
      BlockLength(file, size, n);
      BlocksMakeTheFile(file, size);
      worlds, steps := SentAndAcked(file, size, life, worlds, steps, n, t);
    case GaveUp => worlds, steps := TimeOutTimes(file, size, life, worlds, steps, n, t);
    case Aborted =>
      worlds, steps := TimeOutTimes(file, size, life, worlds, steps, n, t);
      worlds, steps := Advance(file, size, life, worlds, steps, SendError);
  }

  // ------------------------------------------------- the option negotiation

  /** The step that offers the options. */
  predicate Offers(w: World, s: Step) {
    s.Transmit? && w.sender.block == 0
  }

  lemma {:induction false} OfferedAlready(
    file: Bytes, size: nat, life: nat, worlds: seq<World>, steps: seq<Step>, a: nat, i: nat)
    requires IsRun(file, size, life, worlds, steps) && a < i < |worlds| && Offers(worlds[a], steps[a])
    ensures worlds[i].sender.block >= 1 || worlds[i].sender.status != Sending
  {
    if i > a + 1 {
      OfferedAlready(file, size, life, worlds, steps, a, i - 1);
    }
  }

  /** The options are offered once: a lost offer or a lost answer to it ends the transfer. */
  lemma OptionsAreOfferedOnce(
    file: Bytes, size: nat, life: nat, worlds: seq<World>, steps: seq<Step>, a: nat, b: nat)
    requires IsRun(file, size, life, worlds, steps) && a < |steps| && b < |steps|
    requires Offers(worlds[a], steps[a]) && Offers(worlds[b], steps[b])
    ensures a == b
  {
    if a < b {
      OfferedAlready(file, size, life, worlds, steps, a, b);
    } else if b < a {
      OfferedAlready(file, size, life, worlds, steps, b, a);
    }
  }
}
