/** One producer and one consumer on the same ring, each able to interrupt the other between any two accesses. */
module RingInterleaving {
  import opened RingBuffer

  // A producer loads the read index, checks once that a whole block fits, and then writes the block
  // without further checks, `width` elements per update of the write index.  The byte queues use blocks
  // of one; the audio path uses blocks of 40 samples written in pairs.

  datatype Config = Config(block: nat, width: nat)

  const BYTE_QUEUE := Config(1, 1)
  const AUDIO := Config(40, 2)
  const AUDIO_SIZE := 128

  datatype Producer<T> =
    | Resting
    | Checking(seen: nat, ghost room: nat)
    | Writing(left: nat, stored: seq<T>)

  datatype Consumer<T> = Waiting | Looking(seen: nat) | Reading | Holding(value: T)

  /** `accepted` and `consumed` are the elements published and taken so far. */
  datatype System<T> = System(
    buffer: seq<T>, read: nat, write: nat, producer: Producer<T>, consumer: Consumer<T>, accepted: seq<T>,
    consumed: seq<T>)

  datatype Action<T> = LoadRead | Decide | Store(v: T) | Publish | LoadWrite | Judge | Fetch | Advance

  ghost predicate Fits(c: Config, size: nat) {
    IsPowerOfTwo(size) && Sound(c, size)
  }

  /** What the pointer arithmetic relies on. */
  ghost predicate Sound(c: Config, size: nat) {
    size % 2 == 0 && 0 < c.block < size && (c.width == 1 || (c.width == 2 && c.block % 2 == 0))
  }

  ghost predicate Init<T>(c: Config, s: System<T>) {
    Fits(c, |s.buffer|) && s.read == s.write == 0 && s.producer.Resting? && s.consumer.Waiting? &&
        s.accepted == s.consumed == []
  }

  /** Every index points into the buffer. */
  ghost predicate InBounds<T>(s: System<T>) {
    && s.read < |s.buffer| && s.write < |s.buffer|
    && (s.producer.Checking? ==> s.producer.seen < |s.buffer|)
    && (s.consumer.Looking? ==> s.consumer.seen < |s.buffer|)
  }

  ghost predicate Next<T>(c: Config, s: System<T>, a: Action<T>, s': System<T>) {
    var size := |s.buffer|;
    InBounds(s) &&
    match a
    case LoadRead =>
      s.producer.Resting? && s' == s.(producer := Checking(s.read, Wrap(s.read - s.write - 1, size)))
    case Decide =>
      s.producer.Checking? &&
      s' == s.(producer := if Wrap(s.producer.seen - s.write - 1, size) >= c.block then Writing(c.block, [])
          else Resting)
    case Store(v) =>
      && s.producer.Writing? && |s.producer.stored| < c.width
      && s.write + |s.producer.stored| < size
      && s' == s.(buffer := s.buffer[s.write + |s.producer.stored| := v],
                  producer := Writing(s.producer.left, s.producer.stored + [v]))
    case Publish =>
      && s.producer.Writing? && |s.producer.stored| == c.width <= s.producer.left && c.width < size
      && s' == s.(write := Wrap(s.write + c.width, size),
                  accepted := s.accepted + s.producer.stored,
                  producer := if s.producer.left == c.width then Resting else Writing(s.producer.left - c.width, []))
    case LoadWrite =>
      s.consumer.Waiting? && s' == s.(consumer := Looking(s.write))
    case Judge =>
      s.consumer.Looking? && s' == s.(consumer := if Wrap(s.consumer.seen - s.read, size) > 0 then Reading else Waiting)
    case Fetch =>
      s.consumer.Reading? && s' == s.(consumer := Holding(s.buffer[s.read]))
    case Advance =>
      s.consumer.Holding? &&
      s' == s.(read := Wrap(s.read + 1, size), consumed := s.consumed + [s.consumer.value], consumer := Waiting)
  }

  /** What has been accepted and not yet consumed is what lies between the indices. */
  ghost predicate IsQueue<T>(c: Config, buffer: seq<T>, read: nat, write: nat, accepted: seq<T>, consumed: seq<T>) {
    && Sound(c, |buffer|) && read < |buffer| && write < |buffer|
    && (c.width == 2 ==> write % 2 == 0)
    && accepted == consumed + Pending(buffer, read, write)
  }

  /** Room seen or granted is still there. */
  ghost predicate ProducerSafe<T>(c: Config, buffer: seq<T>, read: nat, write: nat, producer: Producer<T>)
    requires read < |buffer| && write < |buffer|
  {
    var room := Wrap(read - write - 1, |buffer|);
    match producer
    case Resting => true
    case Checking(seen, roomThen) => seen < |buffer| && Wrap(seen - write - 1, |buffer|) == roomThen <= room
    case Writing(left, stored) =>
      && 0 < left <= room && (c.width == 2 ==> left % 2 == 0)
      && |stored| <= c.width
      && forall j :: 0 <= j < |stored| ==> write + j < |buffer| && buffer[write + j] == stored[j]
  }

  /** Elements seen are still there, and the one being read is the oldest. */
  ghost predicate ConsumerSafe<T>(buffer: seq<T>, read: nat, write: nat, consumer: Consumer<T>)
    requires read < |buffer| && write < |buffer|
  {
    match consumer
    case Waiting => true
    case Looking(seen) => seen < |buffer| && Wrap(seen - read, |buffer|) <= Wrap(write - read, |buffer|)
    case Reading => read != write
    case Holding(value) => read != write && value == buffer[read]
  }

  ghost predicate Inv<T>(c: Config, s: System<T>) {
    && IsQueue(c, s.buffer, s.read, s.write, s.accepted, s.consumed)
    && ProducerSafe(c, s.buffer, s.read, s.write, s.producer)
    && ConsumerSafe(s.buffer, s.read, s.write, s.consumer)
  }

  lemma InitSatisfiesInv<T>(c: Config, s: System<T>)
    requires Init(c, s)
    ensures Inv(c, s)
  {
  }

  /** A slot that the producer stores into holds no unread element. */
  lemma StoreMissesUnread<T>(c: Config, s: System<T>, i: nat)
    requires Inv(c, s) && s.producer.Writing? && |s.producer.stored| < c.width
    ensures s.write + |s.producer.stored| < |s.buffer|
    ensures i < |Pending(s.buffer, s.read, s.write)| ==> Wrap(s.read + i, |s.buffer|) != s.write + |s.producer.stored|
  {
    if i < |Pending(s.buffer, s.read, s.write)| {
      FreeSlot(|s.buffer|, s.read, s.write, |s.producer.stored|, i);
    }
  }

  lemma StoreKeepsInv<T>(c: Config, s: System<T>, v: T, s': System<T>)
    requires Inv(c, s) && Next(c, s, Store(v), s')
    ensures Inv(c, s')
  {
    var before, after := Pending(s.buffer, s.read, s.write), Pending(s'.buffer, s.read, s.write);
    forall i | 0 <= i < |before| ensures before[i] == after[i] {
      StoreMissesUnread(c, s, i);
    }
    assert before == after;
    if s.read != s.write {
      StoreMissesUnread(c, s, 0);
    }
  }

  lemma PublishKeepsInv<T>(c: Config, s: System<T>, s': System<T>)
    requires Inv(c, s) && Next(c, s, Publish, s')
    ensures Inv(c, s')
  {
    hide *;
    Safe(c, s);
    Safe(c, s');
    PublishKeepsQueue(c, s, s');
    PublishKeepsProducer(c, s, s');
    PublishKeepsConsumer(c, s, s');
  }

  lemma Safe<T>(c: Config, s: System<T>)
    ensures Inv(c, s) <==>
            && IsQueue(c, s.buffer, s.read, s.write, s.accepted, s.consumed)
            && s.read < |s.buffer| && s.write < |s.buffer|
            && ProducerSafe(c, s.buffer, s.read, s.write, s.producer)
            && ConsumerSafe(s.buffer, s.read, s.write, s.consumer)
  {
  }

  lemma PublishKeepsProducer<T>(c: Config, s: System<T>, s': System<T>)
    requires Inv(c, s) && Next(c, s, Publish, s')
    ensures s'.read < |s'.buffer| && s'.write < |s'.buffer|
    ensures ProducerSafe(c, s'.buffer, s'.read, s'.write, s'.producer)
  {
    hide Pending, ConsumerSafe, Wrap;
    AfterPublish(|s.buffer|, s.read, s.write, c.width);
  }

  lemma PublishKeepsConsumer<T>(c: Config, s: System<T>, s': System<T>)
    requires Inv(c, s) && Next(c, s, Publish, s')
    ensures s'.read < |s'.buffer| && s'.write < |s'.buffer| && ConsumerSafe(s'.buffer, s'.read, s'.write, s'.consumer)
  {
    hide Pending;
    AfterPublish(|s.buffer|, s.read, s.write, c.width);
  }

  lemma PublishKeepsQueue<T>(c: Config, s: System<T>, s': System<T>)
    requires Inv(c, s) && Next(c, s, Publish, s')
    ensures IsQueue(c, s'.buffer, s'.read, s'.write, s'.accepted, s'.consumed)
  {
    hide Pending, ConsumerSafe;
    PendingAppend(s.buffer, s.read, s.write, s.producer.stored);
    assert s.consumed + (Pending(s.buffer, s.read, s.write) + s.producer.stored) == s'.accepted;
  }

  lemma AdvanceKeepsInv<T>(c: Config, s: System<T>, s': System<T>)
    requires Inv(c, s) && Next(c, s, Advance, s')
    ensures Inv(c, s')
  {
    hide *;
    Safe(c, s);
    Safe(c, s');
    AdvanceKeepsQueue(c, s, s');
    AdvanceKeepsSides(c, s, s');
  }

  lemma AdvanceKeepsSides<T>(c: Config, s: System<T>, s': System<T>)
    requires Inv(c, s) && Next(c, s, Advance, s')
    ensures s'.read < |s'.buffer| && s'.write < |s'.buffer|
    ensures ProducerSafe(c, s'.buffer, s'.read, s'.write, s'.producer)
    ensures ConsumerSafe(s'.buffer, s'.read, s'.write, s'.consumer)
  {
    hide Pending;
    AfterRead(|s.buffer|, s.read, s.write);
  }

  lemma AdvanceKeepsQueue<T>(c: Config, s: System<T>, s': System<T>)
    requires Inv(c, s) && Next(c, s, Advance, s')
    ensures IsQueue(c, s'.buffer, s'.read, s'.write, s'.accepted, s'.consumed)
  {
    hide Pending, ProducerSafe;
    PendingAdvance(s.buffer, s.read, s.write);
    assert s'.consumed + Pending(s.buffer, s'.read, s.write) ==
           s.consumed + ([s.consumer.value] + Pending(s.buffer, s'.read, s.write));
  }

  lemma NextKeepsInv<T>(c: Config, s: System<T>, a: Action<T>, s': System<T>)
    requires Inv(c, s) && Next(c, s, a, s')
    ensures Inv(c, s')
  {
    match a
    case Store(v) => StoreKeepsInv(c, s, v, s');
    case Publish => PublishKeepsInv(c, s, s');
    case Advance => AdvanceKeepsInv(c, s, s');
    case LoadRead => ProducerLookKeepsInv(c, s, a, s');
    case Decide => ProducerLookKeepsInv(c, s, a, s');
    case LoadWrite => ConsumerLookKeepsInv(c, s, a, s');
    case Judge => ConsumerLookKeepsInv(c, s, a, s');
    case Fetch => ConsumerLookKeepsInv(c, s, a, s');
  }

  lemma ProducerLookKeepsInv<T>(c: Config, s: System<T>, a: Action<T>, s': System<T>)
    requires Inv(c, s) && (a.LoadRead? || a.Decide?) && Next(c, s, a, s')
    ensures Inv(c, s')
  {
    hide Pending, ConsumerSafe;
  }

  lemma ConsumerLookKeepsInv<T>(c: Config, s: System<T>, a: Action<T>, s': System<T>)
    requires Inv(c, s) && (a.LoadWrite? || a.Judge? || a.Fetch?) && Next(c, s, a, s')
    ensures Inv(c, s')
  {
    hide Pending, ProducerSafe;
  }

  ghost predicate IsRun<T>(c: Config, run: seq<System<T>>, actions: seq<Action<T>>) {
    && |run| == |actions| + 1 && Init(c, run[0])
    && forall i {:trigger actions[i]} :: 0 <= i < |actions| ==> Next(c, run[i], actions[i], run[i + 1])
  }

  lemma {:induction false} RunKeepsInv<T>(c: Config, run: seq<System<T>>, actions: seq<Action<T>>, i: nat)
    requires IsRun(c, run, actions) && i < |run|
    ensures Inv(c, run[i])
  {
    if i == 0 {
      InitSatisfiesInv(c, run[0]);
    } else {
      RunKeepsInv(c, run, actions, i - 1);
      NextKeepsInv(c, run[i - 1], actions[i - 1], run[i]);
    }
  }

  /**
   Under any interleaving the ring is a queue of capacity size - 1: what was consumed is what was
   accepted, in the same order, with nothing lost or repeated, and the rest is still in the ring.
   */
  lemma RingIsQueue<T>(c: Config, run: seq<System<T>>, actions: seq<Action<T>>, i: nat)
    requires IsRun(c, run, actions) && i < |run|
    ensures InBounds(run[i])
    ensures run[i].accepted == run[i].consumed + Pending(run[i].buffer, run[i].read, run[i].write)
    ensures |run[i].accepted| - |run[i].consumed| < |run[i].buffer|
  {
    RunKeepsInv(c, run, actions, i);
  }

  /** A block is refused exactly when it did not fit at the moment the read index was loaded. */
  lemma RefusalMeansNoRoom<T>(c: Config, s: System<T>, s': System<T>)
    requires Inv(c, s) && Next(c, s, Decide, s')
    ensures s'.producer.Resting? <==> s.producer.room < c.block
  {
  }

  /** The audio buffer and the byte queues of 2 to 256 slots are instances. */
  lemma InstancesFit(size: nat)
    requires IsPowerOfTwo(size)
    ensures Fits(BYTE_QUEUE, size) && Fits(AUDIO, AUDIO_SIZE)
  {
  }
}
