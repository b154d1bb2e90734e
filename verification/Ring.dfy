/** The ring between the epoll thread and one worker: server/ring.h, and the steps the two
    threads take around it, server/server.c:374-389 and 417-440. The size is any power of two,
    2^k slots; the source has k = 12. */
module Ring {
  import opened Numbers

  // ---------------------------------------------------------------- indices under a mask

  /** Bitwise and of two unsigned numbers. */
  function And(x: nat, y: nat): (r: nat)
    ensures r <= y
  {
    if x == 0 || y == 0 then 0 else 2 * And(x / 2, y / 2) + (if x % 2 == 1 && y % 2 == 1 then 1 else 0)
  }

  lemma {:induction false} MaskIsMod(x: nat, k: nat)
    ensures And(x, Pow2(k) - 1) == x % Pow2(k)
    decreases k
  {
    hide And;
    if k == 0 {
      MaskNothing(x);
    } else {
      MaskIsMod(x / 2, k - 1);
      Halves(x, Pow2(k - 1));
    }
  }

  lemma MaskNothing(x: nat)
    ensures And(x, 0) == x % 1
  {}

  lemma Halves(x: nat, h: nat)
    requires h > 0 && And(x / 2, h - 1) == (x / 2) % h
    ensures And(x, 2 * h - 1) == x % (2 * h)
  {
    hide And;
    ModHalf(x, h);
    AndHalves(x, h);
  }

  lemma AndHalves(x: nat, h: nat)
    requires h > 0
    ensures And(x, 2 * h - 1) == 2 * And(x / 2, h - 1) + x % 2
  {
    assert (2 * h - 1) / 2 == h - 1 && (2 * h - 1) % 2 == 1;
  }

  const UINT_RANGE := 0x1_0000_0000

  // `unsigned int` arithmetic
  function Unsigned(x: int): (u: nat)
    ensures u < UINT_RANGE
  {
    x % UINT_RANGE
  }

  lemma UintRange()
    ensures Pow2(32) == UINT_RANGE
  {
    assert Pow2(8) == 0x100;
    assert Pow2(16) == 0x1_0000;
    assert Pow2(24) == 0x100_0000;
  }

  lemma MaskedIs(x: int, k: nat)
    requires k <= 31
    ensures And(Unsigned(x), Pow2(k) - 1) == x % Pow2(k)
  {
    MaskIsMod(Unsigned(x), k);
    Pow2Splits(k, 32 - k);
    UintRange();
    ModMod(x, Pow2(k), Pow2(32 - k));
  }

  // (index + 1) & (RING_SIZE - 1)
  function Next(index: nat, k: nat): (n: nat)
    ensures n < Pow2(k)
  {
    And(Unsigned(index + 1), Pow2(k) - 1)
  }

  // (head - tail) & (RING_SIZE - 1)
  function Used(head: nat, tail: nat, k: nat): (n: nat)
    ensures n < Pow2(k)
  {
    And(Unsigned(head - tail), Pow2(k) - 1)
  }

  // RING_SIZE - ring_buffer_used(bufmgr)
  function Avail(head: nat, tail: nat, k: nat): int {
    Pow2(k) - Used(head, tail, k)
  }

  function Index(i: nat, k: nat): (index: nat)
    ensures index < Pow2(k)
  {
    i % Pow2(k)
  }

  /** The masked indices count positions: Next moves one on, and Used is the distance. */
  lemma NextIndex(i: nat, k: nat)
    requires k <= 31
    ensures Next(Index(i, k), k) == Index(i + 1, k)
  {
    hide And, Unsigned;
    MaskedIs(i % Pow2(k) + 1, k);
    ModAdd(i, 1, Pow2(k));
  }

  lemma ModDifference(head: nat, tail: nat, m: nat)
    requires m > 0 && tail <= head < tail + m
    ensures (head % m - tail % m) % m == head - tail
  {
    var q := head / m - tail / m;
    assert head == m * (head / m) + head % m && tail == m * (tail / m) + tail % m;
    assert head - tail == head % m - tail % m + m * q;
    ModShift(head % m - tail % m, m, q);
    ModUnique(head - tail, m, 0, head - tail);
  }

  lemma UsedIsDistance(head: nat, tail: nat, k: nat)
    requires k <= 31 && tail <= head < tail + Pow2(k)
    ensures Used(Index(head, k), Index(tail, k), k) == head - tail
  {
    hide And, Unsigned;
    var m := Pow2(k);
    MaskedIs(head % m - tail % m, k);
    ModDifference(head, tail, m);
  }

  lemma IndexDistinct(i: nat, j: nat, k: nat)
    requires i < j < i + Pow2(k)
    ensures Index(i, k) != Index(j, k)
  {
    ModDistinct(i, j, Pow2(k));
  }

  // ---------------------------------------------------------------- the ring

  /** struct epoll_packet as the two threads use it: the 22 bytes of the header, the rest of the
      bytes, and the descriptors to answer on. */
  datatype Slot = Slot(header: seq<bv8>, body: seq<bv8>, fd: nat, efd: nat)

  // The n slots from `tail` on, around the end of the array.
  function Window(slots: seq<Slot>, tail: nat, n: nat, k: nat): (w: seq<Slot>)
    requires |slots| == Pow2(k)
    ensures |w| == n
    ensures forall i :: 0 <= i < n ==> w[i] == slots[Index(tail + i, k)]
  {
    seq(n, i requires 0 <= i < n => slots[Index(tail + i, k)])
  }

  class RingBuffer {
    const k: nat
    const buf: array<Slot>
    var head: nat
    var tail: nat

    ghost predicate Valid()
      reads this
    {
      k <= 31 && buf.Length == Pow2(k) && head < Pow2(k) && tail < Pow2(k)
    }

    // The packets in the ring, oldest first.
    ghost function Contents(): seq<Slot>
      requires Valid()
      reads this, buf
    {
      Window(buf[..], tail, Used(head, tail, k), k)
    }

    /** ring_buffer_init */
    constructor (k: nat, empty: Slot)
      requires k <= 31
      ensures Valid() && this.k == k && fresh(buf) && Contents() == []
    {
      this.k := k;
      head, tail := 0, 0;
      buf := new Slot[Pow2(k)](_ => empty);
      new;
      UsedIsDistance(0, 0, k);
      ModUnique(0, Pow2(k), 0, 0);
    }

    /** ring_buffer_push: what stands in the head slot joins the ring. In a ring with no slot to
        spare it throws everything away. */
    method Push()
      requires Valid()
      modifies this`head
      ensures Valid()
      ensures old(Used(head, tail, k)) < Pow2(k) - 1 ==> Contents() == old(Contents()) + [buf[old(head)]]
      ensures old(Used(head, tail, k)) == Pow2(k) - 1 ==> Contents() == []
    {
      hide Next, Used, Index, Window;
      PushUsed(head, tail, k);
      WindowGrows(buf[..], tail, Used(head, tail, k), k);
      WindowEmpty(buf[..], tail, k);
      head := Next(head, k);
    }

    /** ring_buffer_pop: the oldest packet leaves. In an empty ring it makes every slot but one
        count as a packet. */
    method Pop()
      requires Valid()
      modifies this`tail
      ensures Valid()
      ensures old(Contents()) != [] ==> Contents() == old(Contents())[1..]
      ensures old(Contents()) == [] ==> |Contents()| == Pow2(k) - 1
    {
      hide Next, Used, Index, Window;
      PopUsed(head, tail, k);
      if Used(head, tail, k) > 0 {
        WindowAfterNext(buf[..], tail, Used(head, tail, k) - 1, k);
      }
      tail := Next(tail, k);
    }

    /** ring_buffer_used, ring_buffer_avail */
    method Count() returns (used: nat, avail: nat)
      requires Valid()
      ensures used == |Contents()| < Pow2(k) && used + avail == Pow2(k)
    {
      used, avail := Used(head, tail, k), Pow2(k) - Used(head, tail, k);
    }
  }

  lemma PushUsed(head: nat, tail: nat, k: nat)
    requires k <= 31 && head < Pow2(k) && tail < Pow2(k)
    ensures var u := Used(head, tail, k);
            && Used(Next(head, k), tail, k) == (if u == Pow2(k) - 1 then 0 else u + 1)
            && Index(tail + u, k) == head
  {
    hide And;
    var m := Pow2(k);
    var end := if head < tail then head + m else head;
    Small(head, k); Small(tail, k);
    ModShift(head, m, 1);
    assert Index(end, k) == head;
    UsedIsDistance(end, tail, k);
    NextIndex(end, k);
    if end + 1 == tail + m {
      ModShift(tail, m, 1);
      UsedIsDistance(tail, tail, k);
    } else {
      UsedIsDistance(end + 1, tail, k);
    }
  }

  lemma PopUsed(head: nat, tail: nat, k: nat)
    requires k <= 31 && head < Pow2(k) && tail < Pow2(k)
    ensures var u := Used(head, tail, k);
            Used(head, Next(tail, k), k) == (if u == 0 then Pow2(k) - 1 else u - 1)
  {
    hide And;
    var m := Pow2(k);
    var end := if head < tail then head + m else head;
    Small(head, k); Small(tail, k);
    ModShift(head, m, 1);
    UsedIsDistance(end, tail, k);
    NextIndex(tail, k);
    if end == tail {
      ModShift(end, m, 1);
      UsedIsDistance(end + m, tail + 1, k);
    } else {
      UsedIsDistance(end, tail + 1, k);
    }
  }

  lemma WindowGrows(slots: seq<Slot>, tail: nat, n: nat, k: nat)
    requires |slots| == Pow2(k)
    ensures Window(slots, tail, n + 1, k) == Window(slots, tail, n, k) + [slots[Index(tail + n, k)]]
  {
    hide Index;
  }

  lemma WindowEmpty(slots: seq<Slot>, tail: nat, k: nat)
    requires |slots| == Pow2(k)
    ensures Window(slots, tail, 0, k) == []
  {}

  lemma IndexAfterNext(tail: nat, i: nat, k: nat)
    requires k <= 31 && tail < Pow2(k)
    ensures Index(Next(tail, k) + i, k) == Index(tail + 1 + i, k)
  {
    hide And, Next, Pow2;
    var m := Pow2(k);
    Small(tail, k);
    NextIndex(tail, k);
    ModAdd(tail + 1, i, m);
  }

  lemma WindowAfterNext(slots: seq<Slot>, tail: nat, n: nat, k: nat)
    requires k <= 31 && tail < Pow2(k) == |slots|
    ensures Window(slots, Next(tail, k), n, k) == Window(slots, tail, n + 1, k)[1..]
  {
    hide Next, Index;
    forall i: nat | i < n ensures Window(slots, Next(tail, k), n, k)[i] == Window(slots, tail, n + 1, k)[1..][i] {
      IndexAfterNext(tail, i, k);
      var j := i + 1;
      assert Window(slots, tail, n + 1, k)[j] == slots[Index(tail + j, k)];
    }
  }

  lemma Small(i: nat, k: nat)
    requires i < Pow2(k)
    ensures Index(i, k) == i
  {
    ModUnique(i, Pow2(k), 0, i);
  }

  // ---------------------------------------------------------------- the two threads

  /** Where the epoll thread stands in lines 378-388. */
  datatype Producer = PIdle | PTested | PWaiting | PWoken | PReady | PAtSlot | PBytes | PFd | PEfd | PPushed

  /** Where the worker stands in lines 418-440. */
  datatype Consumer = CIdle | CTested | CWaiting | CWoken | CReady | CAtSlot | CHeader | CBody | CFd | CEfd | CPopped

  /** The shared ring, both threads' program counters and locals, and the record of what has been
      put in and taken out. */
  datatype State = State(head: nat, tail: nat, slots: seq<Slot>,
                         p: Producer, item: Slot, at: nat,
                         c: Consumer, from: nat, copy: Slot,
                         put: seq<Slot>, taken: seq<Slot>)
  {
    predicate Shaped(k: nat) {
      k <= 31 && |slots| == Pow2(k) && head < Pow2(k) && tail < Pow2(k) && at < Pow2(k) && from < Pow2(k)
    }
  }

  /** Which thread moves; a producer that is idle starts on the packet given. A waiting thread may also
      wake without a signal, as pthread_cond_wait allows. */
  datatype Action = Produce(item: Slot) | Consume | WakeProducer | WakeConsumer

  /** How the threads wait. `recheck`: a thread that was woken looks at its guard again, as waiting is
      meant, and does not go on at once, as under the source's `if`. `atomic`: between testing its
      guard and sleeping nothing happens, so that no signal is lost. */
  datatype Mode = Mode(recheck: bool, atomic: bool)

  const UNDER_IF := Mode(false, true)

  // Where a thread goes whose guard does not hold.
  function ToSleepP(mode: Mode): Producer {
    if mode.atomic then PWaiting else PTested
  }

  function ToSleepC(mode: Mode): Consumer {
    if mode.atomic then CWaiting else CTested
  }

  /** One step of the producer. */
  function ProducerStep(s: State, item: Slot, k: nat, mode: Mode): (t: State)
    requires s.Shaped(k)
    ensures t.Shaped(k)
  {
    match s.p
    case PIdle => s.(item := item, p := if Avail(s.head, s.tail, k) <= 1 then ToSleepP(mode) else PReady)
    case PTested => s.(p := PWaiting)
    case PWaiting => s
    case PWoken => s.(p := if mode.recheck && Avail(s.head, s.tail, k) <= 1 then ToSleepP(mode) else PReady)
    case PReady => s.(at := s.head, p := PAtSlot)
    case PAtSlot => s.(slots := s.slots[s.at := s.slots[s.at].(header := s.item.header, body := s.item.body)], p := PBytes)
    case PBytes => s.(slots := s.slots[s.at := s.slots[s.at].(fd := s.item.fd)], p := PFd)
    case PFd => s.(slots := s.slots[s.at := s.slots[s.at].(efd := s.item.efd)], p := PEfd)
    case PEfd => s.(head := Next(s.head, k), put := s.put + [s.item], p := PPushed)
    case PPushed => s.(c := if s.c.CWaiting? then CWoken else s.c, p := PIdle)
  }

  /** One step of the consumer; decrypting reads the slot after the header was copied. */
  function ConsumerStep(s: State, k: nat, mode: Mode): (t: State)
    requires s.Shaped(k)
    ensures t.Shaped(k)
  {
    match s.c
    case CIdle => s.(c := if Used(s.head, s.tail, k) <= 0 then ToSleepC(mode) else CReady)
    case CTested => s.(c := CWaiting)
    case CWaiting => s
    case CWoken => s.(c := if mode.recheck && Used(s.head, s.tail, k) <= 0 then ToSleepC(mode) else CReady)
    case CReady => s.(from := s.tail, c := CAtSlot)
    case CAtSlot => s.(copy := s.copy.(header := s.slots[s.from].header), c := CHeader)
    case CHeader => s.(copy := s.copy.(body := s.slots[s.from].body), c := CBody)
    case CBody => s.(copy := s.copy.(fd := s.slots[s.from].fd), c := CFd)
    case CFd => s.(copy := s.copy.(efd := s.slots[s.from].efd), c := CEfd)
    case CEfd => s.(tail := Next(s.tail, k), taken := s.taken + [s.copy], c := CPopped)
    case CPopped => s.(p := if s.p.PWaiting? then PWoken else s.p, c := CIdle)
  }

  function Step(s: State, a: Action, k: nat, mode: Mode): (t: State)
    requires s.Shaped(k)
    ensures t.Shaped(k)
  {
    match a
    case Produce(item) => ProducerStep(s, item, k, mode)
    case Consume => ConsumerStep(s, k, mode)
    case WakeProducer => s.(p := if s.p.PWaiting? then PWoken else s.p)
    case WakeConsumer => s.(c := if s.c.CWaiting? then CWoken else s.c)
  }

  /** One interleaving: the threads move in the order of the actions. */
  function Run(s: State, actions: seq<Action>, k: nat, mode: Mode): (t: State)
    requires s.Shaped(k)
    ensures t.Shaped(k)
    decreases |actions|
  {
    if actions == [] then s else Run(Step(s, actions[0], k, mode), actions[1..], k, mode)
  }

  /** ring_buffer_init, both threads before their loops; locals hold anything. */
  function Initial(slots: seq<Slot>, item: Slot, copy: Slot, k: nat): (s: State)
    requires |slots| == Pow2(k) && k <= 31
    ensures s.Shaped(k)
  {
    State(0, 0, slots, PIdle, item, 0, CIdle, 0, copy, [], [])
  }

  // ---------------------------------------------------------------- safety

  /** Packets come out in the order they went in, none is lost or made up, and no more than
      RING_SIZE - 1 are ever inside. */
  ghost predicate Safe(s: State, k: nat) {
    && |s.taken| <= |s.put| && s.taken == s.put[..|s.taken|]
    && |s.put| - |s.taken| == Used(s.head, s.tail, k) <= Pow2(k) - 1
    && |s.slots| == Pow2(k)
    && forall i :: |s.taken| <= i < |s.put| ==> s.slots[Index(i, k)] == s.put[i]
  }

  predicate Filling(p: Producer) {
    p.PReady? || p.PAtSlot? || p.PBytes? || p.PFd? || p.PEfd?
  }

  predicate Reading(c: Consumer) {
    c.CAtSlot? || c.CHeader? || c.CBody? || c.CFd? || c.CEfd?
  }

  ghost predicate ProducerInv(s: State, k: nat)
    requires s.Shaped(k)
  {
    && (Filling(s.p) ==> |s.put| + 2 <= |s.taken| + Pow2(k))
    && (Filling(s.p) && !s.p.PReady? ==> s.at == s.head)
    && (s.p.PBytes? || s.p.PFd? || s.p.PEfd? ==> s.slots[s.at].header == s.item.header && s.slots[s.at].body == s.item.body)
    && (s.p.PFd? || s.p.PEfd? ==> s.slots[s.at].fd == s.item.fd)
    && (s.p.PEfd? ==> s.slots[s.at].efd == s.item.efd)
  }

  ghost predicate ConsumerInv(s: State, k: nat)
    requires s.Shaped(k)
  {
    && (Reading(s.c) || s.c.CReady? ==> |s.taken| < |s.put|)
    && (Reading(s.c) ==>
          var next := s.put[|s.taken|];
          && s.from == s.tail
          && (!s.c.CAtSlot? ==> s.copy.header == next.header)
          && (s.c.CBody? || s.c.CFd? || s.c.CEfd? ==> s.copy.body == next.body)
          && (s.c.CFd? || s.c.CEfd? ==> s.copy.fd == next.fd)
          && (s.c.CEfd? ==> s.copy.efd == next.efd))
  }

  ghost predicate Inv(s: State, k: nat) {
    && s.Shaped(k) && Safe(s, k)
    && s.head == Index(|s.put|, k) && s.tail == Index(|s.taken|, k)
    && ProducerInv(s, k) && ConsumerInv(s, k)
  }

  /** A wake-up finds its guard true: there is a slot to spare, or a packet to take. */
  predicate Orderly(s: State, a: Action, k: nat) {
    match a
    case Produce(_) => s.p.PWoken? ==> Avail(s.head, s.tail, k) > 1
    case Consume => s.c.CWoken? ==> Used(s.head, s.tail, k) > 0
    case _ => true
  }

  // Writing into the head slot leaves the packets in the ring alone.
  lemma WritingKeeps(s: State, item: Slot, k: nat, mode: Mode)
    requires Inv(s, k) && (s.p.PAtSlot? || s.p.PBytes? || s.p.PFd?)
    ensures Inv(ProducerStep(s, item, k, mode), k)
  {
    hide Next, Used, Index;
    forall i | |s.taken| <= i < |s.put| ensures Index(i, k) != s.at {
      IndexDistinct(i, |s.put|, k);
    }
  }

  lemma PushKeeps(s: State, item: Slot, k: nat, mode: Mode)
    requires Inv(s, k) && s.p.PEfd?
    ensures Inv(ProducerStep(s, item, k, mode), k)
  {
    hide Next, Used, Index;
    NextIndex(|s.put|, k);
    UsedIsDistance(|s.put| + 1, |s.taken|, k);
    assert s.slots[s.at] == s.item;
  }

  lemma ProducerWaits(s: State, item: Slot, k: nat, mode: Mode)
    requires Inv(s, k) && (mode.recheck || Orderly(s, Produce(item), k))
    requires s.p.PIdle? || s.p.PTested? || s.p.PWaiting? || s.p.PWoken?
    ensures Inv(ProducerStep(s, item, k, mode), k)
  {
    hide Next, Used, Index;
  }

  lemma ProducerStarts(s: State, item: Slot, k: nat, mode: Mode)
    requires Inv(s, k) && (s.p.PReady? || s.p.PPushed?)
    ensures Inv(ProducerStep(s, item, k, mode), k)
  {
    hide Next, Used, Index;
  }

  lemma ProducerKeeps(s: State, item: Slot, k: nat, mode: Mode)
    requires Inv(s, k) && (mode.recheck || Orderly(s, Produce(item), k))
    ensures Inv(ProducerStep(s, item, k, mode), k)
  {
    InvIsSafe(s, k);
    hide Inv, Safe, ProducerStep, Orderly;
    match s.p
    case PAtSlot | PBytes | PFd => WritingKeeps(s, item, k, mode);
    case PEfd => PushKeeps(s, item, k, mode);
    case PReady | PPushed => ProducerStarts(s, item, k, mode);
    case _ => ProducerWaits(s, item, k, mode);
  }

  lemma PopKeeps(s: State, k: nat, mode: Mode)
    requires Inv(s, k) && s.c.CEfd?
    ensures Inv(ConsumerStep(s, k, mode), k)
  {
    hide Next, Used, Index;
    NextIndex(|s.taken|, k);
    UsedIsDistance(|s.put|, |s.taken| + 1, k);
    assert s.copy == s.put[|s.taken|];
  }

  lemma ReadingKeeps(s: State, k: nat, mode: Mode)
    requires Inv(s, k) && (s.c.CAtSlot? || s.c.CHeader? || s.c.CBody? || s.c.CFd?)
    ensures Inv(ConsumerStep(s, k, mode), k)
  {
    hide Next, Used, Index;
    assert s.slots[s.from] == s.put[|s.taken|];
  }

  lemma ConsumerWaits(s: State, k: nat, mode: Mode)
    requires Inv(s, k) && (mode.recheck || Orderly(s, Consume, k))
    requires s.c.CIdle? || s.c.CTested? || s.c.CWaiting? || s.c.CWoken?
    ensures Inv(ConsumerStep(s, k, mode), k)
  {
    hide Next, Used, Index;
  }

  lemma ConsumerStarts(s: State, k: nat, mode: Mode)
    requires Inv(s, k) && (s.c.CReady? || s.c.CPopped?)
    ensures Inv(ConsumerStep(s, k, mode), k)
  {
    hide Next, Used, Index;
  }

  lemma ConsumerKeeps(s: State, k: nat, mode: Mode)
    requires Inv(s, k) && (mode.recheck || Orderly(s, Consume, k))
    ensures Inv(ConsumerStep(s, k, mode), k)
  {
    InvIsSafe(s, k);
    hide Inv, Safe, ConsumerStep, Orderly;
    match s.c
    case CAtSlot | CHeader | CBody | CFd => ReadingKeeps(s, k, mode);
    case CEfd => PopKeeps(s, k, mode);
    case CReady | CPopped => ConsumerStarts(s, k, mode);
    case _ => ConsumerWaits(s, k, mode);
  }

  lemma StepKeeps(s: State, a: Action, k: nat, mode: Mode)
    requires Inv(s, k) && (mode.recheck || Orderly(s, a, k))
    ensures Inv(Step(s, a, k, mode), k)
  {
    hide Inv, ProducerStep, ConsumerStep, Orderly;
    match a
    case Produce(item) => ProducerKeeps(s, item, k, mode);
    case Consume => ConsumerKeeps(s, k, mode);
    case _ => WakingKeeps(s, a, k, mode);
  }

  lemma WakingKeeps(s: State, a: Action, k: nat, mode: Mode)
    requires Inv(s, k) && (a.WakeProducer? || a.WakeConsumer?)
    ensures Inv(Step(s, a, k, mode), k)
  {
    hide Next, Used, Index;
  }

  lemma InitialInv(slots: seq<Slot>, item: Slot, copy: Slot, k: nat)
    requires |slots| == Pow2(k) && k <= 31
    ensures Inv(Initial(slots, item, copy, k), k)
  {
    hide Used;
    Small(0, k);
    UsedIsDistance(0, 0, k);
  }

  lemma {:induction false} RunKeeps(s: State, actions: seq<Action>, k: nat, mode: Mode)
    requires Inv(s, k) && mode.recheck
    ensures Inv(Run(s, actions, k, mode), k)
    decreases |actions|
  {
    hide Inv, Step;
    InvIsSafe(s, k);
    if actions != [] {
      StepKeeps(s, actions[0], k, mode);
      RunKeeps(Step(s, actions[0], k, mode), actions[1..], k, mode);
    }
  }

  /** In every interleaving in which waiting means waiting until the guard holds, the ring is safe,
      even if threads wake without a signal. */
  lemma EveryRunIsSafe(slots: seq<Slot>, item: Slot, copy: Slot, actions: seq<Action>, k: nat, mode: Mode)
    requires |slots| == Pow2(k) && k <= 31 && mode.recheck
    ensures Safe(Run(Initial(slots, item, copy, k), actions, k, mode), k)
  {
    hide Run, Initial, Safe;
    InitialInv(slots, item, copy, k);
    RunKeeps(Initial(slots, item, copy, k), actions, k, mode);
  }

  /** Between taking its slot and popping it, the slot the consumer reads does not change,
      whichever thread moves. */
  lemma SlotBeingReadStays(s: State, a: Action, k: nat, mode: Mode)
    requires Inv(s, k) && Reading(s.c)
    ensures Step(s, a, k, mode).slots[s.from] == s.slots[s.from] == s.put[|s.taken|]
  {
    hide Next, Used, Index;
    if Filling(s.p) {
      IndexDistinct(|s.taken|, |s.put|, k);
    }
  }

  // ---------------------------------------------------------------- waiting under `if`

  /** Every wake-up along the run finds its guard true. */
  predicate OrderlyRun(s: State, actions: seq<Action>, k: nat, mode: Mode)
    requires s.Shaped(k)
    decreases |actions|
  {
    actions != [] ==> Orderly(s, actions[0], k) && OrderlyRun(Step(s, actions[0], k, mode), actions[1..], k, mode)
  }

  lemma {:induction false} OrderlyRunKeeps(s: State, actions: seq<Action>, k: nat, mode: Mode)
    requires Inv(s, k) && OrderlyRun(s, actions, k, mode)
    ensures Inv(Run(s, actions, k, mode), k)
    decreases |actions|
  {
    hide Inv, Step, Orderly;
    InvIsSafe(s, k);
    if actions != [] {
      StepKeeps(s, actions[0], k, mode);
      OrderlyRunKeeps(Step(s, actions[0], k, mode), actions[1..], k, mode);
    }
  }

  function Repeat(a: Action, n: nat): (actions: seq<Action>)
    ensures |actions| == n
  {
    if n == 0 then [] else [a] + Repeat(a, n - 1)
  }

  lemma {:induction false} RepeatIs(a: Action, n: nat)
    ensures forall b :: b in Repeat(a, n) ==> b == a
  {
    if n > 0 { RepeatIs(a, n - 1); }
  }

  predicate WokenFor(s: State, a: Action) {
    match a
    case Produce(_) => s.p.PWoken?
    case Consume => s.c.CWoken?
    case _ => false
  }

  lemma {:induction false} AloneIsOrderly(s: State, a: Action, n: nat, k: nat, mode: Mode)
    requires s.Shaped(k) && Orderly(s, a, k)
    ensures OrderlyRun(s, Repeat(a, n), k, mode)
    decreases n
  {
    hide Used, Next;
    if n > 0 {
      var t := Step(s, a, k, mode);
      assert !WokenFor(t, a);
      AloneIsOrderly(t, a, n - 1, k, mode);
      assert Repeat(a, n)[1..] == Repeat(a, n - 1);
    }
  }

  lemma {:induction false} RepeatOnce(s: State, a: Action, n: nat, k: nat, mode: Mode)
    requires s.Shaped(k)
    ensures Run(s, Repeat(a, n + 1), k, mode) == Run(Step(s, a, k, mode), Repeat(a, n), k, mode)
  {
    hide Step;
    assert Repeat(a, n + 1)[1..] == Repeat(a, n);
  }

  // Steps a woken thread, under `if`, is away from its pop or push.
  function ToPop(c: Consumer): nat {
    match c
    case CWoken => 7 case CReady => 6 case CAtSlot => 5 case CHeader => 4 case CBody => 3 case CFd => 2 case CEfd => 1
    case _ => 0
  }

  function ToPush(p: Producer): nat {
    match p
    case PWoken => 6 case PReady => 5 case PAtSlot => 4 case PBytes => 3 case PFd => 2 case PEfd => 1
    case _ => 0
  }

  lemma {:induction false} PopsAlone(s: State, k: nat, mode: Mode)
    requires s.Shaped(k) && ToPop(s.c) > 0 && (s.c.CWoken? ==> !mode.recheck)
    ensures var t := Run(s, Repeat(Consume, ToPop(s.c)), k, mode);
            |t.taken| == |s.taken| + 1 && t.put == s.put && t.c.CPopped? && t.p == s.p
    decreases ToPop(s.c)
  {
    hide Used, Next, Repeat, Run;
    var t := Step(s, Consume, k, mode);
    RepeatOnce(s, Consume, ToPop(s.c) - 1, k, mode);
    if s.c.CEfd? {
      RunNothing(t, Consume, k, mode);
    } else {
      PopsAlone(t, k, mode);
    }
  }

  lemma {:induction false} PushesAlone(s: State, a: Action, k: nat, mode: Mode)
    requires s.Shaped(k) && ToPush(s.p) > 0 && a.Produce? && (s.p.PWoken? ==> !mode.recheck)
    ensures var t := Run(s, Repeat(a, ToPush(s.p)), k, mode);
            |t.put| == |s.put| + 1 && t.taken == s.taken && t.p.PPushed? && t.c == s.c
    decreases ToPush(s.p)
  {
    hide Used, Next, Repeat, Run;
    var t := Step(s, a, k, mode);
    RepeatOnce(s, a, ToPush(s.p) - 1, k, mode);
    if s.p.PEfd? {
      RunNothing(t, a, k, mode);
    } else {
      PushesAlone(t, a, k, mode);
    }
  }

  lemma RunNothing(s: State, a: Action, k: nat, mode: Mode)
    requires s.Shaped(k)
    ensures Run(s, Repeat(a, 0), k, mode) == s
  {}

  /** The waits under `if` are right exactly when a wake-up finds its guard true: from any good
      state in which a thread was just woken, letting it go on alone stays safe for ever if and
      only if there is a slot to spare for it, or a packet. */
  lemma WakeIsSafeIff(s: State, a: Action, k: nat, mode: Mode)
    requires Inv(s, k) && WokenFor(s, a) && !mode.recheck
    ensures (forall n: nat :: Safe(Run(s, Repeat(a, n), k, mode), k)) <==> Orderly(s, a, k)
  {
    hide Inv, Safe, Run, Repeat;
    InvIsSafe(s, k);
    if Orderly(s, a, k) {
      forall n: nat ensures Safe(Run(s, Repeat(a, n), k, mode), k) {
        AloneIsOrderly(s, a, n, k, mode);
        OrderlyRunKeeps(s, Repeat(a, n), k, mode);
        InvIsSafe(Run(s, Repeat(a, n), k, mode), k);
      }
    } else {
      Disorder(s, a, k, mode);
    }
  }

  lemma Disorder(s: State, a: Action, k: nat, mode: Mode)
    requires Inv(s, k) && WokenFor(s, a) && !Orderly(s, a, k) && !mode.recheck
    ensures s.Shaped(k) && exists n: nat :: !Safe(Run(s, Repeat(a, n), k, mode), k)
  {
    hide Run, Repeat, Used;
    if a.Consume? {
      PopsAlone(s, k, mode);
      assert !Safe(Run(s, Repeat(a, 7), k, mode), k);
    } else {
      PushesAlone(s, a, k, mode);
      assert !Safe(Run(s, Repeat(a, 6), k, mode), k);
    }
  }

  lemma InvIsSafe(s: State, k: nat)
    requires Inv(s, k)
    ensures Safe(s, k) && s.Shaped(k)
  {
    hide Safe;
  }

  lemma {:induction false} RunAppend(s: State, a: seq<Action>, b: seq<Action>, k: nat, mode: Mode)
    requires s.Shaped(k)
    ensures Run(s, a + b, k, mode) == Run(Run(s, a, k, mode), b, k, mode)
    decreases |a|
  {
    hide Step;
    if a == [] {
      assert a + b == b;
    } else {
      assert (a + b)[1..] == a[1..] + b;
      RunAppend(Step(s, a[0], k, mode), a[1..], b, k, mode);
    }
  }

  lemma AloneKeeps(s: State, a: Action, n: nat, k: nat, mode: Mode)
    requires Inv(s, k) && Orderly(s, a, k)
    ensures s.Shaped(k) && Inv(Run(s, Repeat(a, n), k, mode), k)
  {
    hide Orderly, Run, Repeat;
    InvIsSafe(s, k);
    hide Inv;
    AloneIsOrderly(s, a, n, k, mode);
    OrderlyRunKeeps(s, Repeat(a, n), k, mode);
  }

  lemma FirstPacket(s: State, a: Action, k: nat, mode: Mode)
    requires 1 <= k && Inv(s, k) && a.Produce? && s.p.PIdle? && s.c.CIdle? && s.put == s.taken == []
    ensures var t := Run(s, Repeat(a, 6), k, mode);
            t.p.PPushed? && t.c.CIdle? && |t.put| == 1 && t.taken == [] && Inv(t, k)
  {
    hide Run, Repeat, Next, Index;
    AloneKeeps(s, a, 6, k, mode);
    assert Pow2(k) >= 2;
    RepeatOnce(s, a, 5, k, mode);
    PushesAlone(Step(s, a, k, mode), a, k, mode);
  }

  lemma TakenAndWaiting(s: State, k: nat, mode: Mode)
    requires mode.atomic && Inv(s, k) && s.c.CIdle? && s.p.PPushed? && |s.put| == 1 && s.taken == []
    ensures var t := Run(s, Repeat(Consume, 9), k, mode);
            t.c.CWaiting? && t.p.PPushed? && |t.put| == |t.taken| == 1 && Inv(t, k)
  {
    hide Run, Repeat, Next, Index, Used;
    AloneKeeps(s, Consume, 9, k, mode);
    var s1 := Step(s, Consume, k, mode);
    assert s1.c.CReady?;
    PopsAlone(s1, k, mode);
    var s7 := Run(s1, Repeat(Consume, 6), k, mode);
    AloneKeeps(s, Consume, 7, k, mode);
    RepeatOnce(s, Consume, 6, k, mode);
    ThenWaiting(s7, k, mode);
    RepeatMore(s, Consume, 7, 2, k, mode);
  }

  lemma ThenWaiting(s: State, k: nat, mode: Mode)
    requires mode.atomic && Inv(s, k) && s.c.CPopped? && s.p.PPushed? && |s.put| == |s.taken|
    ensures var t := Run(s, Repeat(Consume, 2), k, mode);
            t.c.CWaiting? && t.p.PPushed? && t.put == s.put && t.taken == s.taken
  {
    hide Run, Repeat, Next, Index, Used;
    var t := Step(s, Consume, k, mode);
    RepeatOnce(s, Consume, 1, k, mode);
    RepeatOnce(t, Consume, 0, k, mode);
    RunNothing(Step(t, Consume, k, mode), Consume, k, mode);
  }

  lemma {:induction false} RepeatAdd(a: Action, m: nat, n: nat)
    ensures Repeat(a, m + n) == Repeat(a, m) + Repeat(a, n)
  {
    if m > 0 {
      RepeatAdd(a, m - 1, n);
      assert m + n - 1 == (m - 1) + n;
    }
  }

  lemma RepeatMore(s: State, a: Action, m: nat, n: nat, k: nat, mode: Mode)
    requires s.Shaped(k)
    ensures Run(s, Repeat(a, m + n), k, mode) == Run(Run(s, Repeat(a, m), k, mode), Repeat(a, n), k, mode)
  {
    hide Run, Repeat;
    RepeatAdd(a, m, n);
    RunAppend(s, Repeat(a, m), Repeat(a, n), k, mode);
  }

  /** Such a run exists for every ring of two slots or more, because both sides signal after
      giving up the lock: the producer's signal for its first packet comes when the consumer has
      taken that packet already and waits again, and the consumer takes a packet nobody put in. */
  lemma StaleSignal(slots: seq<Slot>, item: Slot, copy: Slot, k: nat)
    requires |slots| == Pow2(k) && 1 <= k <= 31
    ensures var late := Repeat(Produce(item), 6) + Repeat(Consume, 9) + [Produce(item)];
            exists n: nat :: !Safe(Run(Initial(slots, item, copy, k), late + Repeat(Consume, n), k, UNDER_IF), k)
  {
    var a := Produce(item);
    var s := Initial(slots, item, copy, k);
    InitialInv(slots, item, copy, k);
    hide Run, Repeat, Initial, Safe, Inv;
    FirstPacket(s, a, k, UNDER_IF);
    var s6 := Run(s, Repeat(a, 6), k, UNDER_IF);
    TakenAndWaiting(s6, k, UNDER_IF);
    RunAppend(s, Repeat(a, 6), Repeat(Consume, 9), k, UNDER_IF);
    var s15 := Run(s6, Repeat(Consume, 9), k, UNDER_IF);
    var early := Repeat(a, 6) + Repeat(Consume, 9);
    RunAppend(s, early, [a], k, UNDER_IF);
    LateSignal(s15, a, k, UNDER_IF);
    var s16 := Run(s, early + [a], k, UNDER_IF);
    Disorder(s16, Consume, k, UNDER_IF);
    var n: nat :| !Safe(Run(s16, Repeat(Consume, n), k, UNDER_IF), k);
    RunAppend(s, early + [a], Repeat(Consume, n), k, UNDER_IF);
  }

  lemma RunOne(s: State, a: Action, k: nat, mode: Mode)
    requires s.Shaped(k)
    ensures Run(s, [a], k, mode) == Step(s, a, k, mode)
  {
    hide Step;
    assert [a][1..] == [];
    assert Run(Step(s, a, k, mode), [], k, mode) == Step(s, a, k, mode);
  }

  /** A wake-up without a signal does it too, and sooner: the worker, waiting for its first packet, takes one
      out of the empty ring. */
  lemma SpuriousWake(slots: seq<Slot>, item: Slot, copy: Slot, k: nat)
    requires |slots| == Pow2(k) && k <= 31
    ensures exists n: nat :: !Safe(Run(Initial(slots, item, copy, k), [Consume, WakeConsumer] + Repeat(Consume, n), k, UNDER_IF), k)
  {
    var s := Initial(slots, item, copy, k);
    InitialInv(slots, item, copy, k);
    UsedIsDistance(0, 0, k);
    Small(0, k);
    hide Run, Repeat, Safe, Inv, Used;
    StepKeeps(s, Consume, k, UNDER_IF);
    var s1 := Step(s, Consume, k, UNDER_IF);
    WakingKeeps(s1, WakeConsumer, k, UNDER_IF);
    var s2 := Step(s1, WakeConsumer, k, UNDER_IF);
    Disorder(s2, Consume, k, UNDER_IF);
    var n: nat :| !Safe(Run(s2, Repeat(Consume, n), k, UNDER_IF), k);
    RunOne(s, Consume, k, UNDER_IF);
    RunOne(s1, WakeConsumer, k, UNDER_IF);
    RunAppend(s, [Consume], [WakeConsumer], k, UNDER_IF);
    assert [Consume, WakeConsumer] == [Consume] + [WakeConsumer];
    RunAppend(s, [Consume, WakeConsumer], Repeat(Consume, n), k, UNDER_IF);
  }

  lemma LateSignal(s: State, a: Action, k: nat, mode: Mode)
    requires Inv(s, k) && a.Produce? && s.p.PPushed? && s.c.CWaiting? && |s.put| == |s.taken|
    ensures var t := Run(s, [a], k, mode);
            Inv(t, k) && WokenFor(t, Consume) && !Orderly(t, Consume, k)
  {
    hide Next, Index, Used;
    StepKeeps(s, a, k, mode);
    assert [a][1..] == [];
    assert Run(Step(s, a, k, mode), [], k, mode) == Step(s, a, k, mode);
  }

  // ---------------------------------------------------------------- losing a signal

  predicate Asleep(s: State) {
    s.p.PWaiting? && s.c.CWaiting?
  }

  // No thread wakes without a signal.
  predicate OnlySignals(actions: seq<Action>) {
    forall a :: a in actions ==> a.Produce? || a.Consume?
  }

  /** Once both threads wait, they wait for ever, unless one wakes without a signal. */
  lemma {:induction false} AsleepForEver(s: State, actions: seq<Action>, k: nat, mode: Mode)
    requires s.Shaped(k) && Asleep(s) && OnlySignals(actions)
    ensures Run(s, actions, k, mode) == s
    decreases |actions|
  {
    hide Used, Next;
    if actions != [] {
      AsleepForEver(s, actions[1..], k, mode);
    }
  }

  /** The signal of this step, if it is one, does not come between the other's test and its sleep. */
  predicate Heard(s: State, a: Action) {
    match a
    case Produce(_) => s.p.PPushed? ==> !s.c.CTested?
    case Consume => s.c.CPopped? ==> !s.p.PTested?
    case _ => true
  }

  predicate HeardRun(s: State, actions: seq<Action>, k: nat, mode: Mode)
    requires s.Shaped(k)
    decreases |actions|
  {
    actions != [] ==> Heard(s, actions[0]) && HeardRun(Step(s, actions[0], k, mode), actions[1..], k, mode)
  }

  // Who sleeps has reason to, or will be woken by the step the other is about to make.
  predicate Justified(s: State, k: nat) {
    && (s.c.CTested? || s.c.CWaiting? ==> |s.put| == |s.taken| || s.p.PPushed?)
    && (s.p.PTested? || s.p.PWaiting? ==> |s.put| + 1 >= |s.taken| + Pow2(k) || s.c.CPopped?)
  }

  ghost predicate WaitInv(s: State, k: nat) {
    Inv(s, k) && Justified(s, k)
  }

  lemma StaysJustified(s: State, a: Action, k: nat, mode: Mode)
    requires s.Shaped(k) && Justified(s, k) && Heard(s, a)
    requires |s.put| - |s.taken| == Used(s.head, s.tail, k)
    ensures Justified(Step(s, a, k, mode), k)
  {
    hide Next, Used;
  }

  lemma WaitKeeps(s: State, a: Action, k: nat, mode: Mode)
    requires WaitInv(s, k) && mode.recheck && Heard(s, a)
    ensures WaitInv(Step(s, a, k, mode), k)
  {
    hide ProducerInv, ConsumerInv, Step, Heard, Justified, Used, Index, Orderly;
    StepKeeps(s, a, k, mode);
    StaysJustified(s, a, k, mode);
  }

  lemma {:induction false} HeardRunKeeps(s: State, actions: seq<Action>, k: nat, mode: Mode)
    requires WaitInv(s, k) && mode.recheck && HeardRun(s, actions, k, mode)
    ensures WaitInv(Run(s, actions, k, mode), k)
    decreases |actions|
  {
    InvIsSafe(s, k);
    hide WaitInv, Step, Heard;
    if actions != [] {
      WaitKeeps(s, actions[0], k, mode);
      HeardRunKeeps(Step(s, actions[0], k, mode), actions[1..], k, mode);
    }
  }

  /** Rechecking threads never both wait, in a ring of two slots or more, if no signal falls between a
      test and the sleep after it. */
  lemma NotBothAsleep(slots: seq<Slot>, item: Slot, copy: Slot, actions: seq<Action>, k: nat, mode: Mode)
    requires |slots| == Pow2(k) && 1 <= k <= 31 && mode.recheck
    requires HeardRun(Initial(slots, item, copy, k), actions, k, mode)
    ensures !Asleep(Run(Initial(slots, item, copy, k), actions, k, mode))
  {
    InitialInv(slots, item, copy, k);
    hide Run, HeardRun, Inv;
    HeardRunKeeps(Initial(slots, item, copy, k), actions, k, mode);
    assert Pow2(k) >= 2;
  }

  lemma {:induction false} AtomicIsHeard(s: State, actions: seq<Action>, k: nat, mode: Mode)
    requires s.Shaped(k) && mode.atomic && !s.p.PTested? && !s.c.CTested?
    ensures HeardRun(s, actions, k, mode)
    decreases |actions|
  {
    hide Used, Next;
    if actions != [] {
      AtomicIsHeard(Step(s, actions[0], k, mode), actions[1..], k, mode);
    }
  }

  /** So they never do if test and sleep are one step. */
  lemma AtomicNotBothAsleep(slots: seq<Slot>, item: Slot, copy: Slot, actions: seq<Action>, k: nat)
    requires |slots| == Pow2(k) && 1 <= k <= 31
    ensures !Asleep(Run(Initial(slots, item, copy, k), actions, k, Mode(true, true)))
  {
    hide Run, HeardRun;
    AtomicIsHeard(Initial(slots, item, copy, k), actions, k, Mode(true, true));
    NotBothAsleep(slots, item, copy, actions, k, Mode(true, true));
  }

  const TEST_THEN_SLEEP := Mode(true, false)

  // The consumer has tested, the producer is idle, and so many packets may still be put.
  ghost predicate MayPut(s: State, free: nat, k: nat) {
    Inv(s, k) && s.p.PIdle? && s.c.CTested? && s.taken == [] && |s.put| + free + 1 == Pow2(k)
  }

  lemma OnePut(s: State, a: Action, free: nat, k: nat)
    requires a.Produce? && free > 0 && MayPut(s, free, k)
    ensures s.Shaped(k) && MayPut(Run(s, Repeat(a, 7), k, TEST_THEN_SLEEP), free - 1, k)
  {
    hide Run, Repeat, Next, Index, Used;
    var mode := TEST_THEN_SLEEP;
    RunKeeps(s, Repeat(a, 7), k, mode);
    var s1 := Step(s, a, k, mode);
    assert s1.p.PReady?;
    PushesAlone(s1, a, k, mode);
    var s6 := Run(s1, Repeat(a, 5), k, mode);
    RepeatOnce(s, a, 6, k, mode);
    RepeatMore(s1, a, 5, 1, k, mode);
    RepeatOnce(s6, a, 0, k, mode);
    RunNothing(Step(s6, a, k, mode), a, k, mode);
  }

  lemma {:induction false} Fill(s: State, a: Action, n: nat, k: nat)
    requires s.Shaped(k) && a.Produce? && MayPut(s, n, k)
    ensures MayPut(Run(s, Repeat(a, 7 * n), k, TEST_THEN_SLEEP), 0, k)
    decreases n
  {
    hide Run, Repeat, MayPut;
    if n == 0 {
      RunNothing(s, a, k, TEST_THEN_SLEEP);
    } else {
      OnePut(s, a, n, k);
      Fill(Run(s, Repeat(a, 7), k, TEST_THEN_SLEEP), a, n - 1, k);
      RepeatMore(s, a, 7, 7 * (n - 1), k, TEST_THEN_SLEEP);
    }
  }

  lemma BothFallAsleep(s: State, a: Action, k: nat)
    requires Inv(s, k) && a.Produce? && s.p.PIdle? && s.c.CTested? && s.taken == [] && |s.put| + 1 == Pow2(k)
    ensures var t := Run(s, Repeat(a, 2) + [Consume], k, TEST_THEN_SLEEP);
            Asleep(t) && t.put == s.put && t.taken == []
  {
    hide Run, Repeat, Next, Index, Used;
    var mode := TEST_THEN_SLEEP;
    var s1 := Step(s, a, k, mode);
    assert s1.p.PTested?;
    var s2 := Step(s1, a, k, mode);
    RepeatOnce(s, a, 1, k, mode);
    RepeatOnce(s1, a, 0, k, mode);
    RunNothing(s2, a, k, mode);
    RunAppend(s, Repeat(a, 2), [Consume], k, mode);
    RunOne(s2, Consume, k, mode);
  }

  /** With test and sleep apart, as in the source, it happens even to rechecking threads: the consumer
      finds the ring empty, the producer fills it, each signal going to nobody, and then both sleep,
      with RING_SIZE - 1 packets in the ring. */
  lemma LostSignal(slots: seq<Slot>, item: Slot, copy: Slot, k: nat) returns (actions: seq<Action>)
    requires |slots| == Pow2(k) && 1 <= k <= 31
    ensures var t := Run(Initial(slots, item, copy, k), actions, k, TEST_THEN_SLEEP);
            Asleep(t) && |t.put| == Pow2(k) - 1 && t.taken == [] && OnlySignals(actions)
  {
    hide Run, Repeat, Inv, Used;
    var mode := TEST_THEN_SLEEP;
    var s, a := Initial(slots, item, copy, k), Produce(item);
    InitialInv(slots, item, copy, k);
    UsedIsDistance(0, 0, k);
    Small(0, k);
    StepKeeps(s, Consume, k, mode);
    var s1 := Step(s, Consume, k, mode);
    assert s1.c.CTested?;
    RunOne(s, Consume, k, mode);
    var n := Pow2(k) - 1;
    Fill(s1, a, n, k);
    var s2 := Run(s1, Repeat(a, 7 * n), k, mode);
    BothFallAsleep(s2, a, k);
    RunAppend(s, [Consume], Repeat(a, 7 * n), k, mode);
    RunAppend(s, [Consume] + Repeat(a, 7 * n), Repeat(a, 2) + [Consume], k, mode);
    actions := [Consume] + Repeat(a, 7 * n) + (Repeat(a, 2) + [Consume]);
    RepeatIs(a, 7 * n);
    RepeatIs(a, 2);
  }
}
