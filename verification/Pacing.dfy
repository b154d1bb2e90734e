/** When a connection may send: the times of client/epoll.c:77-164 and the interval computed in
    client/client_config.c:50. Ints have 32 bits; the seconds and microseconds of a struct timeval
    do not overflow. What gettimeofday() returns is an argument. */
module Pacing {
  import opened Numbers
  import opened Wrappers

  const S_TO_US := 1_000_000

  datatype TimeVal = TimeVal(sec: int, usec: int)
  {
    function Us(): int {
      sec * S_TO_US + usec
    }

    predicate Normalized() {
      0 <= usec < S_TO_US
    }
  }

  // ---------------------------------------------------------------- offsets

  /** `(S_TO_US * conf->epoch) / conf->connections * conf->burst` */
  function Interval(epoch: int, connections: int, burst: int): int
    requires connections != 0
  {
    Int32(Quotient(Int32(S_TO_US * epoch), connections) * burst)
  }

  /** `(fd * average) / interval * interval`, with average = `(epoch * S_TO_US) / total` */
  function Offset(fd: int, total: int, epoch: int, interval: int): int
    requires total != 0 && interval != 0
  {
    var average := Quotient(Int32(epoch * S_TO_US), total);
    Int32(Quotient(Int32(fd * average), interval) * interval)
  }

  /** The configurations under which no int overflows and every connection has its microsecond. */
  predicate Sound(epoch: int, total: int, burst: int) {
    0 < epoch <= 2147 && 0 < total <= epoch * S_TO_US && 1 <= burst && epoch * S_TO_US / total * burst <= 0x7FFF_FFFF
  }

  lemma ScaledQuotient(fd: nat, average: nat, burst: nat)
    requires average > 0 && burst > 0
    ensures average * burst > 0 && (fd * average) / (average * burst) == fd / burst
  {
    var q, r := fd / burst, fd % burst;
    assert fd == burst * q + r;
    assert fd * average == (average * burst) * q + r * average by {
      assert fd * average == burst * q * average + r * average;
    }
    assert r * average < burst * average;
    ModUnique(fd * average, average * burst, q, r * average);
  }

  lemma AtMost(fd: nat, total: nat, average: nat, us: nat)
    requires fd < total && average * total <= us
    ensures fd * average <= us - average
  {
    assert (total - 1) * average == average * total - average;
    assert fd * average <= (total - 1) * average;
  }

  lemma AverageIs(us: nat, total: nat)
    requires 0 < total <= us
    ensures 1 <= us / total && us / total * total <= us
  {
    var q := us / total;
    assert us == total * q + us % total;
  }

  lemma SlotBelow(fd: nat, average: nat, burst: nat)
    requires average > 0 && burst > 0
    ensures 0 <= fd / burst * (average * burst) <= fd * average
  {
    var q := fd / burst;
    assert fd == burst * q + fd % burst;
    assert q * (average * burst) == (burst * q) * average;
    assert (burst * q) * average <= fd * average;
  }

  lemma IntervalIs(total: int, epoch: int, burst: int)
    requires Sound(epoch, total, burst)
    ensures Interval(epoch, total, burst) == epoch * S_TO_US / total * burst > 0
  {
    AverageIs(epoch * S_TO_US, total);
    hide Int32;
    assert Int32(S_TO_US * epoch) == S_TO_US * epoch;
  }

  const INT_MAX := 0x7FFF_FFFF

  lemma DivMonotone(a: nat, b: nat, m: nat)
    requires m > 0 && a <= b
    ensures a / m <= b / m
  {
    assert a == m * (a / m) + a % m && b == m * (b / m) + b % m;
    if a / m > b / m {
      var d := a / m - b / m;
      assert m * d == m * (a / m) - m * (b / m);
      Grows(m, d);
    }
  }

  lemma Grows(m: nat, d: nat)
    requires m > 0 && d > 0
    ensures m * d >= m
  {}

  lemma QuotientLess(a: nat, b: nat, m: nat)
    requires m > 0 && a + m <= b
    ensures a / m + 1 <= b / m
  {
    DivMonotone(a + m, b, m);
    assert a == m * (a / m) + a % m;
    ModUnique(a + m, m, a / m + 1, a % m);
  }

  // Cutting the dividend to 32 bits brings the quotient down, but not below its negative.
  lemma WrappedQuotient(us: nat, w: int, total: nat)
    requires us > INT_MAX && w == Int32(us) && 0 < total <= INT_MAX
    ensures 1 <= us / total && 0 - us / total <= Quotient(w, total) < us / total
  {
    var n := Int32Is(us);
    assert w >= -0x8000_0000 && w <= us - 0x1_0000_0000;
    hide Int32;
    QuotientLess(0, us, total);
    if w >= 0 {
      QuotientLess(w, us, total);
      QuotientNonneg(w, total);
    } else {
      DivMonotone(-w, us, total);
      DivMonotone(0, -w, total);
    }
  }

  // A C int differs from the number it was cut from by a multiple of 2^32.
  lemma Int32Is(x: int) returns (n: int)
    ensures Int32(x) == x - n * 0x1_0000_0000
  {
    n := (x + 0x8000_0000) / 0x1_0000_0000;
  }

  lemma WrappedProduct(q: nat, q': int, burst: nat)
    requires burst >= 1 && q >= 1 && 0 - q <= q' < q && q * burst <= INT_MAX
    ensures Int32(q' * burst) != q * burst
  {
    var n := Int32Is(q' * burst);
    var d := q - q';
    assert d * burst == q * burst - q' * burst;
    Grows(burst, d);
    assert d * burst <= 2 * (q * burst) by {
      assert (2 * q - d) * burst >= 0;
      assert (2 * q - d) * burst == 2 * (q * burst) - d * burst;
    }
  }

  /** The interval is the quotient it stands for exactly when the epoch and the interval itself fit
      into an int, or when both are zero because the burst is; it is also positive, so that it can be
      divided by, exactly in the sound configurations. */
  lemma IntervalRightIff(epoch: int, total: int, burst: int)
    requires 0 < epoch <= INT_MAX && 0 < total <= INT_MAX && 0 <= burst
    ensures Interval(epoch, total, burst) == epoch * S_TO_US / total * burst
       <==> burst == 0 || (epoch <= 2147 && epoch * S_TO_US / total * burst <= INT_MAX)
    ensures 0 < Interval(epoch, total, burst) == epoch * S_TO_US / total * burst <==> Sound(epoch, total, burst)
  {
    if burst > 0 { PositiveBurst(epoch, total, burst); }
  }

  lemma PositiveBurst(epoch: int, total: int, burst: int)
    requires 0 < epoch <= INT_MAX && 0 < total <= INT_MAX && 1 <= burst
    ensures Interval(epoch, total, burst) == epoch * S_TO_US / total * burst
       <==> epoch <= 2147 && epoch * S_TO_US / total * burst <= INT_MAX
    ensures 0 < Interval(epoch, total, burst) == epoch * S_TO_US / total * burst <==> Sound(epoch, total, burst)
  {
    hide Int32, Quotient;
    var us := epoch * S_TO_US;
    var q := us / total;
    QuotientNonneg(us, total);
    assert q * burst >= 0;
    if epoch <= 2147 {
      assert Int32(us) == us;
      if total > us {
        ModUnique(us, total, 0, us);
      } else if q * burst <= INT_MAX {
        IntervalIs(total, epoch, burst);
      }
    } else {
      WrappedQuotient(us, Int32(us), total);
      if q * burst <= INT_MAX { WrappedProduct(q, Quotient(Int32(us), total), burst); }
    }
  }

  /** So from 2148 seconds on the interval is wrong in every configuration with a burst. */
  lemma EpochOverflows(epoch: int, total: int, burst: int)
    requires 2148 <= epoch <= INT_MAX && 0 < total <= INT_MAX && 1 <= burst
    ensures Interval(epoch, total, burst) != epoch * S_TO_US / total * burst
  {
    hide Interval;
    IntervalRightIff(epoch, total, burst);
  }

  lemma QuotientNonneg(a: nat, m: nat)
    requires m > 0
    ensures Quotient(a, m) == a / m && a / m * m >= 0
  {}

  /** Where descriptor fd is due in an epoch shared out among `total` ones. */
  function Due(fd: nat, total: int, epoch: int): int
    requires total != 0
  {
    fd * (epoch * S_TO_US / total)
  }

  lemma DueIs(fd: nat, total: int, epoch: int, interval: int)
    requires 0 < epoch <= 2147 && total > 0 && interval != 0
    ensures Due(fd, total, epoch) >= 0
    ensures Offset(fd, total, epoch, interval) == Int32(Quotient(Int32(Due(fd, total, epoch)), interval) * interval)
  {
    hide Int32;
    var us := epoch * S_TO_US;
    assert Int32(us) == us;
    QuotientNonneg(us, total);
  }

  lemma TruncatedMultiple(w: int, m: int)
    requires m > 0
    ensures var t := Quotient(w, m) * m; if w >= 0 then w - m < t <= w && t == w / m * m else w <= t <= 0
  {
    if w < 0 { assert -w == m * (-w / m) + -w % m; }
  }

  lemma MultipleLess(a: int, b: int, m: int)
    requires m > 0 && a + m <= b
    ensures a / m * m < b / m * m
  {
    assert a == m * (a / m) + a % m && b == m * (b / m) + b % m;
    SameMultiples(a / m, m);
    SameMultiples(b / m, m);
  }

  lemma SameMultiples(q: int, m: int)
    ensures q * m == m * q
  {}

  /** A descriptor is put at the last multiple of the interval before it is due, exactly when that
      time fits into an int; whatever the number of descriptors and the interval. */
  lemma OffsetRightIff(fd: nat, total: int, epoch: int, interval: int)
    requires 0 < epoch <= 2147 && total > 0 && 0 < interval <= INT_MAX
    ensures var due := Due(fd, total, epoch);
            Offset(fd, total, epoch, interval) == due / interval * interval <==> due <= INT_MAX
  {
    hide Int32, Quotient, Due, Offset;
    var due := Due(fd, total, epoch);
    DueIs(fd, total, epoch, interval);
    var w := Int32(due);
    var n := Int32Is(due);
    TruncatedMultiple(w, interval);
    var t := Quotient(w, interval) * interval;
    assert Int32(t) == t;
    if due > INT_MAX {
      assert n >= 1;
      if w >= 0 {
        MultipleLess(w, due, interval);
      } else {
        MultipleLess(0, due, interval);
      }
    }
  }

  lemma LastMultiple(a: nat, m: nat)
    requires m > 0
    ensures a - m < a / m * m <= a
  {
    assert a == m * (a / m) + a % m;
    SameMultiples(a / m, m);
  }

  /** It is due inside the epoch, and put there, exactly when it is due before the first multiple of
      the interval from the end of the epoch on. */
  lemma OffsetInsideIff(fd: nat, total: int, epoch: int, interval: int)
    requires 0 < epoch <= 2147 && total > 0 && 0 < interval <= INT_MAX && Due(fd, total, epoch) <= INT_MAX
    ensures var us := epoch * S_TO_US;
            Offset(fd, total, epoch, interval) < us <==> Due(fd, total, epoch) < (us + interval - 1) / interval * interval
  {
    hide Due, Offset;
    var us, due := epoch * S_TO_US, Due(fd, total, epoch);
    DueIs(fd, total, epoch, interval);
    OffsetRightIff(fd, total, epoch, interval);
    LastBelow(due, us, interval);
  }

  lemma LastBelow(a: nat, b: nat, m: nat)
    requires m > 0
    ensures a / m * m < b <==> a < (b + m - 1) / m * m
  {
    var q, e := a / m, (b + m - 1) / m;
    LastMultiple(a, m);
    LastMultiple(b + m - 1, m);
    if a / m * m < b && e * m <= a { StillBelow(a, b + m - 1, m); }
    if a < e * m {
      if q >= e { SmallerProduct(e, q, m); }
      SmallerProduct(q, e - 1, m);
      assert (e - 1) * m == e * m - m;
    }
  }

  lemma SmallerProduct(a: int, b: int, m: nat)
    requires a <= b
    ensures a * m <= b * m
  {
    assert (b - a) * m >= 0;
  }

  lemma StillBelow(a: nat, b: nat, m: nat)
    requires m > 0 && b / m * m <= a
    ensures b / m * m <= a / m * m
  {
    DivMonotone(b / m * m, a, m);
    SameMultiples(b / m, m);
    ModUnique(b / m * m, m, b / m, 0);
    assert b / m <= a / m;
    assert (a / m - b / m) * m >= 0;
  }

  /** With total equal to the configured connections, descriptor fd is put into slot fd / burst; up
      to that many descriptors they all find their place inside the epoch. */
  lemma OffsetIsSlot(fd: nat, total: int, epoch: int, burst: int)
    requires Sound(epoch, total, burst) && Due(fd, total, epoch) <= INT_MAX
    ensures var interval := Interval(epoch, total, burst);
      && interval == epoch * S_TO_US / total * burst > 0
      && Offset(fd, total, epoch, interval) == fd / burst * interval
      && (fd < total ==> Offset(fd, total, epoch, interval) < epoch * S_TO_US)
  {
    hide Offset, Interval;
    var us := epoch * S_TO_US;
    var average := us / total;
    IntervalIs(total, epoch, burst);
    AverageIs(us, total);
    ScaledQuotient(fd, average, burst);
    OffsetRightIff(fd, total, epoch, average * burst);
    SlotBelow(fd, average, burst);
    if fd < total { DueInside(fd, total, epoch, burst); }
  }

  lemma DueInside(fd: nat, total: int, epoch: int, burst: int)
    requires Sound(epoch, total, burst) && fd < total
    ensures Due(fd, total, epoch) < epoch * S_TO_US
  {
    AverageIs(epoch * S_TO_US, total);
    AtMost(fd, total, epoch * S_TO_US / total, epoch * S_TO_US);
  }

  /** But sockets are not numbered from zero: where the connections share out the epoch evenly and one
      at a time, the descriptor `total` lands exactly one epoch late. */
  lemma DescriptorTotalIsLate(total: int, epoch: int)
    requires Sound(epoch, total, 1) && epoch * S_TO_US % total == 0
    ensures var interval := Interval(epoch, total, 1);
            interval != 0 && Offset(total, total, epoch, interval) == epoch * S_TO_US
  {
    hide Offset, Interval;
    var us := epoch * S_TO_US;
    assert us == total * (us / total);
    OffsetIsSlot(total, total, epoch, 1);
  }

  /** Two descriptors have the same offset exactly when they are in the same group of burst
      consecutive ones; a group q is the descriptors from q * burst up to (q + 1) * burst. */
  lemma SameSlotIff(fd: nat, fd': nat, total: int, epoch: int, burst: int)
    requires Sound(epoch, total, burst) && Due(fd, total, epoch) <= INT_MAX && Due(fd', total, epoch) <= INT_MAX
    ensures var interval := Interval(epoch, total, burst);
            interval != 0 && (Offset(fd, total, epoch, interval) == Offset(fd', total, epoch, interval) <==> fd / burst == fd' / burst)
    ensures forall q: nat :: fd / burst == q <==> q * burst <= fd < q * burst + burst
  {
    hide Interval, Offset, Due;
    OffsetIsSlot(fd, total, epoch, burst);
    OffsetIsSlot(fd', total, epoch, burst);
    var interval := Interval(epoch, total, burst);
    SmallProduct(fd / burst, fd' / burst, interval);
    forall q: nat ensures fd / burst == q <==> q * burst <= fd < q * burst + burst {
      assert fd == burst * (fd / burst) + fd % burst;
      if q * burst <= fd < q * burst + burst { ModUnique(fd, burst, q, fd - q * burst); }
    }
  }

  lemma SmallProduct(a: int, b: int, m: int)
    requires m > 0
    ensures a * m == b * m <==> a == b
  {
    if a * m == b * m {
      assert m * (a - b) == 0;
      SmallMultiple(m, a - b);
    }
  }

  /** The time setVirtualEventTime computes; virtual_delay is an argument, as it comes from a float. */
  function VirtualTime(fd: int, total: int, time: TimeVal, epoch: int, interval: int, virtualDelay: int): TimeVal
    requires total != 0 && interval != 0
  {
    var offset := Offset(fd, total, epoch, interval);
    var seconds := Quotient(offset, S_TO_US);
    TimeVal(time.sec + seconds - virtualDelay, offset - seconds * S_TO_US)
  }

  /** It is normalized and adds up to the start second less the delay, plus the last multiple of the
      interval before the descriptor is due. */
  lemma VirtualTimeIs(fd: nat, total: int, time: TimeVal, epoch: int, interval: int, virtualDelay: int)
    requires 0 < epoch <= 2147 && total > 0 && 0 < interval <= INT_MAX && Due(fd, total, epoch) <= INT_MAX
    ensures var v := VirtualTime(fd, total, time, epoch, interval, virtualDelay);
      && v.Normalized()
      && v.Us() == (time.sec - virtualDelay) * S_TO_US + Due(fd, total, epoch) / interval * interval
  {
    hide Due, Offset;
    DueIs(fd, total, epoch, interval);
    OffsetRightIff(fd, total, epoch, interval);
    LastMultiple(Due(fd, total, epoch), interval);
    QuotientNonneg(Due(fd, total, epoch), interval);
  }

  // ---------------------------------------------------------------- sending

  /** The difference is computed in 64 bits and returned in 32. */
  function GetTimeDiff(start: TimeVal, end: TimeVal): int {
    Int32((end.sec - start.sec) * S_TO_US + (end.usec - start.usec))
  }

  /** Even where the difference is cut to 32 bits, a whole epoch on the clock face means a whole
      epoch has passed, as long as time does not run backwards. */
  lemma EpochHasPassed(start: TimeVal, end: TimeVal, epoch: int)
    requires start.Us() <= end.Us() && Quotient(GetTimeDiff(start, end), S_TO_US) >= epoch
    ensures end.Us() - start.Us() >= epoch * S_TO_US || epoch <= 0
  {
    var d := end.Us() - start.Us();
    assert GetTimeDiff(start, end) == Int32(d);
    assert Int32(d) <= d;
  }

  // Down to a multiple of the interval within the second.
  function Rounded(now: TimeVal, interval: int): TimeVal
    requires interval > 0
  {
    TimeVal(now.sec, Quotient(now.usec, interval) * interval)
  }

  /** Rounding loses what is left over of the microseconds, less than an interval and less than a second. */
  lemma RoundedIsNear(now: TimeVal, interval: int)
    requires interval > 0 && now.Normalized()
    ensures now.Us() - Rounded(now, interval).Us() == now.usec % interval
    ensures 0 <= now.usec % interval < Min(interval, S_TO_US)
    ensures Rounded(now, interval).Normalized()
  {
    assert now.usec == interval * (now.usec / interval) + now.usec % interval;
    QuotientNonneg(now.usec, interval);
  }

  /** The entry of packets_time for one descriptor, without its owner. */
  datatype Entry = Entry(virtualTime: TimeVal, lastSend: TimeVal, lastRecv: TimeVal, sendingFlag: bool, connectionClosed: bool)

  // initEventTime; the other times are zero as globals are.
  function InitialEntry(now: TimeVal): Entry {
    Entry(TimeVal(now.sec, now.sec), TimeVal(0, 0), TimeVal(0, 0), false, true)
  }

  // All three times set to one, as setVirtualEventTime leaves them.
  function Timed(e: Entry, v: TimeVal): Entry {
    e.(virtualTime := v, lastSend := v, lastRecv := v)
  }

  predicate Ready(e: Entry, now: TimeVal, epoch: int) {
    !e.sendingFlag && !e.connectionClosed && Quotient(GetTimeDiff(e.virtualTime, now), S_TO_US) >= epoch
  }

  /** The clock reading a number of microseconds stands for. */
  function TimeOf(us: int): (t: TimeVal)
    ensures t.Normalized() && t.Us() == us
  {
    TimeVal(us / S_TO_US, us % S_TO_US)
  }

  /** canSendPkt is TRUE exactly for a free and open descriptor whose time on the 32-bit clock face, in
      microseconds since the virtual time, is at least the epoch; whatever the two times are. */
  lemma ReadyIff(e: Entry, now: TimeVal, epoch: int)
    requires epoch >= 1
    ensures var passed := (now.sec - e.virtualTime.sec) * 1_000_000 + (now.usec - e.virtualTime.usec);
            Ready(e, now, epoch) <==>
              !e.sendingFlag && !e.connectionClosed && epoch * 1_000_000 <= passed % 0x1_0000_0000 < 0x8000_0000
  {
    var passed := (now.sec - e.virtualTime.sec) * 1_000_000 + (now.usec - e.virtualTime.usec);
    Int32OnClockFace(passed);
    assert GetTimeDiff(e.virtualTime, now) == Int32(passed);
    hide Int32, GetTimeDiff;
  }

  lemma Int32OnClockFace(x: int)
    ensures Int32(x) == var m := x % 0x1_0000_0000; if m < 0x8000_0000 then m else m - 0x1_0000_0000
  {
    var m, k := x % 0x1_0000_0000, x / 0x1_0000_0000;
    if m < 0x8000_0000 {
      ModUnique(x + 0x8000_0000, 0x1_0000_0000, k, m + 0x8000_0000);
    } else {
      ModUnique(x + 0x8000_0000, 0x1_0000_0000, k + 1, m - 0x8000_0000);
    }
  }

  /** As long as the difference fits into an int, that is a whole epoch after the virtual time. */
  lemma ReadyAfterEpochIff(e: Entry, now: TimeVal, epoch: int)
    requires epoch >= 1 && 0 <= now.Us() - e.virtualTime.Us() <= INT_MAX
    ensures Ready(e, now, epoch) <==>
      !e.sendingFlag && !e.connectionClosed && now.Us() - e.virtualTime.Us() >= epoch * 1_000_000
  {
    hide Ready;
    ReadyIff(e, now, epoch);
  }

  /** A free descriptor can become ready exactly for epochs that fit into 32 bits of microseconds. */
  lemma ReadyAtEpoch(e: Entry, now: TimeVal, epoch: int)
    requires !e.sendingFlag && !e.connectionClosed && 0 <= epoch
    ensures epoch <= 2147 && now.Us() == e.virtualTime.Us() + epoch * S_TO_US ==> Ready(e, now, epoch)
    ensures epoch > 2147 ==> !Ready(e, now, epoch)
  {
    assert GetTimeDiff(e.virtualTime, now) == Int32(now.Us() - e.virtualTime.Us());
    hide Int32;
    if epoch <= 2147 && now.Us() == e.virtualTime.Us() + epoch * S_TO_US {
      assert Int32(epoch * S_TO_US) == epoch * S_TO_US;
    }
  }

  /** After a send at `sent`, which leaves the virtual time rounded down, the next TRUE comes a whole
      epoch later at the earliest exactly when nothing was lost by rounding, or when it never comes. */
  lemma EpochKeptIff(e: Entry, sent: TimeVal, epoch: int, interval: int)
    requires interval > 0 && epoch >= 1 && sent.Normalized()
    requires e.virtualTime == Rounded(sent, interval) && !e.sendingFlag && !e.connectionClosed
    ensures (forall now: TimeVal :: now.Normalized() && sent.Us() <= now.Us() && Ready(e, now, epoch) ==> now.Us() - sent.Us() >= epoch * S_TO_US)
       <==> epoch > 2147 || sent.usec % interval == 0
  {
    hide Rounded, Ready;
    RoundedIsNear(sent, interval);
    if epoch > 2147 || sent.usec % interval == 0 {
      forall now: TimeVal | now.Normalized() && sent.Us() <= now.Us() && Ready(e, now, epoch)
        ensures now.Us() - sent.Us() >= epoch * S_TO_US
      {
        ReadyAtEpoch(e, now, epoch);
        ReadyMeans(e, now, epoch);
        EpochHasPassed(e.virtualTime, now, epoch);
      }
    } else {
      var now := TimeVal(e.virtualTime.sec + epoch, e.virtualTime.usec);
      ReadyAtEpoch(e, now, epoch);
      assert now.Normalized() && sent.Us() <= now.Us() && now.Us() - sent.Us() < epoch * S_TO_US;
    }
  }

  lemma ReadyMeans(e: Entry, now: TimeVal, epoch: int)
    requires Ready(e, now, epoch)
    ensures !e.sendingFlag && !e.connectionClosed && Quotient(GetTimeDiff(e.virtualTime, now), S_TO_US) >= epoch
  {}

  class PacketTimes {
    var virtualTime: TimeVal
    var lastSend: TimeVal
    var lastRecv: TimeVal
    var sendingFlag: bool
    var connectionClosed: bool

    ghost function Now(): Entry
      reads this
    {
      Entry(virtualTime, lastSend, lastRecv, sendingFlag, connectionClosed)
    }

    constructor (now: TimeVal)
      ensures virtualTime == TimeVal(now.sec, now.sec) && lastSend == TimeVal(0, 0) && lastRecv == TimeVal(0, 0)
      ensures !sendingFlag && connectionClosed && Now() == InitialEntry(now)
    {
      virtualTime, lastSend, lastRecv := TimeVal(now.sec, now.sec), TimeVal(0, 0), TimeVal(0, 0);
      sendingFlag, connectionClosed := false, true;
    }

    /** setEventSendTime; without a time the clock reads `now`. */
    method SetEventSendTime(time: Option<TimeVal>, now: TimeVal, interval: int)
      requires interval > 0
      modifies this
      ensures Now() == match time
        case Some(t) => old(Now()).(virtualTime := t, lastSend := t)
        case None => old(Now()).(virtualTime := Rounded(now, interval), lastSend := now)
    {
      match time
      case Some(t) =>
        virtualTime := t;
        lastSend := t;
      case None =>
        virtualTime := TimeVal(now.sec, Quotient(now.usec, interval) * interval);
        lastSend := now;
    }

    method SetEventRecvTime(time: Option<TimeVal>, now: TimeVal)
      modifies this
      ensures Now() == old(Now()).(lastRecv := if time.Some? then time.value else now)
    {
      lastRecv := if time.Some? then time.value else now;
    }

    /** setVirtualEventTime: all three times become the descriptor's virtual time. */
    method SetVirtualEventTime(fd: int, total: int, time: TimeVal, epoch: int, interval: int, virtualDelay: int)
      requires total != 0 && interval > 0
      modifies this
      ensures var v := VirtualTime(fd, total, time, epoch, interval, virtualDelay);
              virtualTime == v && lastSend == v && lastRecv == v && Now() == Timed(old(Now()), v)
      ensures sendingFlag == old(sendingFlag) && connectionClosed == old(connectionClosed)
    {
      var average := Quotient(Int32(epoch * S_TO_US), total);
      var usecOffset := Int32(Quotient(Int32(fd * average), interval) * interval);
      var seconds := Quotient(usecOffset, S_TO_US);
      var virtual := TimeVal(time.sec + seconds - virtualDelay, usecOffset - seconds * S_TO_US);
      SetEventSendTime(Some(virtual), virtual, interval);
      SetEventRecvTime(Some(virtual), virtual);
    }

    /** canSendPkt: TRUE takes the flag, FALSE changes nothing. */
    method CanSendPkt(now: TimeVal, epoch: int) returns (can: bool)
      modifies this
      ensures can == Ready(old(Now()), now, epoch)
      ensures epoch >= 1 && 0 <= now.Us() - old(virtualTime.Us()) <= INT_MAX ==>
        (can <==> !old(sendingFlag) && !old(connectionClosed) && now.Us() - old(virtualTime.Us()) >= epoch * 1_000_000)
      ensures Now() == if can then old(Now()).(sendingFlag := true) else old(Now())
    {
      if epoch >= 1 && 0 <= now.Us() - virtualTime.Us() <= INT_MAX { ReadyAfterEpochIff(Now(), now, epoch); }
      if sendingFlag || connectionClosed { return false; }
      var diff := GetTimeDiff(virtualTime, now);
      if Quotient(diff, S_TO_US) >= epoch {
        sendingFlag := true;
        return true;
      }
      return false;
    }

    method ResetSendPkt()
      modifies this
      ensures Now() == old(Now()).(sendingFlag := false)
    {
      sendingFlag := false;
    }
  }
}
