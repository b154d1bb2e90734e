/** The connection table of the client, client/epoll.c: who owns a descriptor, which connections
    are closed for the moment, the three counters, and the shuffled map through which connections
    are closed and restored. MAX_EVENTS is any number from 2 on. */
module Connections {
  import opened Numbers
  import opened Pacing

  /** struct packet_time: the owner, and the flags and times of Pacing. */
  datatype PacketTime = PacketTime(efd: int, entry: Entry)

  /** packets_time and the counters of epoll_conns_stats. */
  datatype Table = Table(packets: seq<PacketTime>, connections: int, active: int, dead: int)

  // ---------------------------------------------------------------- one descriptor

  function Marked(t: Table, fd: nat, p: PacketTime): (after: Table)
    requires fd < |t.packets|
    ensures |after.packets| == |t.packets|
  {
    t.(packets := t.packets[fd := p])
  }

  // Owned by efd, open and free; the times stay.
  function Opened(p: PacketTime, efd: int): PacketTime {
    PacketTime(efd, p.entry.(connectionClosed := false, sendingFlag := false))
  }

  function Flagged(p: PacketTime, closed: bool): PacketTime {
    p.(entry := p.entry.(connectionClosed := closed))
  }

  // addEpollEvent
  function Added(t: Table, efd: int, fd: nat): (after: Table)
    requires fd < |t.packets|
    ensures |after.packets| == |t.packets|
  {
    Marked(t, fd, Opened(t.packets[fd], efd)).(connections := t.connections + 1, active := t.active + 1)
  }

  // setEventTimeEfd
  function Registered(t: Table, efd: int, fd: nat): (after: Table)
    requires fd < |t.packets|
    ensures |after.packets| == |t.packets|
  {
    Marked(t, fd, Opened(t.packets[fd], efd))
  }

  // deleteEpollEvent
  function Deleted(t: Table, fd: nat): (after: Table)
    requires fd < |t.packets|
    ensures |after.packets| == |t.packets|
  {
    Marked(t, fd, Flagged(t.packets[fd], true).(efd := 0)).(connections := t.connections - 1, active := t.active - 1)
  }

  predicate IsDead(t: Table, efd: int, fd: nat)
    requires fd < |t.packets|
  {
    t.packets[fd].efd == efd && t.packets[fd].entry.connectionClosed
  }

  predicate IsLive(t: Table, efd: int, fd: nat)
    requires fd < |t.packets|
  {
    t.packets[fd].efd == efd && !t.packets[fd].entry.connectionClosed
  }

  // closeConnection on a connection of efd that is open
  function Closed(t: Table, fd: nat): (after: Table)
    requires fd < |t.packets|
    ensures |after.packets| == |t.packets|
  {
    Marked(t, fd, Flagged(t.packets[fd], true)).(active := t.active - 1, dead := t.dead + 1)
  }

  // restoreConnection on one that is closed
  function Restored(t: Table, fd: nat): (after: Table)
    requires fd < |t.packets|
    ensures |after.packets| == |t.packets|
  {
    Marked(t, fd, Flagged(t.packets[fd], false)).(active := t.active + 1, dead := t.dead - 1)
  }

  /** What restoreConnections is called with: the clock, the configured epoch and interval, and the
      delay, which comes from a float. */
  datatype Schedule = Schedule(now: TimeVal, epoch: int, interval: int, virtualDelay: int)

  // The divisions of setVirtualEventTime have non-zero divisors.
  predicate Divides(t: Table, at: Schedule) {
    t.connections != 0 && at.interval != 0
  }

  // setVirtualEventTime for a restored descriptor
  function Scheduled(t: Table, fd: nat, at: Schedule): (after: Table)
    requires fd < |t.packets| && Divides(t, at)
    ensures |after.packets| == |t.packets|
  {
    var v := VirtualTime(fd, t.connections, at.now, at.epoch, at.interval, at.virtualDelay);
    Marked(t, fd, t.packets[fd].(entry := Timed(t.packets[fd].entry, v)))
  }

  // ---------------------------------------------------------------- through the map

  /** The map is a bijection on the descriptors, as shuffling leaves it. */
  ghost predicate Bijection(connsMap: seq<nat>, n: nat) {
    && |connsMap| == n
    && (forall i :: 0 <= i < n ==> connsMap[i] < n)
    && (forall i, j :: 0 <= i < j < n ==> connsMap[i] != connsMap[j])
    && (forall fd :: 0 <= fd < n ==> fd in connsMap)
  }

  predicate InRange(connsMap: seq<nat>, n: nat) {
    |connsMap| == n && forall i :: 0 <= i < n ==> connsMap[i] < n
  }

  // The loop of closeConnections.
  function ClosedFrom(t: Table, connsMap: seq<nat>, efd: int, num: int, index: nat): (after: Table)
    requires InRange(connsMap, |t.packets|)
    ensures |after.packets| == |t.packets|
    decreases |connsMap| - index
  {
    if num <= 0 || index >= |connsMap| then t
    else if IsLive(t, efd, connsMap[index]) then ClosedFrom(Closed(t, connsMap[index]), connsMap, efd, num - 1, index + 1)
    else ClosedFrom(t, connsMap, efd, num, index + 1)
  }

  /** How restoreConnections ends: with a return value, or in a division by zero. */
  datatype Outcome = Returned(table: Table, left: int) | DividedByZero

  // The loop of restoreConnections.
  function RestoredFrom(t: Table, connsMap: seq<nat>, efd: int, num: int, index: nat, at: Schedule): (r: Outcome)
    requires InRange(connsMap, |t.packets|)
    ensures r.Returned? ==> |r.table.packets| == |t.packets|
    decreases |connsMap| - index
  {
    if num <= 0 then Returned(t, num)
    else if t.dead == 0 || index >= |connsMap| then Returned(t.(dead := 0), num)
    else if !IsDead(t, efd, connsMap[index]) then RestoredFrom(t, connsMap, efd, num, index + 1, at)
    else if !Divides(t, at) then DividedByZero
    else RestoredFrom(Scheduled(Restored(t, connsMap[index]), connsMap[index], at), connsMap, efd, num - 1, index + 1, at)
  }

  // ---------------------------------------------------------------- what the counters mean

  function Dead(t: Table, efd: int): set<int> {
    set fd | 0 <= fd < |t.packets| && IsDead(t, efd, fd)
  }

  /** The counters add up, and `dead` counts the closed connections that efd still owns. */
  predicate Counted(t: Table, efd: int) {
    t.active + t.dead == t.connections && t.dead == |Dead(t, efd)|
  }

  // The live connections that stand in the map from `index` on.
  function LiveFrom(t: Table, connsMap: seq<nat>, efd: int, index: nat): (n: nat)
    requires InRange(connsMap, |t.packets|)
    decreases |connsMap| - index
  {
    if index >= |connsMap| then 0
    else (if IsLive(t, efd, connsMap[index]) then 1 else 0) + LiveFrom(t, connsMap, efd, index + 1)
  }

  function LivePlaces(t: Table, connsMap: seq<nat>, efd: int, index: nat): set<int>
    requires InRange(connsMap, |t.packets|)
  {
    set i | index <= i < |connsMap| && IsLive(t, efd, connsMap[i])
  }

  lemma {:induction false} LiveFromCounts(t: Table, connsMap: seq<nat>, efd: int, index: nat)
    requires InRange(connsMap, |t.packets|)
    ensures LiveFrom(t, connsMap, efd, index) == |LivePlaces(t, connsMap, efd, index)|
    decreases |connsMap| - index
  {
    if index < |connsMap| {
      LiveFromCounts(t, connsMap, efd, index + 1);
      hide IsLive;
      var later := LivePlaces(t, connsMap, efd, index + 1);
      assert LivePlaces(t, connsMap, efd, index) == if IsLive(t, efd, connsMap[index]) then {index} + later else later;
    } else {
      assert LivePlaces(t, connsMap, efd, index) == {};
    }
  }

  // Marking one descriptor changes the dead set at that descriptor only.
  lemma DeadAfterMark(t: Table, efd: int, fd: nat, p: PacketTime, after: Table)
    requires fd < |t.packets| && after.packets == Marked(t, fd, p).packets
    ensures Dead(after, efd) == if p.efd == efd && p.entry.connectionClosed then Dead(t, efd) + {fd} else Dead(t, efd) - {fd}
  {}

  // ---------------------------------------------------------------- single steps

  /** Adding, registering and deleting a descriptor keep the counters right exactly when it is not
      a closed connection of efd; close and restore of one connection always do. */
  lemma StepKeepsIff(t: Table, efd: int, fd: nat)
    requires fd < |t.packets| && Counted(t, efd) && efd != 0
    ensures Counted(Added(t, efd, fd), efd) <==> !IsDead(t, efd, fd)
    ensures Counted(Registered(t, efd, fd), efd) <==> !IsDead(t, efd, fd)
    ensures Counted(Deleted(t, fd), efd) <==> !IsDead(t, efd, fd)
  {
    hide Dead;
    DeadSet(t, efd, fd);
    DeadAfterMark(t, efd, fd, Opened(t.packets[fd], efd), Added(t, efd, fd));
    DeadAfterMark(t, efd, fd, Opened(t.packets[fd], efd), Registered(t, efd, fd));
    DeadAfterMark(t, efd, fd, Flagged(t.packets[fd], true).(efd := 0), Deleted(t, fd));
    if IsDead(t, efd, fd) {
      assert |Dead(t, efd) - {fd}| == |Dead(t, efd)| - 1;
    } else {
      assert Dead(t, efd) - {fd} == Dead(t, efd);
    }
  }

  lemma DeadSet(t: Table, efd: int, fd: nat)
    requires fd < |t.packets|
    ensures fd in Dead(t, efd) <==> IsDead(t, efd, fd)
  {}

  lemma CloseKeeps(t: Table, efd: int, fd: nat)
    requires fd < |t.packets| && Counted(t, efd) && IsLive(t, efd, fd)
    ensures Counted(Closed(t, fd), efd) && Dead(Closed(t, fd), efd) == Dead(t, efd) + {fd}
  {
    hide Dead;
    DeadSet(t, efd, fd);
    DeadAfterMark(t, efd, fd, Flagged(t.packets[fd], true), Closed(t, fd));
  }

  lemma RestoreKeeps(t: Table, efd: int, fd: nat)
    requires fd < |t.packets| && Counted(t, efd) && IsDead(t, efd, fd)
    ensures Counted(Restored(t, fd), efd) && Dead(Restored(t, fd), efd) == Dead(t, efd) - {fd}
  {
    hide Dead;
    DeadSet(t, efd, fd);
    DeadAfterMark(t, efd, fd, Flagged(t.packets[fd], false), Restored(t, fd));
  }

  // ---------------------------------------------------------------- closing

  // Two tables that differ at most in which connections of efd are closed.
  ghost predicate SameButClosed(t: Table, u: Table, efd: int) {
    && |t.packets| == |u.packets| && t.connections == u.connections
    && forall fd :: 0 <= fd < |t.packets| ==>
         && Flagged(t.packets[fd], false) == Flagged(u.packets[fd], false)
         && (t.packets[fd].efd != efd ==> t.packets[fd] == u.packets[fd])
  }

  // Closing an earlier entry of the map does not change how many later ones are live.
  lemma {:induction false} LiveFromStays(t: Table, connsMap: seq<nat>, efd: int, i: nat, index: nat, p: PacketTime)
    requires Bijection(connsMap, |t.packets|) && i < index && i < |connsMap|
    ensures LiveFrom(Marked(t, connsMap[i], p), connsMap, efd, index) == LiveFrom(t, connsMap, efd, index)
    decreases |connsMap| - index
  {
    if index < |connsMap| {
      LiveFromStays(t, connsMap, efd, i, index + 1, p);
    }
  }

  lemma {:induction false} LiveFromPackets(t: Table, u: Table, connsMap: seq<nat>, efd: int, index: nat)
    requires InRange(connsMap, |t.packets|) && t.packets == u.packets
    ensures LiveFrom(t, connsMap, efd, index) == LiveFrom(u, connsMap, efd, index)
    decreases |connsMap| - index
  {
    if index < |connsMap| {
      LiveFromPackets(t, u, connsMap, efd, index + 1);
    }
  }

  /** closeConnections closes as many as it is asked to, or all that are live in the rest of the
      map; nothing else changes and the counters follow. */
  lemma {:induction false} CloseExact(t: Table, connsMap: seq<nat>, efd: int, num: nat, index: nat)
    requires Bijection(connsMap, |t.packets|) && Counted(t, efd)
    ensures var u := ClosedFrom(t, connsMap, efd, num, index);
      && Counted(u, efd) && SameButClosed(t, u, efd)
      && u.dead == t.dead + Min(num, LiveFrom(t, connsMap, efd, index))
      && Dead(t, efd) <= Dead(u, efd)
    decreases |connsMap| - index
  {
    hide Dead, LiveFrom, Counted;
    if num > 0 && index < |connsMap| {
      var fd := connsMap[index];
      LiveFromStep(t, connsMap, efd, index);
      if IsLive(t, efd, fd) {
        CloseKeeps(t, efd, fd);
        LiveFromStays(t, connsMap, efd, index, index + 1, Flagged(t.packets[fd], true));
        LiveFromPackets(Closed(t, fd), Marked(t, fd, Flagged(t.packets[fd], true)), connsMap, efd, index + 1);
        CloseExact(Closed(t, fd), connsMap, efd, num - 1, index + 1);
      } else {
        CloseExact(t, connsMap, efd, num, index + 1);
      }
    } else {
      LiveFromEnd(t, connsMap, efd, index);
    }
  }

  lemma LiveFromStep(t: Table, connsMap: seq<nat>, efd: int, index: nat)
    requires InRange(connsMap, |t.packets|) && index < |connsMap|
    ensures LiveFrom(t, connsMap, efd, index) == (if IsLive(t, efd, connsMap[index]) then 1 else 0) + LiveFrom(t, connsMap, efd, index + 1)
  {}

  lemma LiveFromEnd(t: Table, connsMap: seq<nat>, efd: int, index: nat)
    requires InRange(connsMap, |t.packets|)
    ensures index >= |connsMap| ==> LiveFrom(t, connsMap, efd, index) == 0
  {}

  // ---------------------------------------------------------------- restoring

  // No closed connection of efd stands before `index`.
  ghost predicate NoneBefore(t: Table, connsMap: seq<nat>, efd: int, index: nat)
    requires InRange(connsMap, |t.packets|)
  {
    forall i :: 0 <= i < index && i < |connsMap| ==> !IsDead(t, efd, connsMap[i])
  }

  lemma NoneAtAll(t: Table, connsMap: seq<nat>, efd: int, index: nat)
    requires Bijection(connsMap, |t.packets|) && NoneBefore(t, connsMap, efd, index) && index >= |connsMap|
    ensures Dead(t, efd) == {}
  {
    forall fd: nat | fd < |t.packets| ensures !IsDead(t, efd, fd) {
      assert fd in connsMap;
      var i :| 0 <= i < |connsMap| && connsMap[i] == fd;
    }
  }

  lemma ScheduledKeeps(t: Table, efd: int, fd: nat, at: Schedule)
    requires fd < |t.packets| && Divides(t, at)
    ensures Dead(Scheduled(t, fd, at), efd) == Dead(t, efd)
    ensures Counted(t, efd) ==> Counted(Scheduled(t, fd, at), efd)
  {
    hide VirtualTime;
    var v := Scheduled(t, fd, at);
    assert forall n: nat :: n < |t.packets| ==> IsDead(v, efd, n) == IsDead(t, efd, n);
    assert Dead(v, efd) == Dead(t, efd);
  }

  // u is t with some closed connections of efd opened, and those scheduled anew.
  ghost predicate SameButRestored(t: Table, u: Table, efd: int, at: Schedule) {
    && |t.packets| == |u.packets| && t.connections == u.connections
    && forall fd: nat :: fd < |t.packets| ==>
         u.packets[fd] == t.packets[fd] || (IsDead(t, efd, fd) && Divides(t, at) && u.packets[fd] == Back(t, fd, at))
  }

  // Entry fd, open again and scheduled.
  function Back(t: Table, fd: nat, at: Schedule): PacketTime
    requires fd < |t.packets| && Divides(t, at)
  {
    var p := Flagged(t.packets[fd], false);
    p.(entry := Timed(p.entry, VirtualTime(fd, t.connections, at.now, at.epoch, at.interval, at.virtualDelay)))
  }

  lemma RestoreStep(t: Table, efd: int, fd: nat, at: Schedule)
    requires fd < |t.packets| && IsDead(t, efd, fd) && Divides(t, at) && Counted(t, efd)
    ensures var u := Scheduled(Restored(t, fd), fd, at);
      && Counted(u, efd) && Dead(u, efd) == Dead(t, efd) - {fd}
      && u.packets == t.packets[fd := Back(t, fd, at)] && u.connections == t.connections && u.dead == t.dead - 1
  {
    hide Dead, VirtualTime, Counted;
    RestoreKeeps(t, efd, fd);
    ScheduledKeeps(Restored(t, fd), efd, fd, at);
  }

  /** restoreConnections returns exactly when there is nothing to restore or the two divisors of the
      schedule are not zero. Then it restores as many as it is asked to, or all that are closed, each
      with its times set anew; where it sets dead_connections to 0, it was 0 and no closed connection
      is left. */
  lemma {:induction false} RestoreExact(t: Table, connsMap: seq<nat>, efd: int, num: nat, index: nat, at: Schedule)
    requires Bijection(connsMap, |t.packets|) && Counted(t, efd) && NoneBefore(t, connsMap, efd, index)
    ensures var r := RestoredFrom(t, connsMap, efd, num, index, at);
      && (r.Returned? <==> num == 0 || t.dead == 0 || Divides(t, at))
      && (r.Returned? ==>
            && Counted(r.table, efd) && SameButRestored(t, r.table, efd, at)
            && r.left == num - Min(num, t.dead) && r.table.dead == t.dead - Min(num, t.dead)
            && (r.left > 0 ==> Dead(r.table, efd) == {}) && Dead(r.table, efd) <= Dead(t, efd))
    decreases |connsMap| - index
  {
    hide Dead, VirtualTime, Scheduled;
    if num > 0 {
      if index >= |connsMap| {
        NoneAtAll(t, connsMap, efd, index);
        assert t.(dead := 0) == t;
      } else if t.dead == 0 {
        assert t.(dead := 0) == t;
      } else if !IsDead(t, efd, connsMap[index]) {
        RestoreExact(t, connsMap, efd, num, index + 1, at);
      } else if Divides(t, at) {
        var fd := connsMap[index];
        var u := Scheduled(Restored(t, fd), fd, at);
        RestoreStep(t, efd, fd, at);
        RestoreExact(u, connsMap, efd, num - 1, index + 1, at);
      }
    }
  }

  // ---------------------------------------------------------------- closing and restoring again

  /** With nothing closed, closing n and restoring n leaves every flag, every owner and every counter
      as it was, and returns how many of the n were never closed. The connections that were closed
      carry new times. It returns exactly when none was closed or the divisors are not zero. */
  lemma CloseThenRestore(t: Table, connsMap: seq<nat>, efd: int, n: nat, at: Schedule)
    requires Bijection(connsMap, |t.packets|) && Counted(t, efd) && t.dead == 0
    ensures var closed := ClosedFrom(t, connsMap, efd, n, 1);
      var r := RestoredFrom(closed, connsMap, efd, n, 0, at);
      && (r.Returned? <==> n == 0 || LiveFrom(t, connsMap, efd, 1) == 0 || Divides(t, at))
      && (r.Returned? ==>
            && r.left == n - Min(n, LiveFrom(t, connsMap, efd, 1))
            && r.table.connections == t.connections && r.table.active == t.active && r.table.dead == t.dead == 0
            && |r.table.packets| == |t.packets|
            && forall fd: nat :: fd < |t.packets| ==>
                 if IsDead(closed, efd, fd) then Divides(t, at) && r.table.packets[fd] == Back(t, fd, at)
                 else r.table.packets[fd] == t.packets[fd])
  {
    hide Dead, ClosedFrom, RestoredFrom, LiveFrom, VirtualTime;
    var closed := ClosedFrom(t, connsMap, efd, n, 1);
    CloseExact(t, connsMap, efd, n, 1);
    RestoreExact(closed, connsMap, efd, n, 0, at);
    var r := RestoredFrom(closed, connsMap, efd, n, 0, at);
    if r.Returned? {
      assert Dead(t, efd) == {} && Dead(r.table, efd) == {};
      forall fd: nat | fd < |t.packets|
        ensures if IsDead(closed, efd, fd) then Divides(t, at) && r.table.packets[fd] == Back(t, fd, at)
                else r.table.packets[fd] == t.packets[fd]
      {
        DeadSet(t, efd, fd);
        DeadSet(closed, efd, fd);
        DeadSet(r.table, efd, fd);
      }
    }
  }

  // ---------------------------------------------------------------- runs

  /** What happens to the table of one epoll instance. */
  datatype Action = Add(fd: nat) | Register(fd: nat) | Delete(fd: nat) | Close(num: int) | Restore(num: int, at: Schedule)

  // Descriptors that are closed connections are left alone, and a run goes on only after a return.
  predicate Allowed(t: Table, connsMap: seq<nat>, efd: int, a: Action)
    requires InRange(connsMap, |t.packets|)
  {
    match a
    case Add(fd) => fd < |t.packets| && !IsDead(t, efd, fd)
    case Register(fd) => fd < |t.packets| && !IsDead(t, efd, fd)
    case Delete(fd) => fd < |t.packets| && !IsDead(t, efd, fd)
    case Close(_) => true
    case Restore(num, at) => RestoredFrom(t, connsMap, efd, num, 0, at).Returned?
  }

  function After(t: Table, connsMap: seq<nat>, efd: int, a: Action): (u: Table)
    requires InRange(connsMap, |t.packets|) && Allowed(t, connsMap, efd, a)
    ensures |u.packets| == |t.packets|
  {
    match a
    case Add(fd) => Added(t, efd, fd)
    case Register(fd) => Registered(t, efd, fd)
    case Delete(fd) => Deleted(t, fd)
    case Close(num) => ClosedFrom(t, connsMap, efd, num, 1)
    case Restore(num, at) => RestoredFrom(t, connsMap, efd, num, 0, at).table
  }

  /** The actions are possible one after the other and lead from t to u. */
  predicate Leads(t: Table, connsMap: seq<nat>, efd: int, actions: seq<Action>, u: Table)
    requires InRange(connsMap, |t.packets|)
    decreases |actions|
  {
    if actions == [] then u == t
    else Allowed(t, connsMap, efd, actions[0]) && Leads(After(t, connsMap, efd, actions[0]), connsMap, efd, actions[1..], u)
  }

  lemma ActionKeeps(t: Table, connsMap: seq<nat>, efd: int, a: Action)
    requires Bijection(connsMap, |t.packets|) && efd != 0 && Counted(t, efd) && Allowed(t, connsMap, efd, a)
    ensures Counted(After(t, connsMap, efd, a), efd)
  {
    hide Counted, IsDead, ClosedFrom, RestoredFrom;
    match a
    case Add(fd) => StepKeepsIff(t, efd, fd);
    case Register(fd) => StepKeepsIff(t, efd, fd);
    case Delete(fd) => StepKeepsIff(t, efd, fd);
    case Close(num) =>
      if num >= 0 { CloseExact(t, connsMap, efd, num, 1); } else { NothingToClose(t, connsMap, efd, num); }
    case Restore(num, at) =>
      if num >= 0 { RestoreExact(t, connsMap, efd, num, 0, at); } else { NothingToRestore(t, connsMap, efd, num, at); }
  }

  lemma NothingToClose(t: Table, connsMap: seq<nat>, efd: int, num: int)
    requires InRange(connsMap, |t.packets|) && num <= 0
    ensures ClosedFrom(t, connsMap, efd, num, 1) == t
  {}

  lemma NothingToRestore(t: Table, connsMap: seq<nat>, efd: int, num: int, at: Schedule)
    requires InRange(connsMap, |t.packets|) && num <= 0
    ensures RestoredFrom(t, connsMap, efd, num, 0, at) == Returned(t, num)
  {}

  // initEventTime: nothing is owned.
  function Initial(n: nat, now: TimeVal): (t: Table)
    ensures |t.packets| == n
  {
    Table(seq(n, _ => PacketTime(0, InitialEntry(now))), 0, 0, 0)
  }

  /** Over every run the counters mean what they say, so by RestoreExact every restore in it that
      stops early stops with nothing closed. */
  lemma {:induction false} RunKeeps(t: Table, connsMap: seq<nat>, efd: int, actions: seq<Action>, u: Table)
    requires Bijection(connsMap, |t.packets|) && efd != 0 && Counted(t, efd)
    requires Leads(t, connsMap, efd, actions, u)
    ensures Counted(u, efd)
    decreases |actions|
  {
    hide Counted, After;
    if actions != [] {
      ActionKeeps(t, connsMap, efd, actions[0]);
      RunKeeps(After(t, connsMap, efd, actions[0]), connsMap, efd, actions[1..], u);
    }
  }

  lemma RunFromStart(n: nat, now: TimeVal, connsMap: seq<nat>, efd: int, actions: seq<Action>, u: Table)
    requires Bijection(connsMap, n) && efd != 0 && Leads(Initial(n, now), connsMap, efd, actions, u)
    ensures Counted(u, efd)
  {
    hide Leads;
    assert Dead(Initial(n, now), efd) == {};
    RunKeeps(Initial(n, now), connsMap, efd, actions, u);
  }

  lemma InitialCounted(n: nat, now: TimeVal, efd: int)
    requires efd != 0
    ensures Counted(Initial(n, now), efd)
  {
    assert Dead(Initial(n, now), efd) == {};
  }

  /** A descriptor that createEvents has registered but that was never added can be closed; restoring
      it then divides by zero connections. */
  lemma RestoreDivides(n: nat, now: TimeVal, connsMap: seq<nat>, efd: int, at: Schedule) returns (u: Table)
    requires Bijection(connsMap, n) && n >= 2 && efd != 0
    ensures Leads(Initial(n, now), connsMap, efd, [Register(connsMap[1]), Close(1)], u)
    ensures |u.packets| == n && Counted(u, efd) && u.dead == 1 && u.connections == 0
    ensures RestoredFrom(u, connsMap, efd, 1, 0, at).DividedByZero?
  {
    hide Dead, RestoredFrom, IsDead;
    var t := Initial(n, now);
    InitialCounted(n, now, efd);
    var fd := connsMap[1];
    assert !IsDead(t, efd, fd) by { DeadIs(t, efd, fd); }
    StepKeepsIff(t, efd, fd);
    var t1 := Registered(t, efd, fd);
    u := ClosedFrom(t1, connsMap, efd, 1, 1);
    assert ClosedFrom(Closed(t1, fd), connsMap, efd, 0, 2) == Closed(t1, fd);
    CloseKeeps(t1, efd, fd);
    assert [Register(fd), Close(1)][1..] == [Close(1)] && [Close(1)][1..] == [];
    assert Leads(u, connsMap, efd, [], u);
    assert Leads(t1, connsMap, efd, [Close(1)], u);
    RestoreExact(u, connsMap, efd, 1, 0, at);
  }

  lemma DeadIs(t: Table, efd: int, fd: nat)
    requires fd < |t.packets|
    ensures IsDead(t, efd, fd) <==> t.packets[fd].efd == efd && t.packets[fd].entry.connectionClosed
  {}

  /** And a connection that hangs up while it is closed is deleted all the same, after which the
      counters no longer count. */
  lemma HangUpMiscounts(n: nat, now: TimeVal, connsMap: seq<nat>, efd: int) returns (u: Table)
    requires Bijection(connsMap, n) && n >= 2 && efd != 0
    ensures Leads(Initial(n, now), connsMap, efd, [Add(connsMap[1]), Close(1)], u)
    ensures |u.packets| == n && Counted(u, efd) && !Counted(Deleted(u, connsMap[1]), efd)
  {
    hide Dead, IsDead;
    var t := Initial(n, now);
    InitialCounted(n, now, efd);
    var fd := connsMap[1];
    assert !IsDead(t, efd, fd) by { DeadIs(t, efd, fd); }
    StepKeepsIff(t, efd, fd);
    var t1 := Added(t, efd, fd);
    u := ClosedFrom(t1, connsMap, efd, 1, 1);
    assert ClosedFrom(Closed(t1, fd), connsMap, efd, 0, 2) == Closed(t1, fd);
    CloseKeeps(t1, efd, fd);
    assert [Add(fd), Close(1)][1..] == [Close(1)] && [Close(1)][1..] == [];
    assert Leads(u, connsMap, efd, [], u);
    assert Leads(t1, connsMap, efd, [Close(1)], u);
    DeadIs(u, efd, fd);
    StepKeepsIff(u, efd, fd);
  }

  // ---------------------------------------------------------------- the code

  /** The two global variables. */
  class EpollTable {
    const packetsTime: array<PacketTime>
    const connsMap: array<nat>
    var connections: int
    var activeConnections: int
    var deadConnections: int

    constructor (maxEvents: nat, now: TimeVal)
      requires maxEvents >= 2
      ensures Valid() && fresh(packetsTime) && fresh(connsMap) && Now() == Initial(maxEvents, now)
    {
      connections, activeConnections, deadConnections := 0, 0, 0;
      packetsTime := new PacketTime[maxEvents](_ => PacketTime(0, InitialEntry(now)));
      connsMap := new nat[maxEvents](i => i);
    }

    ghost predicate Valid()
      reads this, packetsTime, connsMap
    {
      packetsTime.Length == connsMap.Length >= 2 && InRange(connsMap[..], connsMap.Length)
    }

    ghost function Now(): Table
      reads this, packetsTime
    {
      Table(packetsTime[..], connections, activeConnections, deadConnections)
    }

    method AddEpollEvent(efd: int, fd: nat)
      requires Valid() && fd < packetsTime.Length
      modifies this, packetsTime
      ensures Valid() && Now() == Added(old(Now()), efd, fd)
      ensures packetsTime[fd].efd == efd && !packetsTime[fd].entry.connectionClosed && !packetsTime[fd].entry.sendingFlag
      ensures connections == old(connections) + 1 && activeConnections == old(activeConnections) + 1 && deadConnections == old(deadConnections)
    {
      packetsTime[fd] := Opened(packetsTime[fd], efd);
      connections := connections + 1;
      activeConnections := activeConnections + 1;
    }

    method SetEventTimeEfd(efd: int, fd: nat)
      requires Valid() && fd < packetsTime.Length
      modifies packetsTime
      ensures Valid() && Now() == Registered(old(Now()), efd, fd)
      ensures packetsTime[fd].efd == efd && !packetsTime[fd].entry.connectionClosed && !packetsTime[fd].entry.sendingFlag
    {
      packetsTime[fd] := Opened(packetsTime[fd], efd);
    }

    method DeleteEpollEvent(fd: nat)
      requires Valid() && fd < packetsTime.Length
      modifies this, packetsTime
      ensures Valid() && Now() == Deleted(old(Now()), fd)
      ensures packetsTime[fd].efd == 0 && packetsTime[fd].entry == old(packetsTime[fd].entry).(connectionClosed := true)
      ensures connections == old(connections) - 1 && activeConnections == old(activeConnections) - 1 && deadConnections == old(deadConnections)
    {
      packetsTime[fd] := Flagged(packetsTime[fd], true).(efd := 0);
      connections := connections - 1;
      activeConnections := activeConnections - 1;
    }

    method CloseConnection(efd: int, fd: nat) returns (r: int)
      requires Valid() && fd < packetsTime.Length
      modifies this, packetsTime
      ensures Valid()
      ensures r == if old(packetsTime[fd].efd) == efd && !old(packetsTime[fd].entry.connectionClosed) then 1 else 0
      ensures Now() == if r == 1 then Closed(old(Now()), fd) else old(Now())
      ensures r == 1 ==> packetsTime[fd] == old(packetsTime[fd]).(entry := old(packetsTime[fd].entry).(connectionClosed := true))
      ensures r == 1 ==> activeConnections == old(activeConnections) - 1 && deadConnections == old(deadConnections) + 1
    {
      if packetsTime[fd].efd != efd { return 0; }
      if packetsTime[fd].entry.connectionClosed { return 0; }
      packetsTime[fd] := Flagged(packetsTime[fd], true);
      activeConnections := activeConnections - 1;
      deadConnections := deadConnections + 1;
      return 1;
    }

    /** The source returns nothing when the connection is open; 0 here. */
    method RestoreConnection(efd: int, fd: nat) returns (r: int)
      requires Valid() && fd < packetsTime.Length
      modifies this, packetsTime
      ensures Valid()
      ensures r == if old(packetsTime[fd].efd) == efd && old(packetsTime[fd].entry.connectionClosed) then 1 else 0
      ensures Now() == if r == 1 then Restored(old(Now()), fd) else old(Now())
      ensures r == 1 ==> packetsTime[fd] == old(packetsTime[fd]).(entry := old(packetsTime[fd].entry).(connectionClosed := false))
      ensures r == 1 ==> activeConnections == old(activeConnections) + 1 && deadConnections == old(deadConnections) - 1
    {
      if packetsTime[fd].efd != efd { return 0; }
      if packetsTime[fd].entry.connectionClosed {
        packetsTime[fd] := Flagged(packetsTime[fd], false);
        activeConnections := activeConnections + 1;
        deadConnections := deadConnections - 1;
        return 1;
      }
      return 0;
    }

    method CloseConnections(efd: int, num: int)
      requires Valid()
      modifies this, packetsTime
      ensures Valid() && Now() == ClosedFrom(old(Now()), connsMap[..], efd, num, 1)
    {
      var closedTotal := num;
      var index := 1;
      while closedTotal > 0
        invariant Valid() && 1 <= index
        invariant index < connsMap.Length || closedTotal <= 0
        invariant ClosedFrom(Now(), connsMap[..], efd, closedTotal, index) == ClosedFrom(old(Now()), connsMap[..], efd, num, 1)
        decreases connsMap.Length - index
      {
        var fd := connsMap[index];
        var r := CloseConnection(efd, fd);
        if r == 1 {
          closedTotal := closedTotal - 1;
        }
        index := index + 1;
        if index >= connsMap.Length {
          break;
        }
      }
    }

    // setVirtualEventTime, after its divisors have been looked at.
    method SetVirtualEventTime(fd: nat, at: Schedule)
      requires Valid() && fd < packetsTime.Length && Divides(Now(), at)
      modifies packetsTime
      ensures Valid() && Now() == Scheduled(old(Now()), fd, at)
      ensures var v, e := VirtualTime(fd, connections, at.now, at.epoch, at.interval, at.virtualDelay), packetsTime[fd].entry;
              e.virtualTime == e.lastSend == e.lastRecv == v
    {
      var v := VirtualTime(fd, connections, at.now, at.epoch, at.interval, at.virtualDelay);
      packetsTime[fd] := packetsTime[fd].(entry := Timed(packetsTime[fd].entry, v));
    }

    /** `divided` says that the call has ended in a division by zero. */
    method RestoreConnections(efd: int, num: int, at: Schedule) returns (divided: bool, restoreTotal: int)
      requires Valid()
      modifies this, packetsTime
      ensures Valid()
      ensures var r := RestoredFrom(old(Now()), connsMap[..], efd, num, 0, at);
              divided == r.DividedByZero? && (!divided ==> r == Returned(Now(), restoreTotal))
    {
      hide VirtualTime, Scheduled;
      divided, restoreTotal := false, num;
      var index := 0;
      while restoreTotal > 0
        invariant Valid() && 0 <= index <= connsMap.Length && !divided
        invariant RestoredFrom(Now(), connsMap[..], efd, restoreTotal, index, at) == RestoredFrom(old(Now()), connsMap[..], efd, num, 0, at)
        decreases connsMap.Length - index
      {
        if deadConnections == 0 || index >= connsMap.Length {
          deadConnections := 0;
          return;
        }
        var fd := connsMap[index];
        var r := RestoreConnection(efd, fd);
        if r == 1 {
          if connections == 0 || at.interval == 0 {
            divided := true;
            return;
          }
          SetVirtualEventTime(fd, at);
          restoreTotal := restoreTotal - 1;
        }
        index := index + 1;
      }
    }
  }
}
