/** One descriptor between two restores: the update thread of client/client.c:396-410 and the
    EPOLLOUT and EPOLLIN branches of client/client.c:274-329. A branch is one step, but for the place
    where it frees the flag before it sets the time of the send; there the update thread can come in
    between. A TRUE of canSendPkt arms the descriptor for one EPOLLOUT; epoll_wait fetches it into the
    events array, and from there the branch runs. */
module SendSpacing {
  import opened Numbers
  import opened Pacing

  /** What has gone over the connection. */
  datatype Traffic = Sent(time: int, request: bool) | Reply

  /** `registered`: the descriptor is in the epoll set. `armed`: it waits there for EPOLLOUT.
      `fetched`: its EPOLLOUT stands in the events array. `listening`: it waits for EPOLLIN. `late`: a
      packet has been written and the flag freed, but the time of the send is not set yet. */
  datatype State = State(entry: Entry, registered: bool, armed: bool, fetched: bool, listening: bool, late: bool,
                         clock: int, traffic: seq<Traffic>)

  datatype Event =
    | Update(now: TimeVal)                  // the update thread comes by the descriptor
    | Fetch                                 // epoll_wait reports EPOLLOUT
    | Out(now: TimeVal, request: bool)      // the EPOLLOUT branch, the write succeeds; up to resetSendPkt
    | Stamp(now: TimeVal)                   // setEventSendTime after resetSendPkt
    | Interrupted                           // the EPOLLOUT branch, the write is interrupted
    | In(now: TimeVal)                      // EPOLLIN is reported and a reply read
    | Close                                 // closeConnection

  // What is not in the set waits for nothing, and it waits for one kind of event only.
  predicate WellFormed(s: State) {
    && (!s.registered ==> !s.armed && !s.fetched && !s.listening)
    && (s.listening ==> !s.armed && !s.fetched)
    && (s.late ==> s.registered && !s.fetched && !s.listening)
  }

  predicate Timely(s: State, now: TimeVal) {
    now.Normalized() && s.clock <= now.Us()
  }

  predicate Enabled(s: State, e: Event) {
    match e
    case Update(now) => Timely(s, now)
    case Fetch => s.armed && !s.fetched && !s.late
    case Out(now, _) => Timely(s, now) && s.fetched && !s.late
    case Stamp(now) => Timely(s, now) && s.late
    case Interrupted => s.fetched && !s.late
    case In(now) => Timely(s, now) && s.listening && !s.late
    case Close => !s.late
  }

  // setEventSendTime without a time.
  function Stamped(e: Entry, now: TimeVal, interval: int): Entry
    requires interval > 0
  {
    e.(virtualTime := Rounded(now, interval), lastSend := now)
  }

  function Step(s: State, e: Event, epoch: int, interval: int): State
    requires interval > 0 && Enabled(s, e)
  {
    match e
    case Update(now) =>
      var t := s.(clock := now.Us());
      if !Ready(s.entry, now, epoch) then t
      // canSendPkt takes the flag, and modifyEpollEvent sets EPOLLOUT
      else if s.registered then t.(entry := s.entry.(sendingFlag := true), armed := true, listening := false)
      // the first time EPOLL_CTL_MOD fails, and addEpollEvent frees the flag again
      else t.(entry := s.entry.(sendingFlag := false, connectionClosed := false), registered := true, armed := true)
    case Fetch => s.(armed := false, fetched := true)
    case Out(now, request) =>
      var t := s.(fetched := false, clock := now.Us(), traffic := s.traffic + [Sent(now.Us(), request)]);
      // a request waits for its reply on EPOLLIN, any other packet frees the connection at once
      if request then t.(entry := Stamped(s.entry, now, interval), armed := false, listening := true)
      else t.(entry := s.entry.(sendingFlag := false), late := true)
    case Stamp(now) => s.(entry := Stamped(s.entry, now, interval), late := false, clock := now.Us())
    case Interrupted => s.(fetched := false)
    case In(now) =>
      s.(entry := s.entry.(lastRecv := now, sendingFlag := false), clock := now.Us(), traffic := s.traffic + [Reply])
    case Close => s.(entry := s.entry.(connectionClosed := true))
  }

  /** canSendPkt is TRUE between resetSendPkt and setEventSendTime. */
  predicate Disturbs(s: State, e: Event, epoch: int) {
    s.late && e.Update? && Ready(s.entry, e.now, epoch)
  }

  /** The runs from s to t: every one, or the calm ones, in which that does not happen. */
  predicate Leads(s: State, events: seq<Event>, calm: bool, epoch: int, interval: int, t: State)
    requires interval > 0
    decreases |events|
  {
    if events == [] then t == s
    else
      && Enabled(s, events[0])
      && (calm ==> !Disturbs(s, events[0], epoch))
      && Leads(Step(s, events[0], epoch, interval), events[1..], calm, epoch, interval, t)
  }

  // ---------------------------------------------------------------- what should hold of the traffic

  /** Sends are more than epoch seconds apart, less one interval or one second, whichever is shorter. */
  predicate Spaced(traffic: seq<Traffic>, epoch: int, interval: int) {
    forall i, j :: 0 <= i < j < |traffic| && traffic[i].Sent? && traffic[j].Sent? ==>
      traffic[j].time - traffic[i].time > epoch * S_TO_US - Min(interval, S_TO_US)
  }

  /** After a request comes its reply before anything else is sent. */
  predicate Answered(traffic: seq<Traffic>) {
    forall i :: 0 <= i < |traffic| - 1 && traffic[i].Sent? && traffic[i].request ==> traffic[i + 1].Reply?
  }

  /** The states from which it does hold in calm runs: at most one EPOLLOUT on its way, and unless the update
      thread cannot come to TRUE (the connection is closed, the flag is taken, or the epoch is past
      32 bits of microseconds), the descriptor is registered and none is. */
  predicate SafeStart(s: State, epoch: int) {
    && !(s.armed && s.fetched)
    && (s.entry.connectionClosed || s.entry.sendingFlag || epoch > 2147 || (s.registered && !s.armed && !s.fetched))
  }

  // ---------------------------------------------------------------- what every step keeps

  // The request sent last has had no reply yet.
  predicate Awaiting(traffic: seq<Traffic>) {
    traffic != [] && traffic[|traffic| - 1].Sent? && traffic[|traffic| - 1].request
  }

  // Every send was no later than the clock, and hardly later than the virtual time.
  predicate SendsBefore(s: State, interval: int) {
    forall i :: 0 <= i < |s.traffic| && s.traffic[i].Sent? ==>
      && s.traffic[i].time <= s.clock
      && (!s.late ==> s.traffic[i].time - Min(interval, S_TO_US) < s.entry.virtualTime.Us() <= s.clock)
  }

  // By the clock a new send would be far enough from every earlier one.
  predicate FarEnough(s: State, epoch: int, interval: int) {
    forall i :: 0 <= i < |s.traffic| && s.traffic[i].Sent? ==>
      s.clock - s.traffic[i].time > epoch * S_TO_US - Min(interval, S_TO_US)
  }

  predicate Inv(s: State, epoch: int, interval: int) {
    && interval > 0 && WellFormed(s) && SafeStart(s, epoch)
    && SendsBefore(s, interval)
    && (s.armed || s.fetched ==> FarEnough(s, epoch, interval))
    && (Awaiting(s.traffic) ==>
          !s.armed && !s.fetched && !s.late && (s.entry.connectionClosed || s.entry.sendingFlag || epoch > 2147))
    && Spaced(s.traffic, epoch, interval) && Answered(s.traffic)
  }

  lemma UpdateKeeps(s: State, now: TimeVal, epoch: int, interval: int)
    requires epoch >= 1 && Inv(s, epoch, interval) && Timely(s, now) && !Disturbs(s, Update(now), epoch)
    ensures Inv(Step(s, Update(now), epoch, interval), epoch, interval)
  {
    hide Spaced, Answered, Ready;
    var t := Step(s, Update(now), epoch, interval);
    if Ready(s.entry, now, epoch) {
      ReadyMeans(s.entry, now, epoch);
      ReadyAtEpoch(s.entry, now, epoch);
      forall i | 0 <= i < |s.traffic| && s.traffic[i].Sent?
        ensures t.clock - s.traffic[i].time > epoch * S_TO_US - Min(interval, S_TO_US)
      {
        EpochHasPassed(s.entry.virtualTime, now, epoch);
      }
    }
  }

  lemma OutKeeps(s: State, now: TimeVal, request: bool, epoch: int, interval: int)
    requires Inv(s, epoch, interval) && Enabled(s, Out(now, request))
    ensures Inv(Step(s, Out(now, request), epoch, interval), epoch, interval)
  {
    hide Rounded;
    RoundedIsNear(now, interval);
  }

  lemma StampKeeps(s: State, now: TimeVal, epoch: int, interval: int)
    requires Inv(s, epoch, interval) && Enabled(s, Stamp(now))
    ensures Inv(Step(s, Stamp(now), epoch, interval), epoch, interval)
  {
    hide Rounded, Spaced, Answered;
    RoundedIsNear(now, interval);
  }

  lemma OtherKeeps(s: State, e: Event, epoch: int, interval: int)
    requires Inv(s, epoch, interval) && Enabled(s, e) && !e.Update? && !e.Out? && !e.Stamp?
    ensures Inv(Step(s, e, epoch, interval), epoch, interval)
  {}

  lemma StepKeeps(s: State, e: Event, epoch: int, interval: int)
    requires epoch >= 1 && Inv(s, epoch, interval) && Enabled(s, e) && !Disturbs(s, e, epoch)
    ensures Inv(Step(s, e, epoch, interval), epoch, interval)
  {
    hide Inv, Step, Disturbs;
    match e
    case Update(now) => UpdateKeeps(s, now, epoch, interval);
    case Out(now, request) => OutKeeps(s, now, request, epoch, interval);
    case Stamp(now) => StampKeeps(s, now, epoch, interval);
    case _ => OtherKeeps(s, e, epoch, interval);
  }

  lemma {:induction false} RunKeeps(s: State, events: seq<Event>, epoch: int, interval: int, t: State)
    requires epoch >= 1 && interval > 0 && Inv(s, epoch, interval) && Leads(s, events, true, epoch, interval, t)
    ensures Inv(t, epoch, interval)
    decreases |events|
  {
    hide Inv, Step, Enabled, Disturbs;
    if events != [] {
      StepKeeps(s, events[0], epoch, interval);
      RunKeeps(Step(s, events[0], epoch, interval), events[1..], epoch, interval, t);
    }
  }

  /** From a safe start, in every calm run, sends are spaced and requests answered. */
  lemma SpacedAndAnswered(s: State, events: seq<Event>, epoch: int, interval: int, t: State)
    requires epoch >= 1 && interval > 0 && WellFormed(s) && s.traffic == [] && SafeStart(s, epoch)
    requires Leads(s, events, true, epoch, interval, t)
    ensures Spaced(t.traffic, epoch, interval) && Answered(t.traffic)
  {
    hide Leads;
    RunKeeps(s, events, epoch, interval, t);
  }

  /** And while a request waits for its reply, canSendPkt is FALSE at any time and no EPOLLOUT is on
      its way. */
  lemma NothingWhileAwaiting(s: State, events: seq<Event>, epoch: int, interval: int, t: State, now: TimeVal)
    requires epoch >= 1 && interval > 0 && WellFormed(s) && s.traffic == [] && SafeStart(s, epoch)
    requires Leads(s, events, true, epoch, interval, t) && Awaiting(t.traffic)
    ensures !Ready(t.entry, now, epoch) && !t.armed && !t.fetched
  {
    hide Leads, Ready;
    RunKeeps(s, events, epoch, interval, t);
    if Ready(t.entry, now, epoch) {
      ReadyMeans(t.entry, now, epoch);
      ReadyAtEpoch(t.entry, now, epoch);
    }
  }

  // ---------------------------------------------------------------- and where it does not

  lemma Then(s: State, e: Event, rest: seq<Event>, calm: bool, epoch: int, interval: int, t: State)
    requires interval > 0 && Enabled(s, e) && (calm ==> !Disturbs(s, e, epoch))
    requires Leads(Step(s, e, epoch, interval), rest, calm, epoch, interval, t)
    ensures Leads(s, [e] + rest, calm, epoch, interval, t)
  {
    hide Step, Enabled, Disturbs;
    assert ([e] + rest)[1..] == rest;
  }

  lemma Done(s: State, calm: bool, epoch: int, interval: int)
    requires interval > 0
    ensures Leads(s, [], calm, epoch, interval, s)
  {}

  // A reading of the clock, as late as needed, at which a free descriptor is ready.
  lemma ReadyLater(e: Entry, clock: int, epoch: int) returns (now: TimeVal)
    requires !e.sendingFlag && !e.connectionClosed && 0 <= epoch <= 2147
    ensures now.Normalized() && clock <= now.Us() && Ready(e, now, epoch)
  {
    var at := e.virtualTime.Us() + epoch * S_TO_US;
    var turns := if clock <= at then 0 else clock - at;
    now := TimeOf(at + turns * 0x1_0000_0000);
    ModShift(epoch * S_TO_US + 0x8000_0000, 0x1_0000_0000, turns);
    assert GetTimeDiff(e.virtualTime, now) == Int32(epoch * S_TO_US + 0x1_0000_0000 * turns) == Int32(epoch * S_TO_US);
    hide Int32;
    assert Int32(epoch * S_TO_US) == epoch * S_TO_US;
  }

  // Two sends at the end of the traffic, at the same time.
  ghost predicate EndsTogether(traffic: seq<Traffic>) {
    |traffic| >= 2 && traffic[|traffic| - 1].Sent? && traffic[|traffic| - 2] == traffic[|traffic| - 1]
  }

  lemma TogetherIsNotSpaced(traffic: seq<Traffic>, epoch: int, interval: int)
    requires epoch >= 1 && interval > 0 && EndsTogether(traffic)
    ensures !Spaced(traffic, epoch, interval)
  {
    var n := |traffic|;
    assert traffic[n - 2].Sent? && traffic[n - 1].Sent? && traffic[n - 1].time - traffic[n - 2].time == 0;
  }

  /** Two EPOLLOUTs on their way: two sends at the same time. */
  lemma TwoOnTheWay(s: State, epoch: int, interval: int) returns (events: seq<Event>, t: State)
    requires epoch >= 1 && interval > 0 && WellFormed(s) && s.armed && s.fetched
    ensures Leads(s, events, true, epoch, interval, t) && EndsTogether(t.traffic)
  {
    hide Leads, Rounded;
    var now := TimeOf(s.clock);
    var s1 := Step(s, Out(now, false), epoch, interval);
    var s2 := Step(s1, Stamp(now), epoch, interval);
    var s3 := Step(s2, Fetch, epoch, interval);
    t := Step(s3, Out(now, false), epoch, interval);
    Done(t, true, epoch, interval);
    events := [];
    Then(s3, Out(now, false), events, true, epoch, interval, t);
    events := [Out(now, false)] + events;
    Then(s2, Fetch, events, true, epoch, interval, t);
    events := [Fetch] + events;
    Then(s1, Stamp(now), events, true, epoch, interval, t);
    events := [Stamp(now)] + events;
    Then(s, Out(now, false), events, true, epoch, interval, t);
    events := [Out(now, false)] + events;
  }

  /** An EPOLLOUT on its way with the flag free: a request, and an epoch later another one, without
      a reply between them. */
  lemma UnguardedRequest(s: State, epoch: int, interval: int) returns (events: seq<Event>, t: State)
    requires 1 <= epoch <= 2147 && interval > 0 && s.traffic == [] && WellFormed(s) && !s.armed && s.fetched
    requires !s.entry.sendingFlag && !s.entry.connectionClosed
    ensures Leads(s, events, true, epoch, interval, t)
    ensures |t.traffic| == 2 && t.traffic[0].Sent? && t.traffic[0].request && t.traffic[1].Sent? && t.traffic[1].request
  {
    hide Leads, Rounded, Ready;
    var first := TimeOf(s.clock);
    var s1 := Step(s, Out(first, true), epoch, interval);
    RoundedIsNear(first, interval);
    var second := TimeOf(s1.entry.virtualTime.Us() + epoch * S_TO_US);
    ReadyAtEpoch(s1.entry, second, epoch);
    var s2 := Step(s1, Update(second), epoch, interval);
    var s3 := Step(s2, Fetch, epoch, interval);
    t := Step(s3, Out(second, true), epoch, interval);
    Done(t, true, epoch, interval);
    events := [];
    Then(s3, Out(second, true), events, true, epoch, interval, t);
    events := [Out(second, true)] + events;
    Then(s2, Fetch, events, true, epoch, interval, t);
    events := [Fetch] + events;
    Then(s1, Update(second), events, true, epoch, interval, t);
    events := [Update(second)] + events;
    Then(s, Out(first, true), events, true, epoch, interval, t);
    events := [Out(first, true)] + events;
  }

  lemma UnsafeStart(s: State, epoch: int, interval: int) returns (events: seq<Event>, t: State)
    requires epoch >= 1 && interval > 0 && WellFormed(s) && s.traffic == [] && !SafeStart(s, epoch)
    ensures Leads(s, events, true, epoch, interval, t)
    ensures !Spaced(t.traffic, epoch, interval) || !Answered(t.traffic)
    decreases s.late
  {
    hide Leads, Ready, Spaced, EndsTogether, Rounded;
    if s.late {
      var now := TimeOf(s.clock);
      events, t := UnsafeStart(Step(s, Stamp(now), epoch, interval), epoch, interval);
      Then(s, Stamp(now), events, true, epoch, interval, t);
      events := [Stamp(now)] + events;
    } else if s.armed && s.fetched {
      events, t := TwoOnTheWay(s, epoch, interval);
      TogetherIsNotSpaced(t.traffic, epoch, interval);
    } else if s.fetched {
      events, t := UnguardedRequest(s, epoch, interval);
    } else if s.armed {
      events, t := UnguardedRequest(Step(s, Fetch, epoch, interval), epoch, interval);
      Then(s, Fetch, events, true, epoch, interval, t);
      events := [Fetch] + events;
    } else {
      events, t := FirstPacketsUnanswered(s, epoch, interval);
    }
  }

  /** That is where every connection starts: createEvents leaves a descriptor open, free and not in
      the epoll set. The first TRUE adds it, which frees the flag, and two requests go out without a
      reply between them. */
  lemma FirstPacketsUnanswered(s: State, epoch: int, interval: int) returns (events: seq<Event>, t: State)
    requires 1 <= epoch <= 2147 && interval > 0 && WellFormed(s) && s.traffic == [] && !s.registered
    requires !s.entry.sendingFlag && !s.entry.connectionClosed
    ensures Leads(s, events, true, epoch, interval, t)
    ensures |t.traffic| == 2 && t.traffic[0].Sent? && t.traffic[0].request && t.traffic[1].Sent? && t.traffic[1].request
    ensures !Answered(t.traffic)
  {
    hide Leads, Ready;
    var now := ReadyLater(s.entry, s.clock, epoch);
    var s1 := Step(s, Update(now), epoch, interval);
    var s2 := Step(s1, Fetch, epoch, interval);
    events, t := UnguardedRequest(s2, epoch, interval);
    Then(s1, Fetch, events, true, epoch, interval, t);
    Then(s, Update(now), [Fetch] + events, true, epoch, interval, t);
    events := [Update(now)] + ([Fetch] + events);
  }

  /** Or, if the update thread comes by again before the first packet is written, two packets at once. */
  lemma FirstPacketsTogether(s: State, epoch: int, interval: int) returns (events: seq<Event>, t: State)
    requires 1 <= epoch <= 2147 && interval > 0 && WellFormed(s) && s.traffic == [] && !s.registered
    requires !s.entry.sendingFlag && !s.entry.connectionClosed
    ensures Leads(s, events, true, epoch, interval, t)
    ensures EndsTogether(t.traffic) && !Spaced(t.traffic, epoch, interval)
  {
    hide Leads, Ready, Spaced, EndsTogether;
    var now := ReadyLater(s.entry, s.clock, epoch);
    var s1 := Step(s, Update(now), epoch, interval);
    var s2 := Step(s1, Fetch, epoch, interval);
    var s3 := Step(s2, Update(now), epoch, interval);
    events, t := TwoOnTheWay(s3, epoch, interval);
    TogetherIsNotSpaced(t.traffic, epoch, interval);
    Then(s2, Update(now), events, true, epoch, interval, t);
    Then(s1, Fetch, [Update(now)] + events, true, epoch, interval, t);
    Then(s, Update(now), [Fetch] + ([Update(now)] + events), true, epoch, interval, t);
    events := [Update(now)] + ([Fetch] + ([Update(now)] + events));
  }

  /** All calm runs from a state are spaced and answered exactly when the state is a safe start. */
  lemma SafeStartIff(s: State, epoch: int, interval: int)
    requires epoch >= 1 && interval > 0 && WellFormed(s) && s.traffic == []
    ensures SafeStart(s, epoch) <==>
      forall events, t :: Leads(s, events, true, epoch, interval, t) ==> Spaced(t.traffic, epoch, interval) && Answered(t.traffic)
  {
    hide Leads, Spaced, Answered, WellFormed;
    if SafeStart(s, epoch) {
      forall events, t | Leads(s, events, true, epoch, interval, t) ensures Spaced(t.traffic, epoch, interval) && Answered(t.traffic) {
        SpacedAndAnswered(s, events, epoch, interval, t);
      }
    } else {
      var events, t := UnsafeStart(s, epoch, interval);
    }
  }

  /** A connection settles with its first packet, or with the reply to it if that comes before the
      next TRUE: whatever the flag was, every calm run from there is spaced and answered, the first
      packet included. */
  lemma Settles(s: State, now: TimeVal, reply: TimeVal, events: seq<Event>, t: State, epoch: int, interval: int)
    requires epoch >= 1 && interval > 0 && WellFormed(s) && s.traffic == [] && s.fetched && !s.armed
    requires Timely(s, now) && reply.Normalized() && now.Us() <= reply.Us()
    ensures Leads(Step(s, Out(now, false), epoch, interval), events, true, epoch, interval, t) ==>
      Spaced(t.traffic, epoch, interval) && Answered(t.traffic)
    ensures Enabled(Step(s, Out(now, true), epoch, interval), In(reply))
    ensures Leads(Step(Step(s, Out(now, true), epoch, interval), In(reply), epoch, interval), events, true, epoch, interval, t) ==>
      Spaced(t.traffic, epoch, interval) && Answered(t.traffic)
  {
    RoundedIsNear(now, interval);
    hide Leads, Rounded;
    var other := Step(s, Out(now, false), epoch, interval);
    var answered := Step(Step(s, Out(now, true), epoch, interval), In(reply), epoch, interval);
    assert Inv(other, epoch, interval) && Inv(answered, epoch, interval);
    if Leads(other, events, true, epoch, interval, t) { RunKeeps(other, events, epoch, interval, t); }
    if Leads(answered, events, true, epoch, interval, t) { RunKeeps(answered, events, epoch, interval, t); }
  }

  // ---------------------------------------------------------------- the time set after the flag is freed

  /** The update thread between resetSendPkt and setEventSendTime: the time it looks at is still that of
      the send before, and a second packet follows the first at once. */
  lemma SecondPacketAtOnce(s: State, epoch: int, interval: int) returns (events: seq<Event>, t: State)
    requires 1 <= epoch <= 2147 && interval > 0 && WellFormed(s) && s.fetched && !s.armed && !s.entry.connectionClosed
    ensures Leads(s, events, false, epoch, interval, t) && EndsTogether(t.traffic)
  {
    hide Leads, Ready, Rounded;
    var now := ReadyLater(s.entry.(sendingFlag := false), s.clock, epoch);
    var s1 := Step(s, Out(now, false), epoch, interval);
    var s2 := Step(s1, Update(now), epoch, interval);
    var s3 := Step(s2, Stamp(now), epoch, interval);
    var s4 := Step(s3, Fetch, epoch, interval);
    t := Step(s4, Out(now, false), epoch, interval);
    Done(t, false, epoch, interval);
    events := [];
    Then(s4, Out(now, false), events, false, epoch, interval, t);
    events := [Out(now, false)] + events;
    Then(s3, Fetch, events, false, epoch, interval, t);
    events := [Fetch] + events;
    Then(s2, Stamp(now), events, false, epoch, interval, t);
    events := [Stamp(now)] + events;
    Then(s1, Update(now), events, false, epoch, interval, t);
    events := [Update(now)] + events;
    Then(s, Out(now, false), events, false, epoch, interval, t);
    events := [Out(now, false)] + events;
  }

  /** canSendPkt is FALSE for good: the connection is closed, the epoch is past 32 bits of microseconds,
      or the flag is taken and nothing is on its way that could free it. */
  predicate NeverReady(s: State, epoch: int) {
    s.entry.connectionClosed || epoch > 2147 || (s.entry.sendingFlag && !s.armed && !s.fetched && !s.listening)
  }

  lemma NeverReadyStays(s: State, e: Event, epoch: int, interval: int)
    requires epoch >= 1 && interval > 0 && NeverReady(s, epoch) && Enabled(s, e)
    ensures !Disturbs(s, e, epoch) && NeverReady(Step(s, e, epoch, interval), epoch)
  {
    hide Ready, Rounded;
    if e.Update? && Ready(s.entry, e.now, epoch) {
      ReadyMeans(s.entry, e.now, epoch);
      ReadyAtEpoch(s.entry, e.now, epoch);
    }
  }

  lemma {:induction false} NeverReadyIsCalm(s: State, events: seq<Event>, epoch: int, interval: int, t: State)
    requires epoch >= 1 && interval > 0 && NeverReady(s, epoch) && Leads(s, events, false, epoch, interval, t)
    ensures Leads(s, events, true, epoch, interval, t)
    decreases |events|
  {
    hide NeverReady, Step, Enabled, Disturbs;
    if events != [] {
      NeverReadyStays(s, events[0], epoch, interval);
      NeverReadyIsCalm(Step(s, events[0], epoch, interval), events[1..], epoch, interval, t);
    }
  }

  lemma {:induction false} CalmIsARun(s: State, events: seq<Event>, epoch: int, interval: int, t: State)
    requires interval > 0 && Leads(s, events, true, epoch, interval, t)
    ensures Leads(s, events, false, epoch, interval, t)
    decreases |events|
  {
    hide Step, Enabled, Disturbs;
    if events != [] { CalmIsARun(Step(s, events[0], epoch, interval), events[1..], epoch, interval, t); }
  }

  // From a safe start where a TRUE can still come.
  lemma DisturbedStart(s: State, epoch: int, interval: int) returns (events: seq<Event>, t: State)
    requires epoch >= 1 && interval > 0 && WellFormed(s) && SafeStart(s, epoch) && !NeverReady(s, epoch)
    ensures Leads(s, events, false, epoch, interval, t) && EndsTogether(t.traffic)
    decreases if s.late then 4 else if s.fetched then 0 else if s.armed then 1 else if s.entry.sendingFlag then 3 else 2
  {
    hide Leads, Ready, EndsTogether, Rounded;
    if s.fetched {
      events, t := SecondPacketAtOnce(s, epoch, interval);
    } else {
      var next;
      if s.late { next := Stamp(TimeOf(s.clock)); }
      else if s.armed { next := Fetch; }
      else if s.entry.sendingFlag { next := In(TimeOf(s.clock)); }
      else {
        var now := ReadyLater(s.entry, s.clock, epoch);
        next := Update(now);
      }
      events, t := DisturbedStart(Step(s, next, epoch, interval), epoch, interval);
      Then(s, next, events, false, epoch, interval, t);
      events := [next] + events;
    }
  }

  /** So all runs whatever are spaced and answered exactly where not more than the packet on its way can
      ever be sent. */
  lemma EveryRunIff(s: State, epoch: int, interval: int)
    requires epoch >= 1 && interval > 0 && WellFormed(s) && s.traffic == []
    ensures !(s.armed && s.fetched) && NeverReady(s, epoch) <==>
      forall events, t :: Leads(s, events, false, epoch, interval, t) ==> Spaced(t.traffic, epoch, interval) && Answered(t.traffic)
  {
    hide Leads, Spaced, Answered, WellFormed, EndsTogether;
    if !SafeStart(s, epoch) {
      var events, t := UnsafeStart(s, epoch, interval);
      CalmIsARun(s, events, epoch, interval, t);
    } else if !NeverReady(s, epoch) {
      var events, t := DisturbedStart(s, epoch, interval);
      TogetherIsNotSpaced(t.traffic, epoch, interval);
    } else {
      forall events, t | Leads(s, events, false, epoch, interval, t) ensures Spaced(t.traffic, epoch, interval) && Answered(t.traffic) {
        NeverReadyIsCalm(s, events, epoch, interval, t);
        SpacedAndAnswered(s, events, epoch, interval, t);
      }
    }
  }

  // ---------------------------------------------------------------- when nothing more is sent

  function SendCount(traffic: seq<Traffic>): nat {
    if traffic == [] then 0
    else SendCount(traffic[..|traffic| - 1]) + (if traffic[|traffic| - 1].Sent? then 1 else 0)
  }

  lemma CountMore(traffic: seq<Traffic>, x: Traffic)
    ensures SendCount(traffic + [x]) == SendCount(traffic) + (if x.Sent? then 1 else 0)
  {
    assert (traffic + [x])[..|traffic|] == traffic;
  }

  function OnTheWay(s: State): nat {
    if s.armed || s.fetched then 1 else 0
  }

  lemma QuietStep(s: State, e: Event, epoch: int, interval: int)
    requires epoch >= 1 && interval > 0 && NeverReady(s, epoch) && !(s.armed && s.fetched) && Enabled(s, e)
    ensures var t := Step(s, e, epoch, interval);
      && !(t.armed && t.fetched)
      && SendCount(s.traffic) <= SendCount(t.traffic) <= SendCount(t.traffic) + OnTheWay(t) <= SendCount(s.traffic) + OnTheWay(s)
  {
    NeverReadyStays(s, e, epoch, interval);
    hide Ready, Rounded, SendCount;
    match e
    case Update(now) =>
      if Ready(s.entry, now, epoch) {
        ReadyMeans(s.entry, now, epoch);
        ReadyAtEpoch(s.entry, now, epoch);
      }
    case Out(now, request) => CountMore(s.traffic, Sent(now.Us(), request));
    case In(_) => CountMore(s.traffic, Reply);
    case _ =>
  }

  /** Once canSendPkt is FALSE for good, nothing is sent but what is on its way. */
  lemma {:induction false} QuietRun(s: State, events: seq<Event>, epoch: int, interval: int, t: State)
    requires epoch >= 1 && interval > 0 && NeverReady(s, epoch) && !(s.armed && s.fetched) && Leads(s, events, false, epoch, interval, t)
    ensures SendCount(s.traffic) <= SendCount(t.traffic) <= SendCount(s.traffic) + OnTheWay(s)
    decreases |events|
  {
    hide NeverReady, Step, Enabled, Disturbs, SendCount;
    if events != [] {
      NeverReadyStays(s, events[0], epoch, interval);
      QuietStep(s, events[0], epoch, interval);
      QuietRun(Step(s, events[0], epoch, interval), events[1..], epoch, interval, t);
    }
  }

  /** closeConnection stops a connection: after it no packet goes out but the one on its way. */
  lemma ClosedSendsNoMore(s: State, events: seq<Event>, epoch: int, interval: int, t: State)
    requires epoch >= 1 && interval > 0 && !s.late && !(s.armed && s.fetched)
    requires Leads(Step(s, Close, epoch, interval), events, false, epoch, interval, t)
    ensures SendCount(s.traffic) <= SendCount(t.traffic) <= SendCount(s.traffic) + OnTheWay(s)
  {
    hide Leads, SendCount;
    QuietRun(Step(s, Close, epoch, interval), events, epoch, interval, t);
  }

  /** A write that is interrupted stops it too, though that is not meant: the flag stays taken, and no packet goes
      out any more, whatever happens. */
  lemma InterruptedForEver(s: State, events: seq<Event>, epoch: int, interval: int, t: State)
    requires epoch >= 1 && interval > 0 && WellFormed(s) && s.fetched && !s.armed && s.entry.sendingFlag
    requires Leads(Step(s, Interrupted, epoch, interval), events, false, epoch, interval, t)
    ensures SendCount(t.traffic) == SendCount(s.traffic)
  {
    hide Leads, SendCount;
    QuietRun(Step(s, Interrupted, epoch, interval), events, epoch, interval, t);
  }

  /** The distance in Spaced is attained to the microsecond: from an idle descriptor there is a calm run
      whose two sends are closer than an epoch by one interval or one second, less a microsecond. */
  lemma ClosestSends(s: State, epoch: int, interval: int) returns (events: seq<Event>, t: State)
    requires 1 <= epoch <= 2147 && interval > 0 && WellFormed(s) && s.traffic == []
    requires s.registered && !s.armed && !s.fetched && !s.late && !s.entry.sendingFlag && !s.entry.connectionClosed
    ensures Leads(s, events, true, epoch, interval, t)
    ensures |t.traffic| == 2 && t.traffic[0].Sent? && t.traffic[1].Sent?
    ensures t.traffic[1].time - t.traffic[0].time == epoch * S_TO_US - Min(interval, S_TO_US) + 1
  {
    hide Leads, Ready, Rounded;
    var free := ReadyLater(s.entry, s.clock, epoch);
    var s1 := Step(s, Update(free), epoch, interval);
    var s2 := Step(s1, Fetch, epoch, interval);
    var first := TimeVal(free.sec + 1, Min(interval, S_TO_US) - 1);
    var s3 := Step(s2, Out(first, false), epoch, interval);
    var s4 := Step(s3, Stamp(first), epoch, interval);
    RoundedIsNear(first, interval);
    ModUnique(first.usec, interval, 0, first.usec);
    var second := TimeOf(s4.entry.virtualTime.Us() + epoch * S_TO_US);
    ReadyAtEpoch(s4.entry, second, epoch);
    var s5 := Step(s4, Update(second), epoch, interval);
    var s6 := Step(s5, Fetch, epoch, interval);
    t := Step(s6, Out(second, false), epoch, interval);
    Done(t, true, epoch, interval);
    events := [];
    Then(s6, Out(second, false), events, true, epoch, interval, t);
    events := [Out(second, false)] + events;
    Then(s5, Fetch, events, true, epoch, interval, t);
    events := [Fetch] + events;
    Then(s4, Update(second), events, true, epoch, interval, t);
    events := [Update(second)] + events;
    Then(s3, Stamp(first), events, true, epoch, interval, t);
    events := [Stamp(first)] + events;
    Then(s2, Out(first, false), events, true, epoch, interval, t);
    events := [Out(first, false)] + events;
    Then(s1, Fetch, events, true, epoch, interval, t);
    events := [Fetch] + events;
    Then(s, Update(free), events, true, epoch, interval, t);
    events := [Update(free)] + events;
  }
}
