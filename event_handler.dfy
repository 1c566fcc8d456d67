/**
 * The kqueue event loop of the Fletch VM on macOS (src/vm/event_handler_macos.cc).
 *
 * One thread runs EventHandler::Run.  Each turn it reads the earliest
 * timeout deadline (milliseconds, INT64_MAX for none), waits for at most one
 * kqueue event until then, runs the expired timeouts, and then either drains
 * a wakeup byte, shuts the loop down, or translates the event into a mask of
 * READ/WRITE/CLOSE/ERROR and sends it to the port stored with the event.
 *
 * The clock, kevent, read and close are the environment: each turn's clock
 * reading, deadline, wait status and event arrive as a `Turn`.
 */
module EventLoop {

  const INT64_MAX: int := 0x7fff_ffff_ffff_ffff

  /** kqueue constants of macOS (sys/event.h). */
  const EVFILT_READ: int := -1
  const EVFILT_WRITE: int := -2
  const EV_EOF: bv16 := 0x8000

  const NANOS_PER_MILLI: int := 1_000_000
  const NANOS_PER_SECOND: int := 1_000_000_000

  datatype Option<T> = None | Some(value: T)

  /** A `struct timespec`. */
  datatype Timespec = Timespec(sec: int, nsec: int)

  /** The semantic event bits of a mask (READ_EVENT, WRITE_EVENT, CLOSE_EVENT, ERROR_EVENT). */
  datatype EventKind = Read | Write | Close | Error

  /** The fields of a `struct kevent` the loop looks at. */
  datatype KEvent = KEvent(ident: nat, filter: int, flags: bv16, fflags: bv32, udata: nat)

  /**
   * What the environment supplies to one turn of the loop: the deadline read
   * under the monitor, the clock in microseconds, the result of the waiting
   * kevent call and the event it filled in.
   */
  datatype Turn = Turn(deadline: int, nowUs: int, status: int, event: KEvent)

  /** A call Send(port, mask): `port` is the address kept in the event's user data. */
  datatype Delivery = Delivery(port: nat, mask: set<EventKind>)

  /**
   * A clock reading in microseconds converted to milliseconds with C's
   * integer division, which rounds toward zero.
   */
  function Millis(us: int): (ms: int)
    ensures us >= 0 ==> 0 <= ms * 1000 <= us < ms * 1000 + 1000
    ensures us < 0 ==> ms * 1000 - 1000 < us <= ms * 1000 <= 0
  {
    if us >= 0 then us / 1000 else -((-us) / 1000)
  }

  /** The conversion is monotonic. */
  lemma MillisMonotonic(us1: int, us2: int)
    requires us1 <= us2
    ensures Millis(us1) <= Millis(us2)
  {
  }

  /**
   * The milliseconds left until `deadline` at clock reading `nowUs`
   * microseconds: the difference with the clock in whole milliseconds,
   * clamped at zero.
   */
  function Remaining(deadline: int, nowUs: int): (r: int)
    ensures r >= 0 && r >= deadline - Millis(nowUs)
    ensures r == 0 || r == deadline - Millis(nowUs)
  {
    var left := deadline - Millis(nowUs);
    if left < 0 then 0 else left
  }

  /**
   * The interval passed to the waiting kevent call: none (wait forever)
   * when there is no deadline, otherwise the remaining milliseconds split
   * into seconds and nanoseconds.
   */
  function WaitInterval(deadline: int, nowUs: int): (r: Option<Timespec>)
    ensures r.None? <==> deadline == INT64_MAX
    ensures r.Some? ==>
      0 <= r.value.sec && 0 <= r.value.nsec < NANOS_PER_SECOND && r.value.nsec % NANOS_PER_MILLI == 0 &&
      r.value.sec * 1000 + r.value.nsec / NANOS_PER_MILLI == Remaining(deadline, nowUs)
  {
    if deadline == INT64_MAX then
      None
    else
      var left := Remaining(deadline, nowUs);
      Some(Timespec(left / 1000, (left % 1000) * NANOS_PER_MILLI))
  }

  /** The interval is exactly the remaining time, counted in nanoseconds. */
  lemma WaitIntervalExact(deadline: int, nowUs: int)
    requires deadline != INT64_MAX
    ensures var ts := WaitInterval(deadline, nowUs).value;
      ts.sec * NANOS_PER_SECOND + ts.nsec == Remaining(deadline, nowUs) * NANOS_PER_MILLI
  {
  }

  /** A later clock reading never lengthens the wait for the same deadline. */
  lemma WaitShrinks(deadline: int, nowUs1: int, nowUs2: int)
    requires nowUs1 <= nowUs2
    ensures Remaining(deadline, nowUs2) <= Remaining(deadline, nowUs1)
  {
    MillisMonotonic(nowUs1, nowUs2);
  }

  /** Whether the end-of-file flag is set. */
  predicate Eof(flags: bv16) {
    flags & EV_EOF != 0
  }

  /**
   * The mask sent for an event: a read filter reports READ, or READ and
   * CLOSE at end of file, a write filter WRITE; at end of file with a
   * nonzero `fflags` either reports ERROR alone; other filters report
   * nothing.
   */
  function EventMask(filter: int, flags: bv16, fflags: bv32): (mask: set<EventKind>)
    ensures Read in mask <==> filter == EVFILT_READ && !(Eof(flags) && fflags != 0)
    ensures Write in mask <==> filter == EVFILT_WRITE && !(Eof(flags) && fflags != 0)
    ensures Close in mask <==> filter == EVFILT_READ && Eof(flags) && fflags == 0
    ensures Error in mask <==> (filter == EVFILT_READ || filter == EVFILT_WRITE) && Eof(flags) && fflags != 0
  {
    if filter == EVFILT_READ then
      if flags & EV_EOF != 0 then
        if fflags != 0 then {Error} else {Read} + {Close}
      else
        {Read}
    else if filter == EVFILT_WRITE then
      if flags & EV_EOF != 0 && fflags != 0 then {Error} else {Write}
    else
      {}
  }

  /** ERROR is never reported together with another bit. */
  lemma ErrorAlone(filter: int, flags: bv16, fflags: bv32)
    requires Error in EventMask(filter, flags, fflags)
    ensures EventMask(filter, flags, fflags) == {Error}
  {
  }

  /** An event of a filter other than read or write is sent with the empty mask. */
  lemma OtherFiltersEmpty(filter: int, flags: bv16, fflags: bv32)
    requires filter != EVFILT_READ && filter != EVFILT_WRITE
    ensures EventMask(filter, flags, fflags) == {}
  {
  }

  /**
   * `read_fd_` converted to the unsigned 64-bit word type of `ident`: a
   * non-negative descriptor keeps its value, a negative one wraps around
   * modulo 2^64.
   */
  function AsWord(fd: int): (w: nat)
    ensures 0 <= fd ==> w == fd
    ensures -0x8000_0000_0000_0000 <= fd < 0 ==> w == fd + 0x1_0000_0000_0000_0000
    ensures -0x8000_0000_0000_0000 <= fd < 0x1_0000_0000_0000_0000 ==> w < 0x1_0000_0000_0000_0000
  {
    if fd < 0 then fd % 0x1_0000_0000_0000_0000 else fd
  }

  /** A turn whose wait returned one event, on the wakeup descriptor. */
  predicate IsWakeup(readFd: int, t: Turn) {
    t.status == 1 && t.event.ident == AsWord(readFd)
  }

  /** The wakeup descriptor reached end of file: the loop shuts down. */
  predicate IsShutdown(readFd: int, t: Turn) {
    IsWakeup(readFd, t) && Eof(t.event.flags)
  }

  /** A wakeup byte to drain. */
  predicate IsDrain(readFd: int, t: Turn) {
    IsWakeup(readFd, t) && !Eof(t.event.flags)
  }

  /** A turn whose event is translated and sent. */
  predicate Delivers(readFd: int, t: Turn) {
    t.status == 1 && t.event.ident != AsWord(readFd)
  }

  /** The index of the first turn that shuts the loop down, if any. */
  function ShutdownAt(readFd: int, turns: seq<Turn>): (r: Option<nat>)
    ensures r.Some? ==> r.value < |turns| && IsShutdown(readFd, turns[r.value])
    ensures forall j :: 0 <= j < |turns| && (r.None? || j < r.value) ==> !IsShutdown(readFd, turns[j])
    decreases |turns|
  {
    if turns == [] then None
    else if IsShutdown(readFd, turns[0]) then Some(0)
    else match ShutdownAt(readFd, turns[1..])
      case None => None
      case Some(k) => Some(k + 1)
  }

  /** The first shutdown turn is the one ShutdownAt finds. */
  lemma ShutdownFirst(readFd: int, turns: seq<Turn>, k: nat)
    requires k < |turns| && IsShutdown(readFd, turns[k])
    requires forall j :: 0 <= j < k ==> !IsShutdown(readFd, turns[j])
    ensures ShutdownAt(readFd, turns) == Some(k)
  {
  }

  /** How many turns the loop runs: up to and including the shutdown, or all of them. */
  function Iterations(readFd: int, turns: seq<Turn>): (n: nat)
    ensures n <= |turns|
  {
    match ShutdownAt(readFd, turns)
    case None => |turns|
    case Some(k) => k + 1
  }

  /**
   * Nothing after the first shutdown is looked at: appending turns changes
   * neither where the loop stops nor the turns it runs.
   */
  lemma ShutdownIsFinal(readFd: int, turns: seq<Turn>, more: seq<Turn>)
    requires ShutdownAt(readFd, turns).Some?
    ensures ShutdownAt(readFd, turns + more) == ShutdownAt(readFd, turns)
    ensures Iterations(readFd, turns + more) == Iterations(readFd, turns)
    ensures (turns + more)[..Iterations(readFd, turns)] == turns[..Iterations(readFd, turns)]
  {
    var k := ShutdownAt(readFd, turns).value;
    forall j | 0 <= j < k ensures !IsShutdown(readFd, (turns + more)[j]) {
      assert (turns + more)[j] == turns[j];
    }
    assert (turns + more)[k] == turns[k];
    ShutdownFirst(readFd, turns + more, k);
  }

  /** The intervals the loop waits with, one per turn. */
  function Waits(turns: seq<Turn>): seq<Option<Timespec>>
    decreases |turns|
  {
    if turns == [] then []
    else
      var last := turns[|turns| - 1];
      Waits(turns[..|turns| - 1]) + [WaitInterval(last.deadline, last.nowUs)]
  }

  /** The k-th wait uses the interval computed from the k-th turn's deadline and clock. */
  lemma {:induction false} WaitsPointwise(turns: seq<Turn>)
    ensures |Waits(turns)| == |turns|
    ensures forall k :: 0 <= k < |turns| ==> Waits(turns)[k] == WaitInterval(turns[k].deadline, turns[k].nowUs)
    decreases |turns|
  {
    if turns != [] {
      var n := |turns| - 1;
      WaitsPointwise(turns[..n]);
    }
  }

  /** The send a turn makes: its event's mask to its port, when the event is translated. */
  function SendOf(readFd: int, t: Turn): seq<Delivery> {
    if Delivers(readFd, t)
    then [Delivery(t.event.udata, EventMask(t.event.filter, t.event.flags, t.event.fflags))]
    else []
  }

  /** The sends of the translated events, in order. */
  function Deliveries(readFd: int, turns: seq<Turn>): seq<Delivery>
    decreases |turns|
  {
    if turns == [] then []
    else Deliveries(readFd, turns[..|turns| - 1]) + SendOf(readFd, turns[|turns| - 1])
  }

  /** The number of wakeup bytes drained. */
  function Drains(readFd: int, turns: seq<Turn>): nat
    decreases |turns|
  {
    if turns == [] then 0
    else Drains(readFd, turns[..|turns| - 1]) + (if IsDrain(readFd, turns[|turns| - 1]) then 1 else 0)
  }

  /** Extending the turns by one extends each record by that turn's part alone. */
  lemma PrefixStep(readFd: int, turns: seq<Turn>, i: nat)
    requires i < |turns|
    ensures var t := turns[i];
      Waits(turns[..i + 1]) == Waits(turns[..i]) + [WaitInterval(t.deadline, t.nowUs)] &&
      Drains(readFd, turns[..i + 1]) == Drains(readFd, turns[..i]) + (if IsDrain(readFd, t) then 1 else 0) &&
      Deliveries(readFd, turns[..i + 1]) == Deliveries(readFd, turns[..i]) + SendOf(readFd, t)
  {
    assert turns[..i + 1][..i] == turns[..i];
  }

  /** A record that extends a prefix's record by one turn's part is the record of the longer prefix. */
  lemma RecordExtends<T>(start: seq<T>, before: seq<T>, after: seq<T>, part: seq<T>, now: seq<T>, next: seq<T>)
    requires now == start + before && after == before + part && next == now + part
    ensures next == start + after
  {
  }

  /** One send per translated event, carrying its mask; nothing else is sent. */
  lemma {:induction false} DeliveriesOfTranslated(readFd: int, turns: seq<Turn>)
    ensures |Deliveries(readFd, turns)| <= |turns|
    ensures forall d :: d in Deliveries(readFd, turns) ==>
      exists t :: t in turns && Delivers(readFd, t) &&
        d == Delivery(t.event.udata, EventMask(t.event.filter, t.event.flags, t.event.fflags))
    ensures forall t :: t in turns && Delivers(readFd, t) ==>
      Delivery(t.event.udata, EventMask(t.event.filter, t.event.flags, t.event.fflags)) in Deliveries(readFd, turns)
    decreases |turns|
  {
    if turns != [] {
      var n := |turns| - 1;
      DeliveriesOfTranslated(readFd, turns[..n]);
      assert turns == turns[..n] + [turns[n]];
      forall t | t in turns && Delivers(readFd, t)
        ensures Delivery(t.event.udata, EventMask(t.event.filter, t.event.flags, t.event.fflags)) in Deliveries(readFd, turns)
      {
        if t != turns[n] {
          assert t in turns[..n];
        }
      }
    }
  }

  /** The indices of the turns whose event is translated and sent. */
  function DeliveringTurns(readFd: int, turns: seq<Turn>): set<nat> {
    set k: nat | k < |turns| && Delivers(readFd, turns[k])
  }

  /** One more turn adds its own index to the delivering turns when it delivers. */
  lemma DeliveringTurnsStep(readFd: int, turns: seq<Turn>)
    requires turns != []
    ensures var n := |turns| - 1;
      DeliveringTurns(readFd, turns) ==
        DeliveringTurns(readFd, turns[..n]) + (if Delivers(readFd, turns[n]) then {n} else {})
  {
    var n := |turns| - 1;
    forall k: nat | k < n ensures turns[..n][k] == turns[k] {
    }
  }

  /** There are exactly as many sends as translated events. */
  lemma {:induction false} DeliveriesCount(readFd: int, turns: seq<Turn>)
    ensures |Deliveries(readFd, turns)| == |DeliveringTurns(readFd, turns)|
    decreases |turns|
  {
    if turns != [] {
      var n := |turns| - 1;
      DeliveriesCount(readFd, turns[..n]);
      DeliveringTurnsStep(readFd, turns);
      assert n !in DeliveringTurns(readFd, turns[..n]);
    }
  }

  /** Turns whose wait did not return exactly one event neither send nor drain. */
  lemma {:induction false} IdleTurnsInert(readFd: int, turns: seq<Turn>, t: Turn)
    requires t.status != 1
    ensures Deliveries(readFd, turns + [t]) == Deliveries(readFd, turns)
    ensures Drains(readFd, turns + [t]) == Drains(readFd, turns)
  {
    assert (turns + [t])[..|turns|] == turns;
  }

  /**
   * The handler's state as the loop sees it, plus a record of what it did
   * to its environment: the intervals it waited with, how often it ran the
   * expired timeouts, the wakeup bytes it drained and the events it sent.
   */
  class EventHandler {
    var fd: int             // the kqueue descriptor; -1 once shut down
    const readFd: int       // read end of the wakeup pipe
    var watching: bool      // the wakeup descriptor is registered for reading
    var closed: bool        // both descriptors closed
    var notified: bool      // the monitor was notified of the shutdown
    var waits: seq<Option<Timespec>>
    var timeoutsHandled: nat
    var drained: nat
    var sends: seq<Delivery>

    /** A handler over the kqueue `fd` whose wakeup pipe is read through `readFd`, before it runs. */
    constructor (fd: int, readFd: int)
      ensures this.fd == fd && this.readFd == readFd
      ensures !watching && !closed && !notified
      ensures waits == [] && timeoutsHandled == 0 && drained == 0 && sends == []
    {
      this.fd := fd;
      this.readFd := readFd;
      watching, closed, notified := false, false, false;
      waits, timeoutsHandled, drained, sends := [], 0, 0, [];
    }

    /** HandleTimeouts (event_handler.cc is not part of this model): counted. */
    method HandleTimeouts()
      modifies this`timeoutsHandled
      ensures timeoutsHandled == old(timeoutsHandled) + 1
    {
      timeoutsHandled := timeoutsHandled + 1;
    }

    /** Send (event_handler.cc is not part of this model): recorded. */
    method Send(port: nat, mask: set<EventKind>)
      modifies this`sends
      ensures sends == old(sends) + [Delivery(port, mask)]
    {
      sends := sends + [Delivery(port, mask)];
    }

    /**
     * One turn of the loop: wait with the interval until the deadline, run
     * the timeouts, then handle the event if the wait returned exactly one.
     * Returns whether the loop has shut down.
     */
    method Step(turn: Turn) returns (stop: bool)
      modifies this`fd, this`closed, this`notified, this`waits, this`timeoutsHandled, this`drained, this`sends
      ensures stop == IsShutdown(readFd, turn)
      ensures waits == old(waits) + [WaitInterval(turn.deadline, turn.nowUs)]
      ensures timeoutsHandled == old(timeoutsHandled) + 1
      ensures drained == old(drained) + (if IsDrain(readFd, turn) then 1 else 0)
      ensures sends == old(sends) + SendOf(readFd, turn)
      ensures stop ==> fd == -1 && closed && notified
      ensures !stop ==> fd == old(fd) && closed == old(closed) && notified == old(notified)
    {
      stop := false;
      var nextTimeout := turn.deadline;  // read under the monitor
      var interval := WaitInterval(nextTimeout, turn.nowUs);
      waits := waits + [interval];
      var status := turn.status;
      HandleTimeouts();
      if status != 1 {
        return;
      }
      var event := turn.event;
      if event.ident == AsWord(readFd) {
        if event.flags & EV_EOF == 0 {
          drained := drained + 1;
          return;
        }
        closed := true;
        fd := -1;
        notified := true;
        stop := true;
        return;
      }
      var mask := EventMask(event.filter, event.flags, event.fflags);
      Send(event.udata, mask);
    }

    /**
     * EventHandler::Run over the turns the environment supplies: turns run
     * until the first shutdown, each one waiting and running the timeouts,
     * draining the wakeup bytes and sending the translated events.
     * Returns how many turns ran.
     */
    method Run(turns: seq<Turn>) returns (ran: nat)
      modifies this`watching, this`fd, this`closed, this`notified, this`waits, this`timeoutsHandled, this`drained, this`sends
      ensures watching
      ensures ran == Iterations(readFd, turns)
      ensures waits == old(waits) + Waits(turns[..ran])
      ensures timeoutsHandled == old(timeoutsHandled) + ran
      ensures drained == old(drained) + Drains(readFd, turns[..ran])
      ensures sends == old(sends) + Deliveries(readFd, turns[..ran])
      ensures ShutdownAt(readFd, turns).Some? ==> fd == -1 && closed && notified
      ensures ShutdownAt(readFd, turns).None? ==>
        fd == old(fd) && closed == old(closed) && notified == old(notified)
    {
      watching := true;
      ran := 0;
      while ran < |turns|
        invariant 0 <= ran <= |turns|
        invariant forall j :: 0 <= j < ran ==> !IsShutdown(readFd, turns[j])
        invariant waits == old(waits) + Waits(turns[..ran])
        invariant timeoutsHandled == old(timeoutsHandled) + ran
        invariant drained == old(drained) + Drains(readFd, turns[..ran])
        invariant sends == old(sends) + Deliveries(readFd, turns[..ran])
        invariant fd == old(fd) && closed == old(closed) && notified == old(notified)
        invariant watching
      {
        PrefixStep(readFd, turns, ran);
        ghost var waits0, sends0 := waits, sends;
        var stop := Step(turns[ran]);
        RecordExtends(old(waits), Waits(turns[..ran]), Waits(turns[..ran + 1]),
          [WaitInterval(turns[ran].deadline, turns[ran].nowUs)], waits0, waits);
        RecordExtends(old(sends), Deliveries(readFd, turns[..ran]), Deliveries(readFd, turns[..ran + 1]),
          SendOf(readFd, turns[ran]), sends0, sends);
        if stop {
          ShutdownFirst(readFd, turns, ran);
          ran := ran + 1;
          return;
        }
        ran := ran + 1;
      }
      assert turns[..ran] == turns;
      assert ShutdownAt(readFd, turns).None?;
    }
  }
}
