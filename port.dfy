/**
 * Ports of the Fletch VM (src/vm/port.cc).
 *
 * A Port is a reference-counted, spinlock-protected handle that binds an
 * owning process (which may go away, leaving the port orphaned) to a channel
 * object on the heap.  The ports a process created are threaded on an
 * intrusive singly-linked list whose head the process holds; the collector
 * sweeps that list after every collection.  The natives at the end are the
 * language-level entry points that create ports, send to them and take extra
 * references to them.
 *
 * Freeing memory is modelled by the ghost flag `deleted`; the spinlock by the
 * flag `locked` (a sequential model: taking a held lock would spin forever).
 */
module Ports {

  /** A heap address; 0 stands for NULL. */
  type Address = nat
  const NULL: Address := 0

  /** A language-level value passed to a native; only its immutability is inspected here. */
  datatype Value = Value(id: int, isImmutable: bool)

  /** An entry of a process's mailbox. */
  datatype Entry =
    | Message(port: Port, payload: Value)                    // Mailbox::EnqueueEntry / Mailbox::Enqueue
    | ExitMessage(sender: Process, port: Port, payload: Value) // Mailbox::EnqueueExit

  /** Whether a heap allocation made inside a native succeeds or asks for a collection first. */
  datatype Allocation = Allocated | NeedsGc

  /** What a native returns to the interpreter. */
  datatype NativeResult =
    | NullObject                 // program()->null_object()
    | WrongArgumentType          // Failure::wrong_argument_type()
    | IllegalState               // Failure::illegal_state()
    | RetryAfterGc               // Failure::retry_after_gc()
    | LockedPort(port: Port)     // the port itself, still locked, for the scheduler
    | TargetYield(port: Port)    // TargetYieldResult(port, true), port still locked
    | PortInstance(port: Port)   // the new language-level port object wrapping the address
    | PortAddress(port: Port)    // an integer holding the port's address

  /**
   * The collector that just ran, with its queries on the swept space.  Which
   * flavour is built is chosen at compile time (FLETCH_MARK_SWEEP).
   */
  datatype Collector =
    | MarkSweep(includes: Address -> bool, isMarked: Address -> bool)
    | Copying(includes: Address -> bool, forwardingAddress: Address -> Address)

  /** The channel a surviving port holds after a sweep by `gc`. */
  function SweptChannel(gc: Collector, channel: Address): (r: Address)
    // channels that are NULL or outside the swept space are never touched
    ensures channel == NULL || !gc.includes(channel) ==> r == channel
    // mark-sweep either keeps the channel or clears it ...
    ensures gc.MarkSweep? ==> r == channel || r == NULL
    // ... so that no survivor points at an unmarked object of the swept space
    ensures gc.MarkSweep? && r != NULL && gc.includes(r) ==> gc.isMarked(r)
    ensures gc.MarkSweep? && channel != NULL && gc.includes(channel) ==> (r == channel <==> gc.isMarked(channel))
    // a copying collector always redirects a channel of the swept space to its new place
    ensures gc.Copying? && channel != NULL && gc.includes(channel) ==> r == gc.forwardingAddress(channel)
  {
    if channel != NULL && gc.includes(channel) then
      match gc
      case MarkSweep(_, isMarked) => if isMarked(channel) then channel else NULL
      case Copying(_, forwardingAddress) => forwardingAddress(channel)
    else
      channel
  }

  /** Every port of `ps` but the last links to its successor in `ps`. */
  ghost predicate Linked(ps: seq<Port>)
    reads (if ps == [] then [] else ps[..|ps| - 1])`next
  {
    forall j {:trigger ps[j].next} :: 0 <= j < |ps| - 1 ==> ps[j].next == ps[j + 1]
  }

  /** `head` starts a NULL-terminated chain of `next` links visiting exactly `ps`, each once. */
  ghost predicate IsList(head: Port?, ps: seq<Port>)
    reads ps`next
  {
    head == (if ps == [] then null else ps[0]) &&
    Linked(ps) &&
    (ps != [] ==> ps[|ps| - 1].next == null) &&
    Distinct(ps)
  }

  /** Linking `p` in front of a list gives a list one longer. */
  lemma ListPush(p: Port, ps: seq<Port>)
    requires IsList(p.next, ps) && p !in ps
    ensures IsList(p, [p] + ps)
  {
    var qs := [p] + ps;
    assert qs[1..] == ps;
    forall i | 0 <= i < |qs| - 1 ensures qs[i].next == qs[i + 1] {
      if 0 < i {
        assert qs[i] == ps[i - 1] && qs[i + 1] == ps[i];
      }
    }
  }

  /** The port after `ports[k]` in list order, NULL after the last. */
  function Succ(ports: seq<Port>, k: int): Port?
    requires 0 <= k < |ports|
  {
    if k + 1 < |ports| then ports[k + 1] else null
  }

  /** In a list every port links to its successor and no port occurs twice. */
  lemma ListSuccessors(head: Port?, ports: seq<Port>)
    requires IsList(head, ports)
    ensures forall k :: 0 <= k < |ports| ==> ports[k].next == Succ(ports, k)
  {
    forall k | 0 <= k < |ports| ensures ports[k].next == Succ(ports, k) {
      if k + 1 < |ports| {
        assert ports[k].next == ports[k + 1];
      }
    }
  }

  /** Port `k` is not visited yet: its link, liveness and channel are as on entry. */
  ghost predicate Unvisited(ports: seq<Port>, channels: seq<Address>, nx: seq<Port?>, dl: seq<bool>, ch: seq<Address>, k: int)
    requires 0 <= k < |ports| && |channels| == |ports| && |nx| == |ports| && |dl| == |ports| && |ch| == |ports|
  {
    nx[k] == Succ(ports, k) && !dl[k] && ch[k] == channels[k]
  }

  /** Port `k` is visited: freed exactly when its count was zero, otherwise its channel is repaired. */
  ghost predicate Visited(gc: Collector, counts: seq<nat>, channels: seq<Address>, dl: seq<bool>, ch: seq<Address>, k: int)
    requires 0 <= k < |counts| && |channels| == |counts| && |dl| == |counts| && |ch| == |counts|
  {
    (dl[k] <==> counts[k] == 0) && (counts[k] != 0 ==> ch[k] == SweptChannel(gc, channels[k]))
  }

  /**
   * The `j`-th port kept so far stands at index `ks[j]`, before `i`, and
   * links to the port kept after it.
   */
  ghost predicate KeptAt(ports: seq<Port>, ks: seq<nat>, kept: seq<Port>, nx: seq<Port?>, i: int, j: int)
    requires 0 <= j < |ks| && |kept| == |ks| && |nx| == |ports|
  {
    ks[j] < i && ks[j] < |ports| && ports[ks[j]] == kept[j] &&
    (j < |ks| - 1 ==> ks[j] < ks[|ks| - 1] && nx[ks[j]] == kept[j + 1])
  }

  /**
   * The state of the sweep after it has visited `ports[..i]`, in terms of
   * the fields of every port (`nx`, `dl`, `ch`: next, deleted, channel), the
   * ports `kept` so far, their indices `ks` and the index `prev` of the last
   * of them (-1 when none is kept yet).
   */
  ghost predicate SweepState(gc: Collector, ports: seq<Port>, counts: seq<nat>, channels: seq<Address>, i: int,
                             prev: int, ks: seq<nat>, kept: seq<Port>, nx: seq<Port?>, dl: seq<bool>, ch: seq<Address>)
  {
    var n := |ports|;
    |counts| == n && |channels| == n && |nx| == n && |dl| == n && |ch| == n && |ks| == |kept| &&
    0 <= i <= n &&
    (forall k :: i <= k < n ==> Unvisited(ports, channels, nx, dl, ch, k)) &&
    (forall k :: 0 <= k < i ==> Visited(gc, counts, channels, dl, ch, k)) &&
    (forall j :: 0 <= j < |ks| ==> KeptAt(ports, ks, kept, nx, i, j)) &&
    kept == Kept(ports[..i], counts[..i]) &&
    prev == (if ks == [] then -1 else ks[|ks| - 1]) &&
    // the last port kept links to the next port to visit
    (prev >= 0 ==> prev < i && nx[prev] == (if i < n then ports[i] else null))
  }

  /** On entry every port is unvisited and the mirrors hold the fields as they are. */
  lemma SweepStart(gc: Collector, head: Port?, ports: seq<Port>)
    requires IsList(head, ports)
    requires forall p :: p in ports ==> !p.deleted
    ensures SweepState(gc, ports, Counts(ports), Channels(ports), 0, -1, [], [], Nexts(ports), Deleteds(ports), Channels(ports))
    ensures Mirrors(ports, Nexts(ports), Deleteds(ports), Channels(ports), Counts(ports), 0)
  {
    MirrorsOf(ports, 0);
    ListSuccessors(head, ports);
    forall k | 0 <= k < |ports| ensures Unvisited(ports, Channels(ports), Nexts(ports), Deleteds(ports), Channels(ports), k) {
      assert ports[k] in ports;
    }
  }

  /** Once every port is visited, the kept ports form a list and the fields say what the sweep did. */
  lemma SweepEnd(gc: Collector, ports: seq<Port>, counts: seq<nat>, channels: seq<Address>,
                 prev: int, ks: seq<nat>, kept: seq<Port>, nx: seq<Port?>, dl: seq<bool>, ch: seq<Address>)
    requires Distinct(ports)
    requires SweepState(gc, ports, counts, channels, |ports|, prev, ks, kept, nx, dl, ch)
    requires Mirrors(ports, nx, dl, ch, counts, 0)
    ensures kept == Kept(ports, counts)
    ensures IsList(if kept == [] then null else kept[0], kept)
    ensures forall p :: p in ports ==> (p.deleted <==> p.refCount == 0)
    ensures forall k :: 0 <= k < |ports| && ports[k].refCount != 0 ==> ports[k].channel == SweptChannel(gc, channels[k])
  {
    assert ports[..|ports|] == ports && counts[..|ports|] == counts;
    KeptDistinct(ports, counts);
    forall j | 0 <= j < |kept| - 1 ensures kept[j].next == kept[j + 1] {
      assert KeptAt(ports, ks, kept, nx, |ports|, j);
      MirrorsAt(ports, nx, dl, ch, counts, 0, ks[j]);
    }
    if kept != [] {
      assert KeptAt(ports, ks, kept, nx, |ports|, |kept| - 1);
      MirrorsAt(ports, nx, dl, ch, counts, 0, prev);
    }
    forall p | p in ports ensures p.deleted <==> p.refCount == 0 {
      var k :| 0 <= k < |ports| && ports[k] == p;
      MirrorsAt(ports, nx, dl, ch, counts, 0, k);
      assert Visited(gc, counts, channels, dl, ch, k);
    }
    forall k | 0 <= k < |ports| && ports[k].refCount != 0
      ensures ports[k].channel == SweptChannel(gc, channels[k])
    {
      MirrorsAt(ports, nx, dl, ch, counts, 0, k);
      assert Visited(gc, counts, channels, dl, ch, k);
    }
  }

  /** Visiting a port with count zero: unlink it from the last kept port (if any) and free it. */
  lemma SweepFree(gc: Collector, ports: seq<Port>, counts: seq<nat>, channels: seq<Address>, i: int,
                  prev: int, ks: seq<nat>, kept: seq<Port>, nx: seq<Port?>, dl: seq<bool>, ch: seq<Address>, nx': seq<Port?>)
    requires SweepState(gc, ports, counts, channels, i, prev, ks, kept, nx, dl, ch)
    requires i < |ports| && counts[i] == 0
    requires nx' == if prev < 0 then nx else nx[prev := Succ(ports, i)]
    ensures SweepState(gc, ports, counts, channels, i + 1, prev, ks, kept, nx', dl[i := true], ch)
  {
    var dl' := dl[i := true];
    assert Unvisited(ports, channels, nx, dl, ch, i);
    forall k | i + 1 <= k < |ports| ensures Unvisited(ports, channels, nx', dl', ch, k) {
      assert Unvisited(ports, channels, nx, dl, ch, k);
    }
    forall k | 0 <= k < i + 1 ensures Visited(gc, counts, channels, dl', ch, k) {
      if k < i {
        assert Visited(gc, counts, channels, dl, ch, k);
      }
    }
    var i' := i + 1;
    forall j | 0 <= j < |ks| ensures KeptAt(ports, ks, kept, nx', i', j) {
      assert KeptAt(ports, ks, kept, nx, i, j);
    }
    KeptStep(ports, counts, i);
  }

  /** Visiting a port with a nonzero count: repair its channel to `c` and append it to the kept ports. */
  lemma SweepKeep(gc: Collector, ports: seq<Port>, counts: seq<nat>, channels: seq<Address>, i: int,
                  prev: int, ks: seq<nat>, kept: seq<Port>, nx: seq<Port?>, dl: seq<bool>, ch: seq<Address>, c: Address)
    requires SweepState(gc, ports, counts, channels, i, prev, ks, kept, nx, dl, ch)
    requires i < |ports| && counts[i] != 0 && c == SweptChannel(gc, channels[i])
    ensures SweepState(gc, ports, counts, channels, i + 1, i, ks + [i], kept + [ports[i]], nx, dl, ch[i := c])
  {
    var ch' := ch[i := c];
    assert Unvisited(ports, channels, nx, dl, ch, i);
    forall k | i + 1 <= k < |ports| ensures Unvisited(ports, channels, nx, dl, ch', k) {
      assert Unvisited(ports, channels, nx, dl, ch, k);
    }
    forall k | 0 <= k < i + 1 ensures Visited(gc, counts, channels, dl, ch', k) {
      if k < i {
        assert Visited(gc, counts, channels, dl, ch, k);
      }
    }
    var ks', kept', i' := ks + [i], kept + [ports[i]], i + 1;
    forall j | 0 <= j < |ks'| ensures KeptAt(ports, ks', kept', nx, i', j) {
      if j < |ks| {
        assert KeptAt(ports, ks, kept, nx, i, j);
      }
    }
    KeptStep(ports, counts, i);
  }

  /** No element occurs twice in `s`. */
  predicate Distinct<T(==)>(s: seq<T>)
    decreases |s|
  {
    s == [] || (s[0] !in s[1..] && Distinct(s[1..]))
  }

  /** Distinct, read pairwise. */
  lemma {:induction false} DistinctPairs<T>(s: seq<T>)
    ensures Distinct(s) <==> forall i, j :: 0 <= i < j < |s| ==> s[i] != s[j]
    decreases |s|
  {
    if s != [] {
      DistinctPairs(s[1..]);
      if forall i, j :: 0 <= i < j < |s| ==> s[i] != s[j] {
        forall i, j | 0 <= i < j < |s| - 1 ensures s[1..][i] != s[1..][j] {
          assert s[1..][i] == s[i + 1] && s[1..][j] == s[j + 1];
        }
        assert s[0] !in s[1..];
      }
      if Distinct(s) {
        forall i, j | 0 <= i < j < |s| ensures s[i] != s[j] {
          assert s[j] == s[1..][j - 1];
          if 0 < i {
            assert s[i] == s[1..][i - 1];
          }
        }
      }
    }
  }

  /** Dropping the last element of a duplicate-free sequence keeps it so, and the last is not among the rest. */
  lemma DistinctLast<T>(s: seq<T>)
    requires Distinct(s) && s != []
    ensures Distinct(s[..|s| - 1]) && s[|s| - 1] !in s[..|s| - 1]
  {
    var n := |s| - 1;
    DistinctPairs(s);
    DistinctPairs(s[..n]);
  }

  /** Where each element of a duplicate-free sequence stands in it. */
  ghost function Positions<T>(s: seq<T>): (pos: map<T, nat>)
    requires Distinct(s)
    ensures forall k :: 0 <= k < |s| ==> s[k] in pos && pos[s[k]] == k
  {
    DistinctPairs(s);
    map k | 0 <= k < |s| :: s[k] := k
  }

  /** The reference counts of `ps`, in list order. */
  ghost function Counts(ps: seq<Port>): (cs: seq<nat>)
    reads ps`refCount
    ensures |cs| == |ps| && forall k {:trigger cs[k]} :: 0 <= k < |ps| ==> cs[k] == ps[k].refCount
    decreases |ps|
  {
    if ps == [] then [] else [ps[0].refCount] + Counts(ps[1..])
  }

  /** The channels of `ps`, in list order. */
  ghost function Channels(ps: seq<Port>): (cs: seq<Address>)
    reads ps`channel
    ensures |cs| == |ps| && forall k {:trigger cs[k]} :: 0 <= k < |ps| ==> cs[k] == ps[k].channel
    decreases |ps|
  {
    if ps == [] then [] else [ps[0].channel] + Channels(ps[1..])
  }

  /**
   * The fields of the ports of `ps` from index `k` on, position by position:
   * `nx` their `next`, `dl` whether they are freed, `ch` their channel and
   * `cs` their reference count.
   */
  ghost predicate Mirrors(ps: seq<Port>, nx: seq<Port?>, dl: seq<bool>, ch: seq<Address>, cs: seq<nat>, k: nat)
    requires |nx| == |ps| && |dl| == |ps| && |ch| == |ps| && |cs| == |ps| && k <= |ps|
    reads ps`next, ps`deleted, ps`channel, ps`refCount
    decreases |ps| - k
  {
    k == |ps| ||
    (ps[k].next == nx[k] && ps[k].deleted == dl[k] && ps[k].channel == ch[k] && ps[k].refCount == cs[k] &&
     Mirrors(ps, nx, dl, ch, cs, k + 1))
  }

  /** What the mirrors say about one port. */
  lemma {:induction false} MirrorsAt(ps: seq<Port>, nx: seq<Port?>, dl: seq<bool>, ch: seq<Address>, cs: seq<nat>, k: nat, j: nat)
    requires |nx| == |ps| && |dl| == |ps| && |ch| == |ps| && |cs| == |ps| && k <= j < |ps|
    requires Mirrors(ps, nx, dl, ch, cs, k)
    ensures ps[j].next == nx[j] && ps[j].deleted == dl[j] && ps[j].channel == ch[j] && ps[j].refCount == cs[j]
    decreases j - k
  {
    if k < j {
      MirrorsAt(ps, nx, dl, ch, cs, k + 1, j);
    }
  }

  /** The `next` fields of `ps`, in list order. */
  ghost function Nexts(ps: seq<Port>): (r: seq<Port?>)
    reads ps`next
    ensures |r| == |ps| && forall k {:trigger r[k]} :: 0 <= k < |ps| ==> r[k] == ps[k].next
    decreases |ps|
  {
    if ps == [] then [] else [ps[0].next] + Nexts(ps[1..])
  }

  /** Whether each port of `ps` is freed, in list order. */
  ghost function Deleteds(ps: seq<Port>): (r: seq<bool>)
    reads ps`deleted
    ensures |r| == |ps| && forall k {:trigger r[k]} :: 0 <= k < |ps| ==> r[k] == ps[k].deleted
    decreases |ps|
  {
    if ps == [] then [] else [ps[0].deleted] + Deleteds(ps[1..])
  }

  /** The mirrors of the current fields. */
  lemma {:induction false} MirrorsOf(ps: seq<Port>, k: nat)
    requires k <= |ps|
    ensures Mirrors(ps, Nexts(ps), Deleteds(ps), Channels(ps), Counts(ps), k)
    decreases |ps| - k
  {
    if k < |ps| {
      MirrorsOf(ps, k + 1);
    }
  }

  /** The mirrors, read port by port. */
  lemma {:induction false} MirrorsPointwise(ps: seq<Port>, nx: seq<Port?>, dl: seq<bool>, ch: seq<Address>, cs: seq<nat>, k: nat)
    requires |nx| == |ps| && |dl| == |ps| && |ch| == |ps| && |cs| == |ps| && k <= |ps|
    ensures Mirrors(ps, nx, dl, ch, cs, k) <==>
      forall j :: k <= j < |ps| ==> ps[j].next == nx[j] && ps[j].deleted == dl[j] && ps[j].channel == ch[j] && ps[j].refCount == cs[j]
    decreases |ps| - k
  {
    if k < |ps| {
      MirrorsPointwise(ps, nx, dl, ch, cs, k + 1);
    }
  }

  /** The elements of `ps` whose count in `cs` is not zero, in the order of `ps`. */
  function Kept<T>(ps: seq<T>, cs: seq<nat>): seq<T>
    requires |cs| == |ps|
    decreases |ps|
  {
    if ps == [] then []
    else Kept(ps[..|ps| - 1], cs[..|cs| - 1]) + (if cs[|cs| - 1] != 0 then [ps[|ps| - 1]] else [])
  }

  /** The ports of `ps` a sweep keeps: those whose reference count is not zero. */
  ghost function Survivors(ps: seq<Port>): seq<Port>
    reads ps`refCount
  {
    Kept(ps, Counts(ps))
  }

  /** A sweep keeps exactly the listed ports that are still referenced. */
  lemma SurvivorsExactly(ports: seq<Port>)
    requires Distinct(ports)
    ensures forall p :: p in Survivors(ports) ==> p in ports
    ensures forall k :: 0 <= k < |ports| ==> (ports[k] in Survivors(ports) <==> ports[k].refCount != 0)
  {
    KeptSubset(ports, Counts(ports));
    KeptMembers(ports, Counts(ports));
  }

  /** The ports a sweep keeps are still owned by `owner` and not freed. */
  lemma SweptOwned(owner: Process, ports: seq<Port>)
    requires Distinct(ports)
    requires forall p :: p in ports ==> p.process == owner && (p.deleted <==> p.refCount == 0)
    ensures forall p :: p in Survivors(ports) ==> p.process == owner && !p.deleted
  {
    SurvivorsExactly(ports);
    forall p | p in Survivors(ports) ensures p.process == owner && !p.deleted {
      var k :| 0 <= k < |ports| && ports[k] == p;
    }
  }

  /** Every element kept comes from the input. */
  lemma {:induction false} KeptSubset<T>(ps: seq<T>, cs: seq<nat>)
    requires |cs| == |ps|
    ensures forall x :: x in Kept(ps, cs) ==> x in ps
    decreases |ps|
  {
    if ps != [] {
      KeptSubset(ps[..|ps| - 1], cs[..|cs| - 1]);
      assert ps == ps[..|ps| - 1] + [ps[|ps| - 1]];
    }
  }

  /** Of distinct elements, exactly those with a nonzero count are kept. */
  lemma {:induction false} KeptMembers<T>(ps: seq<T>, cs: seq<nat>)
    requires |cs| == |ps| && Distinct(ps)
    ensures forall k :: 0 <= k < |ps| ==> (ps[k] in Kept(ps, cs) <==> cs[k] != 0)
    decreases |ps|
  {
    if ps != [] {
      var n := |ps| - 1;
      DistinctLast(ps);
      KeptMembers(ps[..n], cs[..n]);
      KeptSubset(ps[..n], cs[..n]);
      forall k | 0 <= k < |ps| ensures ps[k] in Kept(ps, cs) <==> cs[k] != 0 {
        if k < n {
          assert ps[..n][k] == ps[k] && cs[..n][k] == cs[k];
        }
      }
    }
  }

  /** One more element of the input decides one more element of the output. */
  lemma KeptStep<T>(ps: seq<T>, cs: seq<nat>, i: nat)
    requires |cs| == |ps| && i < |ps|
    ensures Kept(ps[..i + 1], cs[..i + 1]) == Kept(ps[..i], cs[..i]) + (if cs[i] != 0 then [ps[i]] else [])
  {
    assert ps[..i + 1][..i] == ps[..i] && cs[..i + 1][..i] == cs[..i];
  }

  /** Keeping never duplicates an element. */
  lemma {:induction false} KeptDistinct<T>(ps: seq<T>, cs: seq<nat>)
    requires |cs| == |ps| && Distinct(ps)
    ensures Distinct(Kept(ps, cs))
    decreases |ps|
  {
    if ps != [] {
      var n := |ps| - 1;
      DistinctPairs(ps);
      DistinctPairs(ps[..n]);
      KeptDistinct(ps[..n], cs[..n]);
      KeptSubset(ps[..n], cs[..n]);
      assert ps[n] !in ps[..n];
      DistinctPairs(Kept(ps[..n], cs[..n]));
      DistinctPairs(Kept(ps, cs));
    }
  }

  /** The external process, as far as ports see it: its port list and its mailbox. */
  class Process {
    var ports: Port?             // head of the intrusive port list
    var mailbox: seq<Entry>
    ghost var portList: seq<Port> // the ports reachable from `ports`, in list order

    /**
     * The port list is well formed, and every port on it is owned by this
     * process and not yet freed: a port whose last reference goes while its
     * owner lives is left for the owner's sweep to unlink and free.  When the
     * owner terminates, OwnerProcessTerminating frees or orphans each of its
     * ports, and this invariant ends with the process.
     */
    ghost predicate Valid()
      reads this, portList`next, portList`process, portList`deleted
    {
      IsList(ports, portList) &&
      forall p :: p in portList ==> p.process == this && !p.deleted
    }

    /**
     * The process's sweep of its own ports after a collection by `gc` (the
     * caller in the process code is not part of this model): the list is
     * replaced by the one Port::CleanupPorts returns, whose channels are
     * repaired, and stays valid.
     */
    method SweepPorts(gc: Collector)
      requires Valid()
      modifies this`ports, this`portList, portList`next, portList`channel, portList`deleted
      ensures Valid()
      ensures portList == Survivors(old(portList))
      ensures forall p :: p in old(portList) ==> (p.deleted <==> p.refCount == 0)
      ensures forall k :: 0 <= k < |old(portList)| && old(portList)[k].refCount != 0 ==>
        old(portList)[k].channel == SweptChannel(gc, old(portList[k].channel))
    {
      ghost var listed := portList;
      var head;
      head, portList := Port.CleanupPorts(gc, ports, portList);
      ports := head;
      SweptOwned(this, listed);
      assert listed == old(portList);  // the list swept is the one the call began with
    }

    method Enqueue(entry: Entry)
      modifies this`mailbox
      ensures mailbox == old(mailbox) + [entry]
    {
      mailbox := mailbox + [entry];
    }
  }

  class Port {
    var process: Process?  // NULL once the owner has terminated
    var channel: Address
    var refCount: nat
    var locked: bool       // the spinlock
    var next: Port?
    ghost var deleted: bool

    /** Port::Port: one reference, pushed on the front of the owner's list. */
    constructor (process: Process, channel: Address)
      requires process.Valid()
      modifies process`ports, process`portList
      ensures this.process == process && this.channel == channel
      ensures refCount == 1 && !locked && !deleted
      ensures next == old(process.ports)
      ensures process.ports == this && process.portList == [this] + old(process.portList)
      ensures process.Valid()
    {
      this.process := process;
      this.channel := channel;
      refCount := 1;
      locked := false;
      next := process.ports;
      deleted := false;
      ghost var rest := process.portList;
      new;
      assert old(allocated(rest));
      process.ports := this;
      process.portList := [this] + rest;
      ListPush(this, rest);
    }

    method Lock()
      requires !locked
      modifies this`locked
      ensures locked
    {
      locked := true;
    }

    method Unlock()
      requires locked
      modifies this`locked
      ensures !locked
    {
      locked := false;
    }

    /** Port::~Port, reached through `delete`: only a port nobody refers to is freed. */
    method Delete()
      requires refCount == 0 && !deleted
      modifies this`deleted
      ensures deleted
    {
      deleted := true;
    }

    /** Port::IncrementRef: a further holder of a live port; no lock is taken. */
    method IncrementRef()
      requires !deleted && refCount > 0
      modifies this`refCount
      ensures refCount == old(refCount) + 1
    {
      refCount := refCount + 1;
    }

    /**
     * Port::DecrementRef: drops one reference under the lock.  The port is
     * freed at once only when the last reference goes and the owner is gone;
     * with a live owner the owner's sweep frees it later.
     */
    method DecrementRef()
      requires !deleted && !locked && refCount > 0
      modifies this`refCount, this`locked, this`deleted
      ensures refCount == old(refCount) - 1
      ensures deleted <==> refCount == 0 && process == null
      ensures !deleted ==> !locked
    {
      Lock();
      refCount := refCount - 1;
      if refCount == 0 {
        if process == null {
          Delete();
          return;
        }
      }
      Unlock();
    }

    /**
     * Port::OwnerProcessTerminating: a port nobody refers to any more is freed;
     * any other port is orphaned (count and channel stay as they are).
     */
    method OwnerProcessTerminating()
      requires !deleted && !locked
      modifies this`process, this`locked, this`deleted
      ensures deleted <==> refCount == 0
      ensures !deleted ==> process == null && !locked
    {
      Lock();
      if refCount == 0 {
        Delete();
        return;
      } else {
        process := null;
      }
      Unlock();
    }

    /**
     * Port::CleanupPorts: one pass over the list starting at `head` that
     * unlinks and frees every port with count zero and repairs the channel of
     * every other port.  Returns the new head.
     */
    static method CleanupPorts(gc: Collector, head: Port?, ghost ports: seq<Port>)
      returns (newHead: Port?, ghost kept: seq<Port>)
      requires IsList(head, ports)
      requires forall p :: p in ports ==> !p.deleted
      modifies ports`next, ports`channel, ports`deleted
      ensures kept == Survivors(ports)
      ensures IsList(newHead, kept)
      ensures forall p :: p in ports ==> (p.deleted <==> p.refCount == 0)
      ensures forall k :: 0 <= k < |ports| && ports[k].refCount != 0 ==>
        ports[k].channel == SweptChannel(gc, old(ports[k].channel))
    {
      SweepStart(gc, head, ports);
      ghost var counts, channels := Counts(ports), Channels(ports);
      // the fields of every port, mirrored in sequences indexed like `ports`
      ghost var nx: seq<Port?>, dl: seq<bool>, ch: seq<Address> := Nexts(ports), Deleteds(ports), channels;
      // the indices of the ports kept so far, and of the last of them (-1: none)
      ghost var ks: seq<nat>, prev := [], -1;
      var current := head;
      var previous: Port? := null;
      newHead := head;
      ghost var i := 0;
      kept := [];
      while current != null
        invariant SweepState(gc, ports, counts, channels, i, prev, ks, kept, nx, dl, ch)
        invariant Mirrors(ports, nx, dl, ch, counts, 0)
        invariant current == if i < |ports| then ports[i] else null
        invariant previous == if prev < 0 then null else ports[prev]
        invariant newHead == if kept == [] then current else kept[0]
        decreases |ports| - i
      {
        MirrorsAt(ports, nx, dl, ch, counts, 0, i);
        assert Unvisited(ports, channels, nx, dl, ch, i);
        var next := current.next;
        previous, newHead, prev, ks, kept, nx, dl, ch :=
          Visit(gc, current, previous, newHead, ports, counts, channels, i, prev, ks, kept, nx, dl, ch);
        current := next;
        i := i + 1;
      }
      SweepEnd(gc, ports, counts, channels, prev, ks, kept, nx, dl, ch);
      assert Counts(ports) == counts;
    }

    /** One step of CleanupPorts: the visit of `current`, the `i`-th port of the list. */
    static method Visit(gc: Collector, current: Port, previous: Port?, newHead: Port?,
                        ghost ports: seq<Port>, ghost counts: seq<nat>, ghost channels: seq<Address>, ghost i: nat,
                        ghost prev: int, ghost ks: seq<nat>, ghost kept: seq<Port>,
                        ghost nx: seq<Port?>, ghost dl: seq<bool>, ghost ch: seq<Address>)
      returns (previous': Port?, newHead': Port?, ghost prev': int, ghost ks': seq<nat>, ghost kept': seq<Port>,
               ghost nx': seq<Port?>, ghost dl': seq<bool>, ghost ch': seq<Address>)
      requires Distinct(ports) && i < |ports| && current == ports[i]
      requires SweepState(gc, ports, counts, channels, i, prev, ks, kept, nx, dl, ch)
      requires Mirrors(ports, nx, dl, ch, counts, 0)
      requires previous == if prev < 0 then null else ports[prev]
      requires newHead == if kept == [] then current else kept[0]
      modifies ports`next, ports`channel, ports`deleted
      ensures SweepState(gc, ports, counts, channels, i + 1, prev', ks', kept', nx', dl', ch')
      ensures Mirrors(ports, nx', dl', ch', counts, 0)
      ensures previous' == if prev' < 0 then null else ports[prev']
      ensures newHead' == if kept' == [] then Succ(ports, i) else kept'[0]
    {
      MirrorsPointwise(ports, nx, dl, ch, counts, 0);
      ghost var pos := Positions(ports);
      assert Unvisited(ports, channels, nx, dl, ch, i);
      var next := current.next;
      previous', newHead', prev', ks', kept', nx', dl', ch' := previous, newHead, prev, ks, kept, nx, dl, ch;
      if current.refCount == 0 {
        if previous == null {
          newHead' := next;
        } else {
          previous.next := next;
          nx' := nx[prev := next];
        }
        SweepFree(gc, ports, counts, channels, i, prev, ks, kept, nx, dl, ch, nx');
        current.Delete();
        dl' := dl[i := true];
      } else {
        current.RepairChannel(gc);
        SweepKeep(gc, ports, counts, channels, i, prev, ks, kept, nx, dl, ch, current.channel);
        ch' := ch[i := current.channel];
        previous' := current;
        prev' := i;
        ks' := ks + [i];
        kept' := kept + [current];
      }
      forall k | 0 <= k < |ports|
        ensures ports[k].next == nx'[k] && ports[k].deleted == dl'[k] && ports[k].channel == ch'[k] && ports[k].refCount == counts[k]
      {
        assert pos[ports[k]] == k;
      }
      MirrorsPointwise(ports, nx', dl', ch', counts, 0);
    }

    /** The channel update CleanupPorts applies to a surviving port. */
    method RepairChannel(gc: Collector)
      modifies this`channel
      ensures channel == SweptChannel(gc, old(channel))
    {
      var channel := this.channel;
      if channel != NULL && gc.includes(channel) {
        match gc
        case MarkSweep(_, isMarked) =>
          if !isMarked(channel) {
            this.channel := NULL;
          }
        case Copying(_, forwardingAddress) =>
          this.channel := forwardingAddress(channel);
      }
    }

    /** Port::WeakCallback: the language-level port object died, so its reference goes. */
    static method WeakCallback(port: Port)
      requires !port.deleted && !port.locked && port.refCount > 0
      modifies port`refCount, port`locked, port`deleted
      ensures port.refCount == old(port.refCount) - 1
      ensures port.deleted <==> port.refCount == 0 && port.process == null
      ensures !port.deleted ==> !port.locked
    {
      port.DecrementRef();
    }
  }

  /** `port` as a set: empty for the NULL port. */
  function Only(port: Port?): set<Port> {
    if port == null then {} else {port}
  }

  /** The process that owns `port`, if there is a port and it still has an owner. */
  function Owner(port: Port?): set<Process>
    reads port
  {
    if port != null && port.process != null then {port.process} else {}
  }

  /**
   * NATIVE(PortCreate): allocates the integer that will hold the port's
   * address and the language-level port object; when either allocation asks
   * for a collection the native returns that request and nothing else
   * happens.  Otherwise a new port owned by `process` is made and wrapped.
   */
  method PortCreate(process: Process, channel: Address, integer: Allocation, instance: Allocation)
    returns (r: NativeResult)
    requires process.Valid()
    modifies process`ports, process`portList
    ensures integer == NeedsGc || instance == NeedsGc ==>
      r == RetryAfterGc && process.ports == old(process.ports) && process.portList == old(process.portList)
    ensures integer == Allocated && instance == Allocated ==>
      r.PortInstance? && fresh(r.port) &&
      r.port.process == process && r.port.channel == channel && r.port.refCount == 1 && !r.port.locked &&
      !r.port.deleted && r.port.next == old(process.ports) &&
      process.ports == r.port && process.portList == [r.port] + old(process.portList)
    ensures process.Valid()
  {
    if integer == NeedsGc {
      return RetryAfterGc;
    }
    if instance == NeedsGc {
      return RetryAfterGc;
    }
    var port := new Port(process, channel);
    return PortInstance(port);
  }

  /**
   * NATIVE(PortSend): sends an immutable `message` to the owner of `port`
   * (null when the language-level port holds address 0).
   *
   * The owner is looked up once without the lock and again under it; in
   * between, the owner may terminate on another thread.  `ownerTerminates`
   * says whether that happens, in which case the port is orphaned exactly as
   * OwnerProcessTerminating leaves it (the sender still holds a reference,
   * so it is not freed).  The sender itself is running the native, so it
   * cannot be the owner that terminates.
   */
  method PortSend(process: Process, port: Port?, message: Value, ownerTerminates: bool)
    returns (r: NativeResult)
    requires port != null ==> !port.deleted && !port.locked && port.refCount > 0
    // only an owner other than the sender can terminate during the send
    requires ownerTerminates ==> port != null && port.process != process
    modifies Only(port)`process, Only(port)`locked, Only(port)`deleted, Owner(port)`mailbox
    ensures !message.isImmutable ==>
      r == WrongArgumentType && (port != null ==> unchanged(port)) && forall o :: o in old(Owner(port)) ==> unchanged(o)
    ensures message.isImmutable && port == null ==> r == IllegalState
    ensures message.isImmutable && port != null && old(port.process) == null ==>
      r == NullObject && unchanged(port)
    ensures message.isImmutable && port != null && old(port.process) != null && ownerTerminates ==>
      var owner := old(port.process);
      r == NullObject && port.process == null && !port.locked && owner.mailbox == old(owner.mailbox)
    ensures message.isImmutable && port != null && old(port.process) != null && !ownerTerminates ==>
      var owner := old(port.process);
      owner.mailbox == old(owner.mailbox) + [Message(port, message)] && port.process == owner &&
      (owner != process ==> r == LockedPort(port) && port.locked) &&
      (owner == process ==> r == NullObject && !port.locked)
    ensures port != null ==> port.refCount == old(port.refCount) && port.channel == old(port.channel) && !port.deleted
  {
    if !message.isImmutable {
      return WrongArgumentType;
    }
    if port == null {
      return IllegalState;
    }
    if port.process != null {
      var entry := Message(port, message);
      if ownerTerminates {
        port.OwnerProcessTerminating();
      }
      port.Lock();
      var portProcess := port.process;
      if portProcess != null {
        portProcess.Enqueue(entry);
        if portProcess != process {
          return LockedPort(port);
        }
      }
      port.Unlock();
    }
    return NullObject;
  }

  /**
   * NATIVE(PortSendExit): the exit message of `process` for the owner of
   * `port`; an immutable message is queued as a plain message, any other as
   * an exit message naming the sender.  Only another, live process can be
   * told; the port is left locked for the scheduler.
   */
  method PortSendExit(process: Process, port: Port?, message: Value) returns (r: NativeResult)
    requires port != null ==> !port.deleted && !port.locked
    modifies Only(port)`locked, Owner(port)`mailbox
    ensures port == null ==> r == IllegalState
    ensures port != null && port.process != null && port.process != process ==>
      var owner := port.process;
      r == TargetYield(port) && port.locked &&
      owner.mailbox == old(owner.mailbox) +
        [if message.isImmutable then Message(port, message) else ExitMessage(process, port, message)]
    ensures port != null && (port.process == null || port.process == process) ==>
      r == IllegalState && !port.locked && forall o :: o in old(Owner(port)) ==> unchanged(o)
  {
    if port == null {
      return IllegalState;
    }
    port.Lock();
    var portProcess := port.process;
    if portProcess != null && portProcess != process {
      if message.isImmutable {
        portProcess.Enqueue(Message(port, message));
      } else {
        portProcess.Enqueue(ExitMessage(process, port, message));
      }
      return TargetYield(port);
    }
    port.Unlock();
    return IllegalState;
  }

  /**
   * NATIVE(SystemIncrementPortRef): returns the port's address as an
   * integer and takes one more reference to the port, unless allocating
   * that integer asks for a collection first.
   */
  method SystemIncrementPortRef(port: Port, integer: Allocation) returns (r: NativeResult)
    requires !port.deleted && port.refCount > 0
    modifies port`refCount
    ensures integer == NeedsGc ==> r == RetryAfterGc && port.refCount == old(port.refCount)
    ensures integer == Allocated ==> r == PortAddress(port) && port.refCount == old(port.refCount) + 1
  {
    if integer == NeedsGc {
      return RetryAfterGc;
    }
    port.IncrementRef();
    return PortAddress(port);
  }
}
