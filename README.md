# Fletch VM ports and the macOS event loop, in Dafny

This project models two pieces of the Fletch VM.

- **Ports** (`port.dfy`, module `Ports`). A port is a reference-counted, spinlock-protected handle binding an
  owning process to a channel object. The owner may terminate, leaving the port orphaned. A process threads
  the ports it created on an intrusive singly-linked list, and the collector sweeps that list after each
  collection: it frees unreferenced ports and repairs the channel of the others. The natives `PortCreate`,
  `PortSend`, `PortSendExit` and `SystemIncrementPortRef` are the language-level entry points.
  `Port` and `Process` are classes whose methods update their fields in place. Freeing is a ghost
  `deleted` flag that only a port with count zero can take, and only once. The spinlock is a `locked` flag.
  The port list is tied to a ghost sequence `portList` by `IsList`: a NULL-terminated chain of `next` links
  visiting each port once. A process's invariant `Valid()` also says that every listed port is owned by that
  process and not yet freed. A port whose last reference goes while its owner lives is left on the list for
  the owner's sweep to free (src/vm/port.cc:39-47). `OwnerProcessTerminating` deliberately ends this
  invariant: it frees or orphans each port of a dying owner.
- **The kqueue event loop** (`event_handler.dfy`, module `EventLoop`). `EventHandler::Run` waits for one
  kernel event at a time, until the earliest timeout deadline. It runs the expired timeouts after every wait.
  Then it drains a wakeup byte, shuts down, or turns the event into a mask of READ/WRITE/CLOSE/ERROR and
  sends it to the port stored with the event. The wait interval and the mask are pure functions. One turn
  of the loop is the method `Step`, and the loop is the method `Run`, over the answers the environment gives
  (clock, deadline, wait status, event). `Run` is proved against a declarative description: it runs up to
  the first shutdown, and its waits, drains and sends are the functions `Waits`, `Drains` and `Deliveries`
  of those turns.

Two behaviours of the code are easy to miss, and the model keeps both:

- `Port::IncrementRef` takes no lock, unlike `Port::DecrementRef` (src/vm/port.cc:31-49).
- `PortSend` to an orphaned port enqueues nothing and returns null rather than illegal state
  (src/vm/port.cc:143-163).

## Model

| member | source | states |
|---|---|---|
| Ports.Port.constructor | src/vm/port.cc:16-25 | a new port holds one reference, is unlocked and live, points to its process and channel, links to the old head and becomes the head of the owner's list; the rest of the list is unchanged and it stays a well-formed list |
| Ports.Port.Lock | src/vm/port.cc:37 | the spinlock, taken only when free (every caller in port.cc: lines 37, 52, 146, 174), is held afterwards |
| Ports.Port.Unlock | src/vm/port.cc:48 | the held spinlock (released at lines 48, 59, 159, 192) is free afterwards |
| Ports.Port.Delete | src/vm/port.cc:27-29 | only a port whose count is zero is freed, and never twice |
| Ports.Port.IncrementRef | src/vm/port.cc:31-34 | requires a live port with a positive count; the count goes up by exactly one and no other field changes |
| Ports.Port.DecrementRef | src/vm/port.cc:36-49 | the count goes down by one; the port is freed exactly when the count reaches zero and the owner is gone; a surviving port is left unlocked |
| Ports.Port.OwnerProcessTerminating | src/vm/port.cc:51-60 | a port with count zero is freed; any other port is orphaned and unlocked, with count, channel and links untouched |
| Ports.Port.CleanupPorts | src/vm/port.cc:62-93 | the returned head starts a well-formed list of exactly the input ports with a nonzero count, in their original order; every port with count zero is freed (once) and no other is; every survivor's channel is the swept channel of its old one |
| Ports.Port.Visit | src/vm/port.cc:66-89 | one step of the sweep: the port is either unlinked and freed (count zero) or kept with its channel repaired, and the sweep invariant advances by one port |
| Ports.Process.SweepPorts | src/vm/port.cc:62-93 | the owner's list is replaced by what CleanupPorts returns: exactly the survivors of the old list; the unreferenced ports are freed; each survivor's channel is `SweptChannel` of its old channel; and the list stays valid, with every listed port owned by the process and not freed |
| Ports.SweptOwned | src/vm/port.cc:62-93 | every port kept by a sweep is still owned by the same process and has not been freed |
| Ports.SurvivorsExactly | src/vm/port.cc:62-93 | a port of the list survives the sweep if and only if its count is not zero, and nothing else survives |
| Ports.KeptDistinct | src/vm/port.cc:62-93 | the sweep never lists a port twice |
| Ports.SweptChannel | src/vm/port.cc:76-87 | NULL channels and channels outside the swept space are untouched; mark-sweep keeps a channel iff it is marked and clears it otherwise, so no survivor points at an unmarked object; a copying collector redirects it to its forwarding address |
| Ports.Port.RepairChannel | src/vm/port.cc:76-87 | the survivor's channel becomes the swept channel of its old value |
| Ports.Port.WeakCallback | src/vm/port.cc:95-102 | the dying language-level port object releases its reference, with the effects of DecrementRef |
| Ports.Process.Enqueue | src/vm/port.cc:149 | the mailbox gains exactly the given entry at its end |
| Ports.PortCreate | src/vm/port.cc:104-124 | when an allocation asks for a collection, only that request is returned and the port list is unchanged; otherwise a fresh, live, unlocked port with one reference, owned by the caller, holding the channel and linking to the old head, heads the caller's list |
| Ports.PortSend | src/vm/port.cc:126-164 | a mutable message gives wrong-argument-type with nothing changed; address 0 gives illegal state; an orphaned port gives null with nothing enqueued; an owner other than the sender that terminates before the lock is taken gets nothing and the port is orphaned; otherwise exactly one message is appended to the owner's mailbox, and the port is returned still locked when the owner is another process, or unlocked with null when it is the sender; the count and the channel never change |
| Ports.PortSendExit | src/vm/port.cc:166-194 | address 0 gives illegal state; with a live owner other than the sender one entry is appended (a plain message when immutable, an exit message naming the sender otherwise) and the port is returned locked for the scheduler; otherwise illegal state with the port unlocked and no mailbox touched |
| Ports.SystemIncrementPortRef | src/vm/port.cc:196-206 | a collection request leaves the count unchanged; otherwise the port's address is returned and the count goes up by one |
| EventLoop.Millis | src/vm/event_handler_macos.cc:39 | the clock in whole milliseconds rounded toward zero, as C's integer division does |
| EventLoop.MillisMonotonic | src/vm/event_handler_macos.cc:39 | a later clock never gives fewer milliseconds |
| EventLoop.Remaining | src/vm/event_handler_macos.cc:39-40 | the time left is never negative and is the difference between deadline and clock when that is not negative, zero otherwise |
| EventLoop.WaitInterval | src/vm/event_handler_macos.cc:36-44 | no interval (wait forever) exactly when the deadline is INT64_MAX; otherwise non-negative seconds and nanoseconds below one second, in whole milliseconds, adding up to the remaining milliseconds |
| EventLoop.WaitIntervalExact | src/vm/event_handler_macos.cc:41-42 | the interval in nanoseconds is exactly the remaining time |
| EventLoop.WaitShrinks | src/vm/event_handler_macos.cc:38-40 | for the same deadline a later clock never gives a longer wait |
| EventLoop.EventMask | src/vm/event_handler_macos.cc:71-87 | READ iff read filter without end-of-file error; WRITE iff write filter without end-of-file error; CLOSE iff read filter at end of file with zero fflags; ERROR iff read or write filter at end of file with nonzero fflags; nothing for other filters |
| EventLoop.ErrorAlone | src/vm/event_handler_macos.cc:74-86 | an ERROR mask carries no other bit |
| EventLoop.OtherFiltersEmpty | src/vm/event_handler_macos.cc:71-87 | a filter other than read or write is sent with the empty mask |
| EventLoop.AsWord | src/vm/event_handler_macos.cc:56 | `read_fd_` as the unsigned 64-bit type of `ident`: a non-negative descriptor keeps its value, a negative one wraps around modulo 2^64, and the result always fits in 64 bits |
| EventLoop.ShutdownAt | src/vm/event_handler_macos.cc:56-68 | finds the first turn whose event is end of file on the wakeup descriptor, and reports none only when there is none |
| EventLoop.ShutdownFirst | src/vm/event_handler_macos.cc:56-68 | a shutdown turn with none before it is the one the loop stops at |
| EventLoop.ShutdownIsFinal | src/vm/event_handler_macos.cc:61-67 | turns after the shutdown change neither where the loop stops nor what it ran |
| EventLoop.Iterations | src/vm/event_handler_macos.cc:28-92 | the loop runs no more turns than it is given |
| EventLoop.WaitsPointwise | src/vm/event_handler_macos.cc:35-46 | the k-th wait uses the interval computed from the k-th deadline and clock |
| EventLoop.DeliveriesOfTranslated | src/vm/event_handler_macos.cc:89-90 | every translated event is sent, with its mask, to the port from its user data, and nothing else is sent |
| EventLoop.DeliveriesCount | src/vm/event_handler_macos.cc:89-90 | there are exactly as many sends as turns whose event is translated: one Send per event |
| EventLoop.IdleTurnsInert | src/vm/event_handler_macos.cc:46-50 | a turn whose wait did not return exactly one event neither sends nor drains |
| EventLoop.EventHandler.HandleTimeouts | src/vm/event_handler_macos.cc:48 | each call is one more run of the expired timeouts |
| EventLoop.EventHandler.Send | src/vm/event_handler_macos.cc:89-90 | each call records one delivery of a mask to a port |
| EventLoop.EventHandler.Step | src/vm/event_handler_macos.cc:29-91 | one turn: waits with the interval for the deadline, runs the timeouts, then drains a wakeup byte, or shuts down (descriptors closed, fd_ set to -1, monitor notified, reports stop), or sends the event's mask; a wait that did not return one event does nothing more |
| EventLoop.EventHandler.Run | src/vm/event_handler_macos.cc:22-92 | registers the wakeup descriptor, runs the turns up to and including the first shutdown, handles the timeouts once per turn, and its waits, drains and sends are those of exactly these turns; it shuts down iff a shutdown turn exists, and otherwise leaves the descriptor and the monitor as they were |

## Left out

- Concurrency. The spinlock and the monitor are sequential flags, and taking a held spinlock is a precondition violation rather than spinning. The races between `DecrementRef`, `OwnerProcessTerminating` and the natives on other threads are not modelled. The one race `PortSend` is written for, the owner terminating between the unlocked check and the locked re-check, is the parameter `ownerTerminates`.
- Heap allocation (`NewInteger`, `NewInstance`, `ToInteger`): each allocation is an `Allocation` outcome that either succeeds or asks for a collection.
- `Message::NewImmutableMessage` and freeing the unused message: the message payload is a value, so allocating and freeing it is not modelled.
- `RegisterFinalizer`, and storing the port's address in the language-level object: a port is identified by its object reference, and address 0 by `null`.
- Ports.SystemIncrementPortRef: the source does not check for address 0 before dereferencing, so the model requires a port.
- Ports.Port.CleanupPorts: writing `0xcafecafe` into a freed port's channel is not modelled, because the port is gone after `delete`.
- Collector internals (`Space::Includes`, `IsMarked`, `forwarding_address`) are functions supplied by the `Collector` value. The compile-time choice between mark-sweep and copying is the constructor of that value.
- The kqueue, `kevent`, `read` and `close` calls and `Platform::GetMicroseconds` are the environment. Each turn's clock, deadline, wait status and event are inputs. The registration of the wakeup descriptor is the flag `watching`, and closing both descriptors is the flag `closed`.
- EventLoop.EventHandler.Run: the source loops forever; the model runs over a finite sequence of turns and returns when it is exhausted.
- EventLoop.WaitInterval: computes on unbounded integers. The `int64` subtraction of the clock from a deadline near `INT64_MIN` would overflow in C, and that overflow is not modelled.
- EventLoop.EventMask: masks are sets of event kinds. The bit values of `READ_EVENT`, `WRITE_EVENT`, `CLOSE_EVENT` and `ERROR_EVENT` live in src/vm/event_handler.h, which is not part of this model.
- EventLoop.EventHandler.constructor: stands for the handler's construction in src/vm/event_handler.cc, which is not part of this model. It sets the kqueue and wakeup descriptors and starts with nothing recorded.
- `EventHandler::Send` and `EventHandler::HandleTimeouts` live in src/vm/event_handler.cc, which is not part of this model. The model records their calls.
- `EventHandler::Create` (a bare `kqueue()` call) is OS plumbing.
