# Connection setup of gloo's TCP transport, in Dafny

This project models two parts of the TCP transport's connection setup and
proves properties of them.

- **Value transfer operation** (`transfer.dfy`, module `Transfer`;
  `gloo/transport/tcp/helpers.h`). A `ReadValueOperation_` or
  `WriteValueOperation_` registers one-shot interest with the event loop and
  keeps itself alive through a self-reference (`leak_`). On its single
  `handleEvents` it makes one `read` or `write` of `sizeof(T)` bytes. It then
  reports a system error, a short transfer or OK to its callback.
  The model uses one class, `ValueOperation<T>`, whose `dir` says which of the
  two it is. Its named constructors `ForRead` and `ForWrite` stand for the two
  C++ constructors. The shared base `BaseOperation_::initialize` is
  `Initialize`. `state` (`Registered`/`Done`) records whether the one-shot
  registration is still armed. `calls` logs every callback invocation and
  `sent` records what the single write attempt handed to the socket. The
  classification of the return value is the pure function `Outcome`.
- **Rendezvous listener** (`listener.dfy`, module `TcpListener`;
  `gloo/transport/tcp/listener.cc`). The listener hands out sequence numbers
  (`nextAddress`) and drains the listening socket (`handleEvents`). It reads a
  sequence number from each accepted connection, then matches the socket
  with the `waitForConnection` callback for the same number, whichever
  arrives first. The class `Listener` has the counter `nextSeq` (`seq_`), the
  tables `socks` (`seqToSocket_`) and `cbs` (`seqToCallback_`), and two
  logs. `deferred` holds the deliveries queued with `loop_->defer`.
  `delivered` holds the callbacks invoked directly. The rendezvous methods
  are tied to pure step functions on the datatype `Rendezvous`: the
  constructor to `Init`, `NextAddress` to `Issue`, `WaitForConnection` to
  `Wait`, and `HaveConnection` and a successful `OnHandshake` to `Have`.
  `HandleEvents` only records the handshake reads it starts, in
  `handshakes`, which is not part of `Rendezvous`. The lemmas about the listener's whole life use those step functions through
  `Run`, which applies a sequence of `Event`s.

Sockets, callbacks and socket addresses are opaque identifiers (`SockId`,
`CbId`, `SockAddr`). Every mutex-guarded operation is one atomic step. The
results of the system calls are method parameters: `rv`, `errno` and the
bytes received for a transfer, and the sequence of `accept` results for the
listener.

The listener's counter starts at 0. This is an assumption about the
initialiser of `seq_`, which is in `gloo/transport/tcp/listener.h`, and that
file is not part of this model. `EAGAIN` is Linux's value, 11.

## Model

| member | source | states |
|---|---|---|
| Transfer.Outcome | gloo/transport/tcp/helpers.h:58-69 | rv == -1 gives SystemError with the direction's call name ("read" or "write") and errno; 0 <= rv < sizeof(T) (including 0) gives ShortReadError(rv, sizeof(T)); rv == sizeof(T) exactly gives OK; the three cases are exclusive |
| Transfer.OutcomeSameBothWays | gloo/transport/tcp/helpers.h:122-125 | apart from a system error the write path classifies exactly like the read path, so a short write is reported as ShortReadError |
| Transfer.Interest | gloo/transport/tcp/helpers.h:49 | the mask registered at :49 for a read and at :107 for a write is one-shot and holds readability for a read and writability for a write, never both |
| Transfer.ValueOperation.ForRead | gloo/transport/tcp/helpers.h:44-50 | a new read operation is registered for EPOLLIN, EPOLLONESHOT on its socket, armed, holds no self-reference yet and has not called back |
| Transfer.ValueOperation.ForWrite | gloo/transport/tcp/helpers.h:98-108 | a new write operation keeps the value to send, is registered for EPOLLOUT, EPOLLONESHOT, armed, and has not called back |
| Transfer.ValueOperation.Initialize | gloo/transport/tcp/helpers.h:25-30 | the operation now holds a reference to itself |
| Transfer.ValueOperation.HandleEvents | gloo/transport/tcp/helpers.h:51-70 | both handlers, the read one at :51-70 and the write one at :110-129: only callable while armed; drops the self-reference, disarms, a write sends exactly its buffer, and appends exactly one callback invocation carrying the socket, Outcome(rv, sizeof(T)) and, for a read, the buffer (the received bytes unless the call failed); the object invariant keeps the callback count at one for the rest of the operation's life |
| Transfer.Read | gloo/transport/tcp/helpers.h:80-88 | read<T> leaves a fresh operation registered for readability, armed, self-owned and not yet called back |
| Transfer.Write | gloo/transport/tcp/helpers.h:139-148 | write<T> leaves a fresh operation holding the value, registered for writability, armed, self-owned and not yet called back |
| Transfer.ReadOnce | gloo/transport/tcp/helpers.h:54-69 | a read followed by its notification calls back exactly once and leaves no self-reference; a full read passes OK and exactly the received value, a failed one SystemError("read", errno), a short one ShortReadError(rv, sizeof(T)) |
| Transfer.WriteOnce | gloo/transport/tcp/helpers.h:113-128 | a write followed by its notification sends exactly the value given at construction, calls back exactly once, with no value, leaving no self-reference; OK on a full write, SystemError("write", errno) on failure, ShortReadError(rv, sizeof(T)) on a short write |
| TcpListener.Issue | gloo/transport/tcp/listener.cc:79-82 | nextAddress moves the counter on by exactly one and changes neither table nor either delivery log |
| TcpListener.Wait | gloo/transport/tcp/listener.cc:84-102 | after waitForConnection no socket is pending for the number; with a pending socket, that entry alone is removed, the callback table is kept and one deferred (callback, socket, OK) delivery is queued; without one, the callback is parked unless one is already parked (emplace keeps it) and nothing is delivered; all other entries and the direct log are unchanged |
| TcpListener.Have | gloo/transport/tcp/listener.cc:104-121 | after haveConnection no callback is pending for the number; with a pending callback, that entry alone is removed and it is called once directly with the socket and OK; without one, the socket is parked unless one is already parked and nothing is delivered; all other entries and the deferred log are unchanged |
| TcpListener.WaitKeepsDisjoint | gloo/transport/tcp/listener.cc:92-95 | waitForConnection keeps the two tables' key sets disjoint |
| TcpListener.HaveKeepsDisjoint | gloo/transport/tcp/listener.cc:110-113 | haveConnection keeps the two tables' key sets disjoint |
| TcpListener.OrderIndependence | gloo/transport/tcp/listener.cc:84-121 | for a number pending nowhere, wait-then-connect and connect-then-wait both restore both tables exactly and deliver the socket to the callback once with OK, directly in the first order and deferred in the second |
| TcpListener.IssuedIncreasing | gloo/transport/tcp/listener.cc:79-82 | over any interleaving of listener operations, the numbers nextAddress returns are strictly increasing, so pairwise distinct, and lie between the counter's first and final values |
| TcpListener.StepBalance | gloo/transport/tcp/listener.cc:84-121 | one operation keeps the tables disjoint, leaves the pending entries and delivery count of other numbers alone, and for its own number either matches (one more delivery, pending nowhere) or parks in its own table |
| TcpListener.AtMostOnce | gloo/transport/tcp/listener.cc:84-121 | from a fresh listener, under any interleaving, the tables stay disjoint and the deliveries for a number plus its pending entry never exceed either its waitForConnection calls or its handshakes, so a number waited for once is delivered at most once |
| TcpListener.Balance | gloo/transport/tcp/listener.cc:84-121 | when a number is waited for at most once and handshaken at most once, every wait and every handshake for it is either pending or matched, never lost |
| TcpListener.ExactlyOnce | gloo/transport/tcp/listener.cc:84-121 | under the same bounds, in any order, the number is delivered exactly once when both sides acted, and otherwise waits only in the table of the side that acted |
| TcpListener.AllGenuine | gloo/transport/tcp/listener.cc:91-120 | every pending entry and every delivery comes from an actual call; every delivery carries OK and hands a socket handshaken with number k to a callback that waited for k |
| TcpListener.WaitCounted | gloo/transport/tcp/listener.cc:84-87 | a waitForConnection call for k among the events is counted as a wait for k |
| TcpListener.ConnectCounted | gloo/transport/tcp/listener.cc:104-106 | a completed handshake for k among the events is counted as a handshake for k |
| TcpListener.UniqueWait | gloo/transport/tcp/listener.cc:84-87 | when k is waited for at most once, every waitForConnection call for k names the same callback |
| TcpListener.UniqueConnect | gloo/transport/tcp/listener.cc:104-106 | when k is handshaken at most once, every handshake for k names the same socket |
| TcpListener.PairedDelivery | gloo/transport/tcp/listener.cc:91-120 | in any interleaving where k is waited for once with callback f and handshaken once with socket s, k ends pending nowhere, is delivered exactly once, and that delivery hands s to f with OK |
| TcpListener.FirstFailure | gloo/transport/tcp/listener.cc:47-56 | the accept loop stops at the first failing accept, and every accept before it produced a socket |
| TcpListener.Sockets | gloo/transport/tcp/listener.cc:58-75 | when every accept succeeded, one handshake read is started per accepted socket, in accept order |
| TcpListener.Listener.constructor | gloo/transport/tcp/listener.cc:26-36 | a new listener keeps its bound address, has both tables empty, nothing delivered and no handshake started |
| TcpListener.Listener.NextAddress | gloo/transport/tcp/listener.cc:79-82 | returns the bound address with the current counter, and increments the counter by exactly one; nothing else changes |
| TcpListener.Listener.WaitForConnection | gloo/transport/tcp/listener.cc:84-102 | the new tables and deferred log for both branches: the callback is parked (emplace) with the socket table and logs kept, or the pending socket is removed and one deferred delivery queued with the callback table kept; the tables stay disjoint |
| TcpListener.Listener.HaveConnection | gloo/transport/tcp/listener.cc:104-121 | the new tables and direct log for both branches: the socket is parked (emplace) with the callback table and logs kept, or the pending callback is removed and invoked once directly with the socket table kept; the tables stay disjoint |
| TcpListener.Listener.OnHandshake | gloo/transport/tcp/listener.cc:65-75 | a handshake read that reports an error changes neither table nor any log; one that succeeds performs haveConnection with the number read |
| TcpListener.Listener.HandleEvents | gloo/transport/tcp/listener.cc:44-77 | accepts until the first failure, starting one handshake read per accepted socket in order; EAGAIN ends it normally, any other errno is a fatal enforcement failure; the tables are untouched |

## Left out

- Sockets, epoll and errno: `accept`, `read`, `write`, `reuseAddr`, `noDelay`, `bind`, `listen` and `sockName` are foreign calls. Their results are parameters: `rv`, `errno` and the bytes received, the sequence of accept results, and the bound address.
- Threads and the mutex: each locked operation is one atomic step. The lock release before the direct callback in `haveConnection` is a concurrency detail. The model only records that delivery as direct.
- The `timeout` parameter of `waitForConnection` is accepted but never read by the source, so the model does not take it.
- The diagnostic printed on a failed handshake read is not modelled. A `GLOO_ENFORCE` failure (which throws) is modelled as the `Fatal` outcome, with the state left as it was at that point.
- TcpListener.Listener.HandleEvents: the handshake reads it starts are recorded as sockets in `handshakes`, not as `ValueOperation` objects. Their completion is `OnHandshake`, whose error argument is what `Outcome` gives for `sizeof(sequence_number_t)` bytes.
- TcpListener.Listener.OnHandshake: it is not tied to `handshakes`, so the model does not exclude a completion for a socket that was never accepted, or two completions for one socket. That each read completes once is proved of `ValueOperation` alone.
- TcpListener.Listener.HandleEvents: the source's `for (;;)` needs `accept` to fail eventually, which is the case once the kernel's backlog is empty. The model requires an accept result list that contains a failure.
- The `events` argument of both `handleEvents` methods is ignored by the source and is not modelled.
- The loop's registration and unregistration in the listener's constructor and destructor are not modelled, beyond recording the bound address.
- `shared_ptr` reference counting is reduced to the boolean `leak`. Destroying an operation after its callback is not modelled. `Done` with no self-reference stands for it.
- The byte layout of `T` and of `sequence_number_t` is not modelled. `T` is a type parameter and its `sizeof` is `size`. The sequence number is an unbounded `nat`.
- TcpListener.Issue: wrap-around of the counter at the width of `sequence_number_t` is not modelled, because that type is declared outside the modelled files. Uniqueness holds only until the counter wraps.
- Transfer.Outcome: the source compares the signed `rv` with the unsigned `sizeof(t_)`. The model assumes the system call contract `-1 <= rv <= size`, under which that comparison is the mathematical one.
- Delivery records carry the matched sequence number. The source's deferred lambda captures only the callback and the socket. The extra field is bookkeeping that lets the lemmas count deliveries per number.
