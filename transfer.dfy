/** The one-shot value transfer operation of the TCP transport
    (gloo/transport/tcp/helpers.h): an object that registers with the event
    loop for one readiness notification, makes exactly one read or write
    attempt of a fixed-size value when it arrives, reports the outcome to its
    callback, and then lets go of the reference that kept it alive. */
module Transfer {

  /** Abstract identity of a socket; descriptors and kernel state are not modelled. */
  datatype SockId = SockId(fd: nat)

  /** Abstract identity of a completion callback. */
  datatype CbId = CbId(id: nat)

  datatype Option<T> = None | Some(value: T)

  /** Which of the two operation classes an object is. */
  datatype Direction = Reading | Writing

  /** The error value handed to a callback; `OK` is the only value that
      converts to false. */
  datatype Error =
    | OK
    | SystemError(op: string, code: int)
    | ShortReadError(got: nat, expected: nat)

  /** The readiness flags the operations register with. */
  datatype EventFlag = EPOLLIN | EPOLLOUT | EPOLLONESHOT

  /** The system call name a `SystemError` reports for each direction. */
  function OpName(dir: Direction): string
  {
    match dir
    case Reading => "read"
    case Writing => "write"
  }

  /** The event mask each direction registers: readability for a read,
      writability for a write, always one-shot. */
  function Interest(dir: Direction): (mask: set<EventFlag>)
    ensures EPOLLONESHOT in mask
    ensures EPOLLIN in mask <==> dir == Reading
    ensures EPOLLOUT in mask <==> dir == Writing
    ensures |mask| == 2
  {
    match dir
    case Reading => {EPOLLIN, EPOLLONESHOT}
    case Writing => {EPOLLOUT, EPOLLONESHOT}
  }

  /** How `handleEvents` classifies the return value `rv` of its single
      read or write of `size` bytes (sizeof(T)); `errno` is the error code
      the failed call left behind. The system call never returns less than
      -1 nor more than it was asked for. */
  function Outcome(rv: int, size: nat, dir: Direction, errno: int): (e: Error)
    requires -1 <= rv <= size
    ensures e.OK? <==> rv == size
    ensures e.SystemError? <==> rv == -1
    ensures e.SystemError? ==> e.op == OpName(dir) && e.code == errno
    ensures e.ShortReadError? <==> 0 <= rv < size
    ensures e.ShortReadError? ==> e.got == rv && e.expected == size && e.got < e.expected
  {
    if rv == -1 then SystemError(OpName(dir), errno)
    else if rv < size then ShortReadError(rv, size)
    else OK
  }

  /** Outside the system error case the classification does not depend on
      the direction: a short write is reported as a short read too. */
  lemma OutcomeSameBothWays(rv: int, size: nat, errno: int, errno': int)
    requires 0 <= rv <= size
    ensures Outcome(rv, size, Reading, errno) == Outcome(rv, size, Writing, errno')
  {
  }

  /** One invocation of an operation's callback: the socket, the error and,
      for a read, the value that was read into the buffer. */
  datatype Completion<T> = Completion(sock: SockId, fn: CbId, err: Error, value: Option<T>)

  /** Whether the one-shot registration is still armed. */
  datatype OpState = Registered | Done

  /** A read or write operation of one value of type T. `leak` is the
      strong self-reference taken by `initialize`; `calls` records every
      invocation of the callback `fn`; `events` is the mask the constructor
      registered with the loop; `sent` is what the single write attempt
      handed to the socket (always `None` for a read). */
  class ValueOperation<T> {
    const dir: Direction
    const socket: SockId
    const fn: CbId
    const size: nat
    const events: set<EventFlag>
    var t: T
    var leak: bool
    var state: OpState
    var calls: seq<Completion<T>>
    var sent: Option<T>

    /** While armed the callback has not run and nothing was sent; once done
        it has run exactly once, for this socket and this callback, no
        self-reference is left, and a write has sent its buffer. */
    ghost predicate Valid()
      reads this
    {
      && events == Interest(dir)
      && (state == Registered ==> calls == [] && sent == None)
      && (state == Done ==> !leak && |calls| == 1 && calls[0].sock == socket && calls[0].fn == fn)
      && (state == Done ==> sent == if dir == Writing then Some(t) else None)
    }

    /** ReadValueOperation_'s constructor: registers for readability, one-shot.
        `init` is whatever the not yet written buffer holds. */
    constructor ForRead(socket: SockId, fn: CbId, size: nat, init: T)
      ensures Valid()
      ensures dir == Reading && events == {EPOLLIN, EPOLLONESHOT}
      ensures this.socket == socket && this.fn == fn && this.size == size && t == init
      ensures state == Registered && !leak && calls == [] && sent == None
    {
      dir := Reading;
      this.socket := socket;
      this.fn := fn;
      this.size := size;
      events := Interest(Reading);
      t := init;
      leak := false;
      state := Registered;
      calls := [];
      sent := None;
    }

    /** WriteValueOperation_'s constructor: keeps the value to send and
        registers for writability, one-shot. */
    constructor ForWrite(socket: SockId, value: T, fn: CbId, size: nat)
      ensures Valid()
      ensures dir == Writing && events == {EPOLLOUT, EPOLLONESHOT}
      ensures this.socket == socket && this.fn == fn && this.size == size && t == value
      ensures state == Registered && !leak && calls == [] && sent == None
    {
      dir := Writing;
      this.socket := socket;
      this.fn := fn;
      this.size := size;
      events := Interest(Writing);
      t := value;
      leak := false;
      state := Registered;
      calls := [];
      sent := None;
    }

    /** BaseOperation_::initialize: the object takes a reference to itself,
        so it outlives the function that created it. */
    method Initialize()
      requires Valid() && state == Registered
      modifies this`leak
      ensures Valid() && leak
    {
      leak := true;
    }

    /** handleEvents: the loop consumes the one-shot registration and calls
        this once. The self-reference is moved out on entry; one read or
        write attempt returns `rv` (a read leaves `received` in the buffer
        unless it failed; a write hands the buffer to the socket); the
        callback runs exactly once with the classified outcome. `received`
        is not used by a write. */
    method HandleEvents(rv: int, errno: int, received: T)
      requires Valid() && state == Registered
      requires -1 <= rv <= size
      modifies this
      ensures Valid() && state == Done && !leak
      ensures t == if dir == Reading && rv != -1 then received else old(t)
      ensures sent == if dir == Writing then Some(old(t)) else None
      ensures calls == [Completion(socket, fn, Outcome(rv, size, dir, errno),
                                   if dir == Reading then Some(t) else None)]
    {
      state := Done;
      leak := false;
      if dir == Reading && rv != -1 {
        t := received;
      }
      if dir == Writing {
        sent := Some(t);
      }
      var passed: Option<T> := if dir == Reading then Some(t) else None;
      if rv == -1 {
        calls := calls + [Completion(socket, fn, SystemError(OpName(dir), errno), passed)];
        return;
      }
      if rv < size {
        calls := calls + [Completion(socket, fn, ShortReadError(rv, size), passed)];
        return;
      }
      calls := calls + [Completion(socket, fn, OK, passed)];
    }
  }

  /** The free function read<T>: creates the operation, which registers
      itself, and makes it own itself. The returned reference stands for
      the loop's registration of the handler; the source returns nothing. */
  method Read<T>(socket: SockId, fn: CbId, size: nat, init: T) returns (op: ValueOperation<T>)
    ensures fresh(op) && op.Valid()
    ensures op.dir == Reading && op.events == {EPOLLIN, EPOLLONESHOT}
    ensures op.socket == socket && op.fn == fn && op.size == size && op.t == init
    ensures op.state == Registered && op.leak && op.calls == [] && op.sent == None
  {
    op := new ValueOperation.ForRead(socket, fn, size, init);
    op.Initialize();
  }

  /** The free function write<T>: as `Read`, for sending `value`. */
  method Write<T>(socket: SockId, value: T, fn: CbId, size: nat) returns (op: ValueOperation<T>)
    ensures fresh(op) && op.Valid()
    ensures op.dir == Writing && op.events == {EPOLLOUT, EPOLLONESHOT}
    ensures op.socket == socket && op.fn == fn && op.size == size && op.t == value
    ensures op.state == Registered && op.leak && op.calls == [] && op.sent == None
  {
    op := new ValueOperation.ForWrite(socket, value, fn, size);
    op.Initialize();
  }

  /** A complete read: after `Read` and the single notification the callback
      has run once, and on a full transfer it got OK and exactly the value
      that arrived; nothing is sent. */
  method ReadOnce<T>(socket: SockId, fn: CbId, size: nat, init: T, rv: int, errno: int, wire: T)
      returns (op: ValueOperation<T>)
    requires -1 <= rv <= size
    ensures fresh(op) && op.Valid() && op.state == Done && !op.leak
    ensures |op.calls| == 1 && op.calls[0].sock == socket && op.calls[0].fn == fn
    ensures op.sent == None
    ensures rv == size ==> op.calls[0].err == OK && op.calls[0].value == Some(wire)
    ensures rv == -1 ==> op.calls[0].err == SystemError("read", errno) && op.calls[0].value == Some(init)
    ensures 0 <= rv < size ==> op.calls[0].err == ShortReadError(rv, size)
  {
    op := Read(socket, fn, size, init);
    op.HandleEvents(rv, errno, wire);
  }

  /** A complete write: the callback has run once, and the single write
      attempt sent exactly the value fixed at construction. */
  method WriteOnce<T>(socket: SockId, value: T, fn: CbId, size: nat, rv: int, errno: int)
      returns (op: ValueOperation<T>)
    requires -1 <= rv <= size
    ensures fresh(op) && op.Valid() && op.state == Done && !op.leak && op.t == value
    ensures |op.calls| == 1 && op.calls[0].sock == socket && op.calls[0].fn == fn
    ensures op.sent == Some(value) && op.calls[0].value == None
    ensures rv == size ==> op.calls[0].err == OK
    ensures rv == -1 ==> op.calls[0].err == SystemError("write", errno)
    ensures 0 <= rv < size ==> op.calls[0].err == ShortReadError(rv, size)
  {
    op := Write(socket, value, fn, size);
    op.HandleEvents(rv, errno, value);
  }
}
