/** The rendezvous listener of the TCP transport
    (gloo/transport/tcp/listener.cc). It hands out sequence numbers, drains
    the listening socket, reads one sequence number from every accepted
    connection, and matches each handshaken socket with the local callback
    waiting for the same number, whichever of the two arrives first. Each
    mutex-guarded operation is one atomic step of the model. */
module TcpListener {
  import opened Transfer

  /** Linux's value of EAGAIN (== EWOULDBLOCK), the only accept failure the
      listener survives. */
  const EAGAIN: int := 11

  /** Abstract bound address of the listening socket. */
  datatype SockAddr = SockAddr(id: nat)

  /** The address a peer connects to: the listener's address and a sequence number. */
  datatype Address = Address(sockaddr: SockAddr, seqNo: nat)

  /** A handing over of a matched socket to a waiting callback. `seqNo` tags
      the record with the sequence number it matched. */
  datatype Delivery = Delivery(seqNo: nat, fn: CbId, sock: SockId, err: Error)

  /** The listener's rendezvous state: the counter `seq_`, the pending socket
      table `seqToSocket_`, the pending callback table `seqToCallback_`, the
      deliveries queued with `loop_->defer` and those made by calling the
      callback directly. */
  datatype Rendezvous = Rendezvous(
    next: nat,
    socks: map<nat, SockId>,
    cbs: map<nat, CbId>,
    deferred: seq<Delivery>,
    delivered: seq<Delivery>)

  /** No sequence number waits in both tables at once. */
  predicate Disjoint(r: Rendezvous)
  {
    r.socks.Keys !! r.cbs.Keys
  }

  /** A fresh listener: counter at zero, both tables empty, nothing delivered. */
  function Init(): (r: Rendezvous)
    ensures Disjoint(r) && r.next == 0
    ensures r.socks == map[] && r.cbs == map[] && r.deferred == [] && r.delivered == []
  {
    Rendezvous(0, map[], map[], [], [])
  }

  /** nextAddress: the counter moves on by one and nothing else changes. */
  function Issue(r: Rendezvous): (r': Rendezvous)
    ensures r'.next == r.next + 1
    ensures r'.socks == r.socks && r'.cbs == r.cbs
    ensures r'.deferred == r.deferred && r'.delivered == r.delivered
  {
    r.(next := r.next + 1)
  }

  /** waitForConnection for number `k` with callback `fn`: take a pending
      socket and queue its deferred delivery, or else park the callback
      (keeping a callback already parked under `k`). */
  function Wait(r: Rendezvous, k: nat, fn: CbId): (r': Rendezvous)
    ensures k !in r'.socks && r'.socks == r.socks - {k}
    ensures k in r.socks ==>
              && r'.cbs == r.cbs
              && r'.deferred == r.deferred + [Delivery(k, fn, r.socks[k], OK)]
    ensures k !in r.socks ==>
              && k in r'.cbs && r'.cbs[k] == (if k in r.cbs then r.cbs[k] else fn)
              && r'.deferred == r.deferred
    ensures forall j :: j != k ==> (j in r'.cbs <==> j in r.cbs)
    ensures forall j :: j in r.cbs && j != k ==> j in r'.cbs && r'.cbs[j] == r.cbs[j]
    ensures r'.next == r.next && r'.delivered == r.delivered
  {
    if k !in r.socks then
      r.(cbs := if k in r.cbs then r.cbs else r.cbs[k := fn])
    else
      r.(socks := r.socks - {k},
         deferred := r.deferred + [Delivery(k, fn, r.socks[k], OK)])
  }

  /** haveConnection for number `k` with socket `s`: take a pending callback
      and call it directly, or else park the socket (keeping a socket
      already parked under `k`). */
  function Have(r: Rendezvous, k: nat, s: SockId): (r': Rendezvous)
    ensures k !in r'.cbs && r'.cbs == r.cbs - {k}
    ensures k in r.cbs ==>
              && r'.socks == r.socks
              && r'.delivered == r.delivered + [Delivery(k, r.cbs[k], s, OK)]
    ensures k !in r.cbs ==>
              && k in r'.socks && r'.socks[k] == (if k in r.socks then r.socks[k] else s)
              && r'.delivered == r.delivered
    ensures forall j :: j != k ==> (j in r'.socks <==> j in r.socks)
    ensures forall j :: j in r.socks && j != k ==> j in r'.socks && r'.socks[j] == r.socks[j]
    ensures r'.next == r.next && r'.deferred == r.deferred
  {
    if k !in r.cbs then
      r.(socks := if k in r.socks then r.socks else r.socks[k := s])
    else
      r.(cbs := r.cbs - {k},
         delivered := r.delivered + [Delivery(k, r.cbs[k], s, OK)])
  }

  lemma WaitKeepsDisjoint(r: Rendezvous, k: nat, fn: CbId)
    requires Disjoint(r)
    ensures Disjoint(Wait(r, k, fn))
  {
  }

  lemma HaveKeepsDisjoint(r: Rendezvous, k: nat, s: SockId)
    requires Disjoint(r)
    ensures Disjoint(Have(r, k, s))
  {
  }

  /** Order independence: for a number pending in neither table, waiting
      then connecting and connecting then waiting both leave it pending
      nowhere, leave every other entry alone and hand `s` to `fn` exactly
      once; only the route differs (direct call or deferred). */
  lemma OrderIndependence(r: Rendezvous, k: nat, fn: CbId, s: SockId)
    requires Disjoint(r) && k !in r.socks && k !in r.cbs
    ensures var waitFirst := Have(Wait(r, k, fn), k, s);
      && waitFirst.socks == r.socks && waitFirst.cbs == r.cbs
      && waitFirst.deferred == r.deferred
      && waitFirst.delivered == r.delivered + [Delivery(k, fn, s, OK)]
    ensures var connectFirst := Wait(Have(r, k, s), k, fn);
      && connectFirst.socks == r.socks && connectFirst.cbs == r.cbs
      && connectFirst.delivered == r.delivered
      && connectFirst.deferred == r.deferred + [Delivery(k, fn, s, OK)]
  {
  }

  /** The things that happen to a listener: a `nextAddress` call, a
      `waitForConnection` call, and a completed handshake (`haveConnection`). */
  datatype Event = NextAddress | WaitFor(seqNo: nat, fn: CbId) | Connected(seqNo: nat, sock: SockId)

  function Apply(r: Rendezvous, e: Event): Rendezvous
  {
    match e
    case NextAddress => Issue(r)
    case WaitFor(k, fn) => Wait(r, k, fn)
    case Connected(k, s) => Have(r, k, s)
  }

  /** The state after the events `es`, one after another from `r`. */
  function Run(r: Rendezvous, es: seq<Event>): Rendezvous
    decreases |es|
  {
    if es == [] then r else Apply(Run(r, es[..|es| - 1]), es[|es| - 1])
  }

  /** The sequence numbers the `NextAddress` events of `es` return. */
  function Issued(r: Rendezvous, es: seq<Event>): seq<nat>
    decreases |es|
  {
    if es == [] then []
    else
      var pre := es[..|es| - 1];
      Issued(r, pre) + (if es[|es| - 1].NextAddress? then [Run(r, pre).next] else [])
  }

  /** Successive `nextAddress` calls return strictly increasing numbers, so
      never the same one twice, all below the counter's final value. */
  lemma {:induction false} IssuedIncreasing(r: Rendezvous, es: seq<Event>)
    ensures r.next <= Run(r, es).next
    ensures forall i :: 0 <= i < |Issued(r, es)| ==> r.next <= Issued(r, es)[i] < Run(r, es).next
    ensures forall i, j :: 0 <= i < j < |Issued(r, es)| ==> Issued(r, es)[i] < Issued(r, es)[j]
    decreases |es|
  {
    if es != [] {
      var pre := es[..|es| - 1];
      IssuedIncreasing(r, pre);
    }
  }

  /** Number of `waitForConnection` calls for `k` in `es`. */
  function Waits(es: seq<Event>, k: nat): nat
    decreases |es|
  {
    if es == [] then 0
    else Waits(es[..|es| - 1], k) + (if es[|es| - 1].WaitFor? && es[|es| - 1].seqNo == k then 1 else 0)
  }

  /** Number of completed handshakes for `k` in `es`. */
  function Connects(es: seq<Event>, k: nat): nat
    decreases |es|
  {
    if es == [] then 0
    else Connects(es[..|es| - 1], k) + (if es[|es| - 1].Connected? && es[|es| - 1].seqNo == k then 1 else 0)
  }

  /** Number of deliveries in `ds` that matched `k`. */
  function DeliveriesFor(ds: seq<Delivery>, k: nat): nat
    decreases |ds|
  {
    if ds == [] then 0
    else DeliveriesFor(ds[..|ds| - 1], k) + (if ds[|ds| - 1].seqNo == k then 1 else 0)
  }

  /** Number of deliveries, deferred or direct, that matched `k`. */
  function Matched(r: Rendezvous, k: nat): nat
  {
    DeliveriesFor(r.deferred, k) + DeliveriesFor(r.delivered, k)
  }

  lemma DeliveriesForAppend(ds: seq<Delivery>, d: Delivery, k: nat)
    ensures DeliveriesFor(ds + [d], k) == DeliveriesFor(ds, k) + (if d.seqNo == k then 1 else 0)
  {
    assert (ds + [d])[..|ds|] == ds;
  }

  function Count(b: bool): nat { if b then 1 else 0 }

  /** Safety for any interleaving from a fresh listener: the tables stay
      disjoint, and each delivery for `k` used up a `waitForConnection`
      call and a handshake of its own for `k`. So a number waited for once
      is delivered at most once. */
  lemma {:induction false} AtMostOnce(es: seq<Event>, k: nat)
    ensures var r := Run(Init(), es);
      && Disjoint(r)
      && Matched(r, k) + Count(k in r.socks) <= Connects(es, k)
      && Matched(r, k) + Count(k in r.cbs) <= Waits(es, k)
    decreases |es|
  {
    if es != [] {
      var pre, e := es[..|es| - 1], es[|es| - 1];
      AtMostOnce(pre, k);
      StepBalance(Run(Init(), pre), e, k);
    }
  }

  /** What one event does to the counts for `k`. */
  lemma StepBalance(r: Rendezvous, e: Event, k: nat)
    requires Disjoint(r)
    ensures var r' := Apply(r, e);
      var isK := !e.NextAddress? && e.seqNo == k;
      && Disjoint(r')
      && (!isK ==> Count(k in r'.socks) == Count(k in r.socks) && Count(k in r'.cbs) == Count(k in r.cbs)
                   && Matched(r', k) == Matched(r, k))
      && (isK && e.WaitFor? && k in r.socks ==>
            Matched(r', k) == Matched(r, k) + 1 && k !in r'.socks && k !in r'.cbs)
      && (isK && e.WaitFor? && k !in r.socks ==>
            Matched(r', k) == Matched(r, k) && k !in r'.socks && k in r'.cbs)
      && (isK && e.Connected? && k in r.cbs ==>
            Matched(r', k) == Matched(r, k) + 1 && k !in r'.socks && k !in r'.cbs)
      && (isK && e.Connected? && k !in r.cbs ==>
            Matched(r', k) == Matched(r, k) && k in r'.socks && k !in r'.cbs)
  {
    match e
    case NextAddress =>
    case WaitFor(j, fn) =>
      WaitKeepsDisjoint(r, j, fn);
      if j in r.socks {
        DeliveriesForAppend(r.deferred, Delivery(j, fn, r.socks[j], OK), k);
      }
    case Connected(j, s) =>
      HaveKeepsDisjoint(r, j, s);
      if j in r.cbs {
        DeliveriesForAppend(r.delivered, Delivery(j, r.cbs[j], s, OK), k);
      }
  }

  /** Exactly-once rendezvous, in whichever order the two sides act: when
      `k` is waited for at most once and handshaken at most once, it ends up
      delivered exactly once if both happened, and otherwise waits in the
      table of the side that did act. */
  lemma {:induction false} ExactlyOnce(es: seq<Event>, k: nat)
    requires Waits(es, k) <= 1 && Connects(es, k) <= 1
    ensures var r := Run(Init(), es);
      && Disjoint(r)
      && (k in r.cbs <==> Waits(es, k) == 1 && Connects(es, k) == 0)
      && (k in r.socks <==> Connects(es, k) == 1 && Waits(es, k) == 0)
      && Matched(r, k) == (if Waits(es, k) == 1 && Connects(es, k) == 1 then 1 else 0)
  {
    Balance(es, k);
  }

  /** Under the same bounds no handshake or wait for `k` is ever dropped:
      each is either pending or matched. */
  lemma {:induction false} Balance(es: seq<Event>, k: nat)
    requires Waits(es, k) <= 1 && Connects(es, k) <= 1
    ensures var r := Run(Init(), es);
      && Disjoint(r)
      && Matched(r, k) + Count(k in r.socks) == Connects(es, k)
      && Matched(r, k) + Count(k in r.cbs) == Waits(es, k)
    decreases |es|
  {
    if es != [] {
      var pre, e := es[..|es| - 1], es[|es| - 1];
      Balance(pre, k);
      StepBalance(Run(Init(), pre), e, k);
    }
  }

  /** Every entry and every delivery comes from the events, and matches a
      socket only with the callback waiting for that socket's own number. */
  ghost predicate Genuine(r: Rendezvous, es: seq<Event>)
  {
    && (forall j :: j in r.socks ==> Connected(j, r.socks[j]) in es)
    && (forall j :: j in r.cbs ==> WaitFor(j, r.cbs[j]) in es)
    && (forall d :: d in r.deferred ==> d.err == OK && WaitFor(d.seqNo, d.fn) in es && Connected(d.seqNo, d.sock) in es)
    && (forall d :: d in r.delivered ==> d.err == OK && WaitFor(d.seqNo, d.fn) in es && Connected(d.seqNo, d.sock) in es)
  }

  lemma {:induction false} AllGenuine(es: seq<Event>)
    ensures Genuine(Run(Init(), es), es)
    decreases |es|
  {
    if es != [] {
      var pre, e := es[..|es| - 1], es[|es| - 1];
      AllGenuine(pre);
      assert forall x :: x in pre ==> x in es;
      assert e in es;
    }
  }

  /** A `waitForConnection` call for `k` in `es` is counted by `Waits`. */
  lemma {:induction false} WaitCounted(es: seq<Event>, k: nat, f: CbId)
    requires WaitFor(k, f) in es
    ensures Waits(es, k) >= 1
    decreases |es|
  {
    var pre := es[..|es| - 1];
    if es[|es| - 1] != WaitFor(k, f) {
      assert WaitFor(k, f) in pre by {
        var i :| 0 <= i < |es| && es[i] == WaitFor(k, f);
        assert pre[i] == es[i];
      }
      WaitCounted(pre, k, f);
    }
  }

  /** A handshake for `k` in `es` is counted by `Connects`. */
  lemma {:induction false} ConnectCounted(es: seq<Event>, k: nat, s: SockId)
    requires Connected(k, s) in es
    ensures Connects(es, k) >= 1
    decreases |es|
  {
    var pre := es[..|es| - 1];
    if es[|es| - 1] != Connected(k, s) {
      assert Connected(k, s) in pre by {
        var i :| 0 <= i < |es| && es[i] == Connected(k, s);
        assert pre[i] == es[i];
      }
      ConnectCounted(pre, k, s);
    }
  }

  /** When `k` is waited for at most once, all its waits name one callback. */
  lemma {:induction false} UniqueWait(es: seq<Event>, k: nat, f: CbId, f': CbId)
    requires Waits(es, k) <= 1 && WaitFor(k, f) in es && WaitFor(k, f') in es
    ensures f == f'
    decreases |es|
  {
    var pre, e := es[..|es| - 1], es[|es| - 1];
    assert es == pre + [e];
    if e == WaitFor(k, f) || e == WaitFor(k, f') {
      assert Waits(pre, k) == 0;
      if WaitFor(k, f) in pre { WaitCounted(pre, k, f); }
      if WaitFor(k, f') in pre { WaitCounted(pre, k, f'); }
    } else {
      UniqueWait(pre, k, f, f');
    }
  }

  /** When `k` is handshaken at most once, all its handshakes name one socket. */
  lemma {:induction false} UniqueConnect(es: seq<Event>, k: nat, s: SockId, s': SockId)
    requires Connects(es, k) <= 1 && Connected(k, s) in es && Connected(k, s') in es
    ensures s == s'
    decreases |es|
  {
    var pre, e := es[..|es| - 1], es[|es| - 1];
    assert es == pre + [e];
    if e == Connected(k, s) || e == Connected(k, s') {
      assert Connects(pre, k) == 0;
      if Connected(k, s) in pre { ConnectCounted(pre, k, s); }
      if Connected(k, s') in pre { ConnectCounted(pre, k, s'); }
    } else {
      UniqueConnect(pre, k, s, s');
    }
  }

  /** The rendezvous pairs the right halves: in any interleaving where `k`
      is waited for once with `f` and handshaken once with `s`, there is
      exactly one delivery for `k`, and every delivery for `k` hands `s` to
      `f` with OK. */
  lemma PairedDelivery(es: seq<Event>, k: nat, f: CbId, s: SockId)
    requires Waits(es, k) <= 1 && Connects(es, k) <= 1
    requires WaitFor(k, f) in es && Connected(k, s) in es
    ensures var r := Run(Init(), es);
      && Matched(r, k) == 1 && k !in r.socks && k !in r.cbs
      && (forall d :: d in r.deferred && d.seqNo == k ==> d == Delivery(k, f, s, OK))
      && (forall d :: d in r.delivered && d.seqNo == k ==> d == Delivery(k, f, s, OK))
  {
    WaitCounted(es, k, f);
    ConnectCounted(es, k, s);
    ExactlyOnce(es, k);
    AllGenuine(es);
    var r := Run(Init(), es);
    forall d | d in r.deferred + r.delivered && d.seqNo == k
      ensures d == Delivery(k, f, s, OK)
    {
      assert d in r.deferred || d in r.delivered;
      UniqueWait(es, k, f, d.fn);
      UniqueConnect(es, k, s, d.sock);
    }
  }

  /** The result of one `accept` call: a new socket, or a failure with its errno. */
  datatype AcceptResult = Accepted(sock: SockId) | AcceptFailed(errno: int)

  /** How `handleEvents` leaves the accept loop: drained (EAGAIN), or an
      enforcement failure for any other errno. */
  datatype Drain = Drained | Fatal(errno: int)

  /** Index of the first failing accept. */
  function FirstFailure(acc: seq<AcceptResult>): (i: nat)
    requires exists j :: 0 <= j < |acc| && acc[j].AcceptFailed?
    ensures i < |acc| && acc[i].AcceptFailed?
    ensures forall j :: 0 <= j < i ==> acc[j].Accepted?
    decreases |acc|
  {
    if acc[0].AcceptFailed? then 0
    else
      assert exists j :: 0 <= j < |acc[1..]| && acc[1..][j].AcceptFailed? by {
        var j :| 0 <= j < |acc| && acc[j].AcceptFailed?;
        assert acc[1..][j - 1] == acc[j];
      }
      1 + FirstFailure(acc[1..])
  }

  /** The sockets among the accept results, in order. */
  function Sockets(acc: seq<AcceptResult>): (socks: seq<SockId>)
    ensures |socks| <= |acc|
    ensures (forall j :: 0 <= j < |acc| ==> acc[j].Accepted?) ==>
              |socks| == |acc| && forall j :: 0 <= j < |acc| ==> socks[j] == acc[j].sock
    decreases |acc|
  {
    if acc == [] then []
    else
      var n := |acc| - 1;
      Sockets(acc[..n]) + (match acc[n] case Accepted(s) => [s] case AcceptFailed(_) => [])
  }

  /** A listener. `handshakes` records each socket for which `handleEvents`
      started a read<sequence_number_t> operation. */
  class Listener {
    const addr: SockAddr
    var nextSeq: nat
    var socks: map<nat, SockId>
    var cbs: map<nat, CbId>
    var deferred: seq<Delivery>
    var delivered: seq<Delivery>
    var handshakes: seq<SockId>

    function State(): Rendezvous
      reads this
    {
      Rendezvous(nextSeq, socks, cbs, deferred, delivered)
    }

    ghost predicate Valid()
      reads this
    {
      Disjoint(State())
    }

    /** A listener bound to `bound`, the address its socket reports. */
    constructor (bound: SockAddr)
      ensures Valid() && addr == bound && State() == Init() && handshakes == []
    {
      addr := bound;
      nextSeq := 0;
      socks := map[];
      cbs := map[];
      deferred := [];
      delivered := [];
      handshakes := [];
    }

    /** Returns the listener's address with the current counter, and
        increments the counter. */
    method NextAddress() returns (a: Address)
      requires Valid()
      modifies this`nextSeq
      ensures Valid()
      ensures a == Address(addr, old(nextSeq)) && nextSeq == old(nextSeq) + 1
      ensures State() == Issue(old(State()))
    {
      a := Address(addr, nextSeq);
      nextSeq := nextSeq + 1;
    }

    /** Claims the socket for `a`'s number if it has arrived, deferring the
        call of `fn`; otherwise parks `fn`. */
    method WaitForConnection(a: Address, fn: CbId)
      requires Valid()
      modifies this`socks, this`cbs, this`deferred
      ensures Valid()
      ensures a.seqNo !in old(socks) ==>
                && socks == old(socks)
                && cbs == (if a.seqNo in old(cbs) then old(cbs) else old(cbs)[a.seqNo := fn])
                && deferred == old(deferred)
      ensures a.seqNo in old(socks) ==>
                && socks == old(socks) - {a.seqNo}
                && cbs == old(cbs)
                && deferred == old(deferred) + [Delivery(a.seqNo, fn, old(socks)[a.seqNo], OK)]
      ensures State() == Wait(old(State()), a.seqNo, fn)
    {
      var k := a.seqNo;
      if k !in socks {
        if k !in cbs {
          cbs := cbs[k := fn];
        }
        return;
      }
      var socket := socks[k];
      socks := socks - {k};
      deferred := deferred + [Delivery(k, fn, socket, OK)];
    }

    /** Hands `socket` to the callback parked for `k`, calling it directly;
        otherwise parks the socket. */
    method HaveConnection(socket: SockId, k: nat)
      requires Valid()
      modifies this`socks, this`cbs, this`delivered
      ensures Valid()
      ensures k !in old(cbs) ==>
                && cbs == old(cbs)
                && socks == (if k in old(socks) then old(socks) else old(socks)[k := socket])
                && delivered == old(delivered)
      ensures k in old(cbs) ==>
                && cbs == old(cbs) - {k}
                && socks == old(socks)
                && delivered == old(delivered) + [Delivery(k, old(cbs)[k], socket, OK)]
      ensures State() == Have(old(State()), k, socket)
    {
      if k !in cbs {
        if k !in socks {
          socks := socks[k := socket];
        }
        return;
      }
      var fn := cbs[k];
      cbs := cbs - {k};
      delivered := delivered + [Delivery(k, fn, socket, OK)];
    }

    /** The completion callback of the handshake read: an error drops the
        connection and changes nothing; otherwise the socket is handed to
        `HaveConnection` with the number read. */
    method OnHandshake(socket: SockId, err: Error, seqNo: nat)
      requires Valid()
      modifies this`socks, this`cbs, this`delivered
      ensures Valid()
      ensures err != OK ==> socks == old(socks) && cbs == old(cbs) && delivered == old(delivered)
      ensures err == OK ==> State() == Have(old(State()), seqNo, socket)
    {
      if err != OK {
        return;
      }
      HaveConnection(socket, seqNo);
    }

    /** Readability of the listening socket: accept until `accept` fails,
        starting one handshake read per accepted socket. EAGAIN ends the
        loop normally; any other errno is an enforcement failure. The tables
        are not touched here. */
    method HandleEvents(accepts: seq<AcceptResult>) returns (outcome: Drain)
      requires Valid()
      requires exists j :: 0 <= j < |accepts| && accepts[j].AcceptFailed?
      modifies this`handshakes
      ensures Valid()
      ensures var i := FirstFailure(accepts);
        && handshakes == old(handshakes) + Sockets(accepts[..i])
        && |handshakes| == |old(handshakes)| + i
        && outcome == (if accepts[i].errno == EAGAIN then Drained else Fatal(accepts[i].errno))
    {
      var i := 0;
      while true
        invariant 0 <= i <= FirstFailure(accepts)
        invariant handshakes == old(handshakes) + Sockets(accepts[..i])
        decreases FirstFailure(accepts) - i
      {
        match accepts[i]
        case AcceptFailed(errno) =>
          outcome := if errno == EAGAIN then Drained else Fatal(errno);
          return;
        case Accepted(sock) =>
          assert accepts[..i + 1][..i] == accepts[..i];
          handshakes := handshakes + [sock];
          i := i + 1;
      }
    }
  }
}
