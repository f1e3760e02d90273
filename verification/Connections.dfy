/** Read buffers and the connection gauge over a whole history of accepts, drains and closes. */
module Connections {
  import opened Framing
  import opened StoreModel

  /**
   * What happens on the sockets.  Drained is a read loop that ended because nothing more had
   * arrived; Closed is one that ended in end-of-file or an error, which discards what it just read.
   */
  datatype NetEvent = Accepted(fd: int) | Drained(fd: int, bytes: string) | Closed(fd: int)

  datatype Net = Net(buffers: map<int, string>, gauge: nat)

  const NO_CLIENTS := Net(map[], 0)

  /** The server's reaction: its new buffers and gauge, and the command lines it dispatches. */
  function React(net: Net, e: NetEvent): (Net, seq<string>) {
    match e
    case Accepted(fd) => (Net(net.buffers[fd := ""], net.gauge + 1), [])
    case Drained(fd, bytes) =>
      if bytes == "" then (net, [])
      else
        var stream := (if fd in net.buffers then net.buffers[fd] else "") + bytes;
        (net.(buffers := net.buffers[fd := Residual(stream)]), Commands(stream))
    case Closed(fd) => (Net(net.buffers - {fd}, Decrement(net.gauge)), [])
  }

  function NetAfter(history: seq<NetEvent>): Net {
    if history == [] then NO_CLIENTS
    else React(NetAfter(history[..|history| - 1]), history[|history| - 1]).0
  }

  /** The kernel hands out only descriptors that are not open, and reports only open ones. */
  ghost predicate Feasible(history: seq<NetEvent>) {
    history != [] ==>
      var n := |history| - 1;
      && Feasible(history[..n])
      && (history[n].fd in OpenFds(history[..n]) <==> !history[n].Accepted?)
  }

  function OpenFds(history: seq<NetEvent>): set<int> {
    if history == [] then {}
    else
      var before, e := OpenFds(history[..|history| - 1]), history[|history| - 1];
      match e
      case Accepted(fd) => before + {fd}
      case Drained(_, _) => before
      case Closed(fd) => before - {fd}
  }

  /** The bytes the present client of fd has sent, as far as drained. */
  function Sent(history: seq<NetEvent>, fd: int): string {
    if history == [] then ""
    else
      var before, e := Sent(history[..|history| - 1], fd), history[|history| - 1];
      if e.fd != fd then before
      else match e
        case Accepted(_) => ""
        case Drained(_, bytes) => before + bytes
        case Closed(_) => ""
  }

  /** The command lines dispatched for the present client of fd. */
  function Dispatched(history: seq<NetEvent>, fd: int): seq<string> {
    if history == [] then []
    else
      var n := |history| - 1;
      if history[n].fd != fd then Dispatched(history[..n], fd)
      else match history[n]
        case Drained(_, _) => Dispatched(history[..n], fd) + React(NetAfter(history[..n]), history[n]).1
        case _ => []
  }

  lemma CommandsOfNothingNew(s: string)
    ensures Commands(Residual(s)) == [] && Residual(Residual(s)) == Residual(s)
  {
    SplitReassembles(s);
  }

  /**
   * Client isolation: whatever other clients do, the lines dispatched for a connection and the
   * bytes kept for it depend only on the bytes that connection has sent since it was accepted.
   */
  lemma {:induction false} ClientIsolation(history: seq<NetEvent>, fd: int)
    requires Feasible(history) && fd in OpenFds(history)
    ensures fd in NetAfter(history).buffers
    ensures NetAfter(history).buffers[fd] == Residual(Sent(history, fd))
    ensures Dispatched(history, fd) == Commands(Sent(history, fd))
  {
    var n := |history| - 1;
    var before, e := history[..n], history[n];
    if !(e.Accepted? && e.fd == fd) {
      ClientIsolation(before, fd);
      if e.Drained? && e.fd == fd {
        SplitConcat(Sent(before, fd), e.bytes);
        CommandsOfNothingNew(Sent(before, fd));
        assert Residual(Sent(before, fd)) + "" == Residual(Sent(before, fd));
      }
    }
  }

  /** So two histories in which a client sent the same bytes dispatch the same lines for it. */
  lemma SameBytesSameLines(h1: seq<NetEvent>, fd1: int, h2: seq<NetEvent>, fd2: int)
    requires Feasible(h1) && Feasible(h2) && fd1 in OpenFds(h1) && fd2 in OpenFds(h2)
    requires Sent(h1, fd1) == Sent(h2, fd2)
    ensures Dispatched(h1, fd1) == Dispatched(h2, fd2)
  {
    ClientIsolation(h1, fd1);
    ClientIsolation(h2, fd2);
  }

  /**
   * The gauge is the number of open clients, which is the number of read buffers; so at every
   * close the guarded decrement finds a positive gauge.
   */
  lemma {:induction false} GaugeCountsClients(history: seq<NetEvent>)
    requires Feasible(history)
    ensures NetAfter(history).gauge == |OpenFds(history)| && NetAfter(history).buffers.Keys == OpenFds(history)
    ensures |NetAfter(history).buffers| == |OpenFds(history)|
  {
    if history != [] {
      var n := |history| - 1;
      var open, e := OpenFds(history[..n]), history[n];
      GaugeCountsClients(history[..n]);
      match e
      case Accepted(fd) => assert |open + {fd}| == |open| + 1;
      case Drained(_, _) =>
      case Closed(fd) => assert |open - {fd}| == |open| - 1;
    }
    assert |NetAfter(history).buffers| == |NetAfter(history).buffers.Keys|;
  }

  lemma CloseFindsPositiveGauge(history: seq<NetEvent>, fd: int)
    requires Feasible(history + [Closed(fd)])
    ensures NetAfter(history).gauge > 0 && NetAfter(history + [Closed(fd)]).gauge == NetAfter(history).gauge - 1
  {
    assert (history + [Closed(fd)])[..|history|] == history;
    GaugeCountsClients(history);
  }

  /** What can happen next: a descriptor that is not open is accepted, an open one is drained or closed. */
  lemma WhatCanFollow(history: seq<NetEvent>, fd: int, bytes: string)
    requires Feasible(history)
    ensures fd !in OpenFds(history) ==> Feasible(history + [Accepted(fd)]) && fd in OpenFds(history + [Accepted(fd)])
    ensures fd in OpenFds(history) ==>
      && Feasible(history + [Drained(fd, bytes)]) && fd in OpenFds(history + [Drained(fd, bytes)])
      && Feasible(history + [Closed(fd)]) && fd !in OpenFds(history + [Closed(fd)])
    ensures Sent(history + [Accepted(fd)], fd) == "" && Sent(history + [Drained(fd, bytes)], fd) == Sent(history, fd) + bytes
  {
    assert (history + [Accepted(fd)])[..|history|] == history;
    assert (history + [Drained(fd, bytes)])[..|history|] == history;
    assert (history + [Closed(fd)])[..|history|] == history;
  }

  /** A line begun by one client and finished by the next one on the same descriptor is not put together. */
  lemma ReusedDescriptor() returns (history: seq<NetEvent>)
    ensures history == [Accepted(7)] + [Drained(7, "GET ")] + [Closed(7)] + [Accepted(7)] + [Drained(7, "k\n")]
    ensures Feasible(history) && 7 in OpenFds(history) && Dispatched(history, 7) == ["k"]
  {
    history := [];
    WhatCanFollow(history, 7, "");
    history := [Accepted(7)];
    assert [] + [Accepted(7)] == history;
    WhatCanFollow(history, 7, "GET ");
    history := history + [Drained(7, "GET ")];
    WhatCanFollow(history, 7, "");
    history := history + [Closed(7)];
    WhatCanFollow(history, 7, "");
    history := history + [Accepted(7)];
    WhatCanFollow(history, 7, "k\n");
    history := history + [Drained(7, "k\n")];
    ClientIsolation(history, 7);
    FirstOfStream("k", "");
    assert "" + "k\n" == "k" + "\n" + "" && "k"[0] == 'k';
    assert ["k"] + [] == ["k"];
  }
}
