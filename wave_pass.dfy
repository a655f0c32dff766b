/** One readiness pass of the wave-viewer client, as a specification over values: the peers it
    knows, the events select reports, what accepting and dropping a connection do to the registry
    and the pending queue, and how a pass decides the reply to a command. The class in
    WaveSocket is proved against these functions. */
module WavePass {
  import opened Text

  /** A socket of the client. Every accept creates a new socket object, so an id is never given
      out twice. */
  type SocketId = nat

  /** An entry of the registry or of the pending queue: the peer's socket and its address. */
  datatype Conn = Conn(sock: SocketId, addr: string)

  /** The outcome of one `recv(1024)`. `Received` is a non-empty chunk that decodes as UTF-8,
      given decoded; `Undecodable` a non-empty chunk that does not; `EndOfStream` the empty
      chunk of a closed peer; `ReadFailed` a socket.error. */
  datatype ReadResult = Received(text: string) | Undecodable | EndOfStream | ReadFailed

  /** A connection waiting on the listening socket: the peer address accept() gives, and what
      the read that acceptConnection makes right away returns. */
  datatype Incoming = Incoming(addr: string, firstRead: ReadResult)

  /** What one select() call reports: it fails, or it names the ready sockets; `incoming` is
      present when the listening socket is ready and `results` gives the read result of each ready
      peer socket. */
  datatype Pass = SelectFailed | Ready(incoming: Option<Incoming>, results: map<SocketId, ReadResult>)

  /** The Python exceptions that escape from the client's methods. */
  datatype Exception = UnicodeEncodeError | UnicodeDecodeError | NameError | AttributeError

  /** A value the client's method returns, or the exception it raises. */
  datatype Outcome<+T> = Returned(value: T) | Raised(error: Exception)

  /** An entry of the list handed to select(). */
  datatype Watched = Listener | Peer(sock: SocketId)

  /** A ready socket as its handler sees it. */
  datatype Event = AcceptEvent(incoming: Incoming) | ReadEvent(sock: SocketId, result: ReadResult)

  /** Who the pass is serving: a command waiting for the reply of `target` (writeCommand-
      ToSocketAndWaitForAnswer), or waitForConnection. */
  datatype Mode = AwaitReply(target: SocketId, debug: bool) | AwaitConnection

  /** The client's connection bookkeeping: the registry of connected peers, the queue of peers
      not bootstrapped yet, the next socket id accept() will produce, and the closed sockets. */
  datatype Peers = Peers(registry: seq<Conn>, queue: seq<Conn>, nextSock: SocketId, closed: set<SocketId>)

  /** The state a pass threads through its handlers: the peers, the reply so far, and the
      exception that ended the pass, if any. */
  datatype PassState = PassState(peers: Peers, answer: string, error: Option<Exception>)

  // ---------------------------------------------------------------------------------------------
  // Registry bookkeeping

  function Socks(cs: seq<Conn>): (ss: seq<SocketId>)
    ensures |ss| == |cs| && forall i :: 0 <= i < |cs| ==> ss[i] == cs[i].sock
  {
    seq(|cs|, i requires 0 <= i < |cs| => cs[i].sock)
  }

  predicate DistinctSocks(cs: seq<Conn>) {
    forall i, j :: 0 <= i < j < |cs| ==> cs[i].sock != cs[j].sock
  }

  /** What the bookkeeping keeps true: registered and queued sockets are distinct and were
      handed out; registered sockets are open; closed sockets were handed out. */
  predicate PeersValid(p: Peers) {
    && DistinctSocks(p.registry) && DistinctSocks(p.queue)
    && (forall i :: 0 <= i < |p.registry| ==> p.registry[i].sock < p.nextSock && p.registry[i].sock !in p.closed)
    && (forall i :: 0 <= i < |p.queue| ==> p.queue[i].sock < p.nextSock)
    && (forall s :: s in p.closed ==> s < p.nextSock)
  }

  /** The registry without the entries whose socket is in `drop`, the others in their order. */
  function Without(registry: seq<Conn>, drop: set<SocketId>): seq<Conn> {
    if registry == [] then []
    else (if registry[0].sock in drop then [] else [registry[0]]) + Without(registry[1..], drop)
  }

  /** acceptConnection's bookkeeping: a new socket, appended to the registry and to the queue. */
  function Accept(p: Peers, addr: string): Peers {
    var c := Conn(p.nextSock, addr);
    p.(registry := p.registry + [c], queue := p.queue + [c], nextSock := p.nextSock + 1)
  }

  /** removeConnection: the socket is closed and its entries leave the registry. */
  function Drop(p: Peers, s: SocketId): Peers {
    p.(registry := Without(p.registry, {s}), closed := p.closed + {s})
  }

  /** What acceptConnection returns once the connection is registered: the immediate read is
      decoded and thrown away. A read error returns False, a chunk that is not UTF-8 raises. */
  function FirstReadOutcome(r: ReadResult): (o: Outcome<bool>)
    ensures o.Raised? <==> r == Undecodable
    ensures o == Returned(false) <==> r == ReadFailed
  {
    match r
    case Received(_) => Returned(true)
    case EndOfStream => Returned(true)
    case ReadFailed => Returned(false)
    case Undecodable => Raised(UnicodeDecodeError)
  }

  // ---------------------------------------------------------------------------------------------
  // One pass

  /** createInputList: the listening socket, then every registered peer in registry order. */
  function CreateInputList(registry: seq<Conn>): (ws: seq<Watched>)
    ensures |ws| == |registry| + 1 && ws[0] == Listener
    ensures forall i :: 0 <= i < |registry| ==> ws[i + 1] == Peer(registry[i].sock)
  {
    [Listener] + seq(|registry|, i requires 0 <= i < |registry| => Peer(registry[i].sock))
  }

  /** The sockets select() reports ready, in the order of the list it was given. */
  function ReadyEvents(inputs: seq<Watched>, incoming: Option<Incoming>, results: map<SocketId, ReadResult>): seq<Event>
    decreases |inputs|
  {
    if inputs == [] then []
    else
      var head :=
        match inputs[0]
        case Listener => if incoming.Some? then [AcceptEvent(incoming.value)] else []
        case Peer(s) => if s in results then [ReadEvent(s, results[s])] else [];
      head + ReadyEvents(inputs[1..], incoming, results)
  }

  /** The handler of one ready socket (the body of `for s in inputready`). `listening` is false
      while the server socket is still the integer 0, which has no accept(). */
  function Step(st: PassState, ev: Event, mode: Mode, listening: bool): PassState
    requires st.error.None?
  {
    match ev
    case AcceptEvent(inc) =>
      if !listening then st.(error := Some(AttributeError))
      else
        var p := Accept(st.peers, inc.addr);
        var o := FirstReadOutcome(inc.firstRead);
        PassState(p, st.answer, if o.Raised? then Some(o.error) else None)
    case ReadEvent(s, r) =>
      match r
      case EndOfStream => st.(peers := Drop(st.peers, s))
      case ReadFailed => st.(peers := Drop(st.peers, s))
      case Received(t) =>
        (match mode
         case AwaitConnection => st.(error := Some(NameError))
         case AwaitReply(target, _) => if s == target then st.(answer := Strip(t)) else st)
      case Undecodable =>
        (match mode
         case AwaitConnection => st.(error := Some(UnicodeDecodeError))
         case AwaitReply(target, debug) =>
           if s == target || debug then st.(error := Some(UnicodeDecodeError)) else st)
  }

  /** The handlers run in order; an exception ends the pass. */
  function Run(st: PassState, evs: seq<Event>, mode: Mode, listening: bool): PassState
    decreases |evs|
  {
    if evs == [] || st.error.Some? then st
    else Run(Step(st, evs[0], mode, listening), evs[1..], mode, listening)
  }

  /** One select() call and its handlers, starting with no reply. */
  function AfterPass(p: Peers, pass: Pass, mode: Mode, listening: bool): PassState {
    if pass.SelectFailed? then PassState(p, "", None)
    else Run(PassState(p, "", None), ReadyEvents(CreateInputList(p.registry), pass.incoming, pass.results), mode, listening)
  }

  // ---------------------------------------------------------------------------------------------
  // removeConnection's filter

  /** An entry survives exactly when its socket is not dropped. */
  lemma {:induction false} WithoutMembers(registry: seq<Conn>, drop: set<SocketId>)
    ensures forall c :: c in Without(registry, drop) <==> c in registry && c.sock !in drop
  {
    if registry != [] {
      WithoutMembers(registry[1..], drop);
      assert registry == [registry[0]] + registry[1..];
    }
  }

  /** Filtering distributes over concatenation, so the survivors keep their relative order. */
  lemma {:induction false} WithoutAppend(a: seq<Conn>, b: seq<Conn>, drop: set<SocketId>)
    ensures Without(a + b, drop) == Without(a, drop) + Without(b, drop)
  {
    if a == [] {
      assert a + b == b;
    } else {
      assert (a + b)[1..] == a[1..] + b;
      WithoutAppend(a[1..], b, drop);
    }
  }

  /** Removing a socket that is not registered leaves the registry as it is. */
  lemma {:induction false} WithoutAbsent(registry: seq<Conn>, drop: set<SocketId>)
    requires forall i :: 0 <= i < |registry| ==> registry[i].sock !in drop
    ensures Without(registry, drop) == registry
  {
    if registry != [] {
      WithoutAbsent(registry[1..], drop);
    }
  }

  /** Two removals are one removal of both sets; removing the same socket twice is removing it
      once. */
  lemma {:induction false} WithoutTwice(registry: seq<Conn>, a: set<SocketId>, b: set<SocketId>)
    ensures Without(Without(registry, a), b) == Without(registry, a + b)
  {
    if registry != [] {
      var head := if registry[0].sock in a then [] else [registry[0]];
      WithoutAppend(head, Without(registry[1..], a), b);
      WithoutTwice(registry[1..], a, b);
    }
  }

  lemma RemoveIdempotent(p: Peers, s: SocketId)
    ensures Drop(Drop(p, s), s) == Drop(p, s)
  {
    WithoutTwice(p.registry, {s}, {s});
    assert {s} + {s} == {s};
  }

  /** In a registry of distinct sockets, removing the socket of entry i deletes exactly that
      entry. */
  lemma {:induction false} WithoutAt(registry: seq<Conn>, i: nat)
    requires DistinctSocks(registry) && i < |registry|
    ensures Without(registry, {registry[i].sock}) == registry[..i] + registry[i + 1..]
  {
    var s := registry[i].sock;
    var a, m, b := registry[..i], [registry[i]], registry[i + 1..];
    assert registry == a + (m + b);
    forall j | 0 <= j < |a| ensures a[j].sock !in {s} {
      assert a[j] == registry[j];
    }
    forall j | 0 <= j < |b| ensures b[j].sock !in {s} {
      assert b[j] == registry[i + 1 + j];
    }
    WithoutAbsent(a, {s});
    WithoutAbsent(b, {s});
    assert Without(m, {s}) == [];
    WithoutAppend(m, b, {s});
    assert Without(m + b, {s}) == b;
    WithoutAppend(a, m + b, {s});
  }

  lemma {:induction false} WithoutDistinct(registry: seq<Conn>, drop: set<SocketId>)
    requires DistinctSocks(registry)
    ensures DistinctSocks(Without(registry, drop))
  {
    if registry != [] {
      var rest := Without(registry[1..], drop);
      WithoutDistinct(registry[1..], drop);
      WithoutMembers(registry[1..], drop);
      forall k | 0 <= k < |rest|
        ensures rest[k].sock != registry[0].sock
      {
        assert rest[k] in registry[1..];
      }
    }
  }

  /** Every registered and queued socket stays below the next id when one is dropped. */
  lemma DropValid(p: Peers, s: SocketId)
    requires PeersValid(p) && s < p.nextSock
    ensures PeersValid(Drop(p, s))
  {
    var r := Without(p.registry, {s});
    WithoutDistinct(p.registry, {s});
    WithoutMembers(p.registry, {s});
    forall k | 0 <= k < |r|
      ensures r[k].sock < p.nextSock && r[k].sock !in p.closed + {s}
    {
      assert r[k] in p.registry;
    }
  }

  lemma AcceptValid(p: Peers, addr: string)
    requires PeersValid(p)
    ensures PeersValid(Accept(p, addr))
  {
  }

  // ---------------------------------------------------------------------------------------------
  // One pass

  /** Every read event of a pass names a watched socket and carries that socket's result. */
  lemma {:induction false} ReadyEventsFromInputs(inputs: seq<Watched>, incoming: Option<Incoming>, results: map<SocketId, ReadResult>)
    ensures forall e :: e in ReadyEvents(inputs, incoming, results) && e.ReadEvent? ==>
      Peer(e.sock) in inputs && e.sock in results && e.result == results[e.sock]
    decreases |inputs|
  {
    if inputs != [] {
      ReadyEventsFromInputs(inputs[1..], incoming, results);
    }
  }

  /** The read events name sockets that were handed out before the pass. */
  predicate EventsBelow(evs: seq<Event>, n: nat) {
    forall k :: 0 <= k < |evs| && evs[k].ReadEvent? ==> evs[k].sock < n
  }

  lemma PassEventsBelow(p: Peers, incoming: Option<Incoming>, results: map<SocketId, ReadResult>)
    requires PeersValid(p)
    ensures EventsBelow(ReadyEvents(CreateInputList(p.registry), incoming, results), p.nextSock)
  {
    var evs := ReadyEvents(CreateInputList(p.registry), incoming, results);
    ReadyEventsFromInputs(CreateInputList(p.registry), incoming, results);
    forall k | 0 <= k < |evs| && evs[k].ReadEvent?
      ensures evs[k].sock < p.nextSock
    {
      assert evs[k] in evs;
      var ws := CreateInputList(p.registry);
      var j :| 0 <= j < |ws| && ws[j] == Peer(evs[k].sock);
      assert p.registry[j - 1].sock == evs[k].sock;
    }
  }

  /** An exception ends the pass with the state it left. */
  lemma RunStops(st: PassState, evs: seq<Event>, mode: Mode, listening: bool)
    requires st.error.Some?
    ensures Run(st, evs, mode, listening) == st
  {
  }

  /** The queue only grows, by the peers accepted in order with consecutive fresh sockets. */
  predicate QueueGrowth(p: Peers, q: Peers) {
    && |p.queue| <= |q.queue| && q.queue[..|p.queue|] == p.queue
    && q.nextSock == p.nextSock + (|q.queue| - |p.queue|)
    && forall i :: |p.queue| <= i < |q.queue| ==> q.queue[i].sock == p.nextSock + (i - |p.queue|)
  }

  lemma QueueGrowthTrans(p: Peers, q: Peers, r: Peers)
    requires QueueGrowth(p, q) && QueueGrowth(q, r)
    ensures QueueGrowth(p, r)
  {
    assert r.queue[..|p.queue|] == r.queue[..|q.queue|][..|p.queue|];
  }

  /** One handler keeps the bookkeeping valid and at most appends one peer to the queue. */
  lemma StepValid(st: PassState, e: Event, mode: Mode, listening: bool)
    requires st.error.None? && PeersValid(st.peers) && (e.ReadEvent? ==> e.sock < st.peers.nextSock)
    ensures PeersValid(Step(st, e, mode, listening).peers)
    ensures QueueGrowth(st.peers, Step(st, e, mode, listening).peers)
  {
    match e {
      case AcceptEvent(inc) =>
        if listening { AcceptValid(st.peers, inc.addr); }
      case ReadEvent(s, r) =>
        if r.EndOfStream? || r.ReadFailed? { DropValid(st.peers, s); }
    }
  }

  /** A pass keeps the bookkeeping valid and only appends to the pending queue. */
  lemma {:induction false} RunValid(st: PassState, evs: seq<Event>, mode: Mode, listening: bool)
    requires PeersValid(st.peers) && EventsBelow(evs, st.peers.nextSock)
    ensures PeersValid(Run(st, evs, mode, listening).peers)
    ensures QueueGrowth(st.peers, Run(st, evs, mode, listening).peers)
    decreases |evs|
  {
    if evs != [] && st.error.None? {
      var next := Step(st, evs[0], mode, listening);
      StepValid(st, evs[0], mode, listening);
      assert EventsBelow(evs[1..], next.peers.nextSock) by {
        forall k | 0 <= k < |evs[1..]| && evs[1..][k].ReadEvent?
          ensures evs[1..][k].sock < next.peers.nextSock
        {
          assert evs[1..][k] == evs[k + 1];
        }
      }
      RunValid(next, evs[1..], mode, listening);
      QueueGrowthTrans(st.peers, next.peers, Run(next, evs[1..], mode, listening).peers);
    } else {
      assert Run(st, evs, mode, listening) == st;
    }
  }

  // ---------------------------------------------------------------------------------------------
  // Which data becomes the reply

  /** A read of `target` that delivered text. */
  predicate TargetText(e: Event, target: SocketId) {
    e.ReadEvent? && e.sock == target && e.result.Received?
  }

  /** The reply a pass ends with is the one it started with, or the stripped text of a read of
      the target socket: data from any other peer is never the reply. */
  lemma {:induction false} ReplyOnlyFromTarget(st: PassState, evs: seq<Event>, target: SocketId, debug: bool, listening: bool)
    ensures var a := Run(st, evs, AwaitReply(target, debug), listening).answer;
      a == st.answer || exists k :: 0 <= k < |evs| && TargetText(evs[k], target) && a == Strip(evs[k].result.text)
    decreases |evs|
  {
    if evs != [] && st.error.None? {
      var mode := AwaitReply(target, debug);
      var next := Step(st, evs[0], mode, listening);
      ReplyOnlyFromTarget(next, evs[1..], target, debug, listening);
      var a := Run(next, evs[1..], mode, listening).answer;
      if a != next.answer {
        var k :| 0 <= k < |evs[1..]| && TargetText(evs[1..][k], target) && a == Strip(evs[1..][k].result.text);
        assert evs[k + 1] == evs[1..][k];
      } else if next.answer != st.answer {
        assert TargetText(evs[0], target);
      }
    }
  }

  /** Text from peers other than the target: dropping it from the pass changes nothing. */
  predicate CrossTalk(e: Event, target: SocketId) {
    e.ReadEvent? && e.sock != target && e.result.Received?
  }

  function WithoutCrossTalk(evs: seq<Event>, target: SocketId): seq<Event> {
    if evs == [] then []
    else (if CrossTalk(evs[0], target) then [] else [evs[0]]) + WithoutCrossTalk(evs[1..], target)
  }

  lemma {:induction false} CrossTalkIgnored(st: PassState, evs: seq<Event>, target: SocketId, debug: bool, listening: bool)
    ensures Run(st, evs, AwaitReply(target, debug), listening)
         == Run(st, WithoutCrossTalk(evs, target), AwaitReply(target, debug), listening)
    decreases |evs|
  {
    var mode := AwaitReply(target, debug);
    if evs != [] && st.error.None? {
      CrossTalkIgnored(Step(st, evs[0], mode, listening), evs[1..], target, debug, listening);
      if CrossTalk(evs[0], target) {
        assert Step(st, evs[0], mode, listening) == st;
        assert WithoutCrossTalk(evs, target) == WithoutCrossTalk(evs[1..], target);
      } else {
        var f := WithoutCrossTalk(evs, target);
        assert f[0] == evs[0] && f[1..] == WithoutCrossTalk(evs[1..], target);
      }
    } else if evs != [] {
      RunStops(st, WithoutCrossTalk(evs, target), mode, listening);
    }
  }

  /** A pass that reads no text from the target keeps the reply it started with. */
  lemma NoTargetTextKeepsReply(st: PassState, evs: seq<Event>, target: SocketId, debug: bool, listening: bool)
    requires forall k :: 0 <= k < |evs| ==> !TargetText(evs[k], target)
    ensures Run(st, evs, AwaitReply(target, debug), listening).answer == st.answer
  {
    ReplyOnlyFromTarget(st, evs, target, debug, listening);
  }

  /** When the target's text arrives once and the pass completes, that text, stripped, is the
      reply. */
  lemma {:induction false} TargetTextIsReply(st: PassState, evs: seq<Event>, k: nat, target: SocketId, debug: bool, listening: bool)
    requires k < |evs| && TargetText(evs[k], target)
    requires forall j :: 0 <= j < |evs| && j != k ==> !TargetText(evs[j], target)
    requires Run(st, evs, AwaitReply(target, debug), listening).error.None?
    ensures Run(st, evs, AwaitReply(target, debug), listening).answer == Strip(evs[k].result.text)
    decreases |evs|
  {
    var mode := AwaitReply(target, debug);
    if st.error.Some? {
      RunStops(st, evs, mode, listening);
    } else if k == 0 {
      var next := Step(st, evs[0], mode, listening);
      assert next.answer == Strip(evs[0].result.text);
      NoTargetTextKeepsReply(next, evs[1..], target, debug, listening);
    } else {
      TargetTextIsReply(Step(st, evs[0], mode, listening), evs[1..], k - 1, target, debug, listening);
    }
  }

  // ---------------------------------------------------------------------------------------------
  // Lost peers

  predicate Registered(p: Peers, s: SocketId) {
    exists i :: 0 <= i < |p.registry| && p.registry[i].sock == s
  }

  /** A step never registers again a socket handed out before it. */
  lemma StepKeepsOut(st: PassState, e: Event, mode: Mode, listening: bool, s: SocketId)
    requires st.error.None? && s < st.peers.nextSock && !Registered(st.peers, s)
    ensures var q := Step(st, e, mode, listening).peers; s < q.nextSock && !Registered(q, s)
  {
    if e.ReadEvent? && (e.result.EndOfStream? || e.result.ReadFailed?) {
      WithoutMembers(st.peers.registry, {e.sock});
      var q := Drop(st.peers, e.sock);
      forall i | 0 <= i < |q.registry| ensures q.registry[i].sock != s {
        assert q.registry[i] in st.peers.registry;
      }
    }
  }

  lemma {:induction false} RunKeepsOut(st: PassState, evs: seq<Event>, mode: Mode, listening: bool, s: SocketId)
    requires s < st.peers.nextSock && !Registered(st.peers, s)
    ensures !Registered(Run(st, evs, mode, listening).peers, s)
    decreases |evs|
  {
    if evs != [] && st.error.None? {
      StepKeepsOut(st, evs[0], mode, listening, s);
      RunKeepsOut(Step(st, evs[0], mode, listening), evs[1..], mode, listening, s);
    }
  }

  /** An empty read or a read error on a ready socket deregisters that socket, and it stays out
      for the rest of the pass, whatever the mode. */
  lemma {:induction false} LostPeerDeregistered(st: PassState, evs: seq<Event>, k: nat, mode: Mode, listening: bool)
    requires k < |evs| && evs[k].ReadEvent? && (evs[k].result.EndOfStream? || evs[k].result.ReadFailed?)
    requires EventsBelow(evs, st.peers.nextSock)
    requires Run(st, evs, mode, listening).error.None?
    ensures !Registered(Run(st, evs, mode, listening).peers, evs[k].sock)
    decreases |evs|
  {
    if st.error.Some? {
      RunStops(st, evs, mode, listening);
    } else {
      var next := Step(st, evs[0], mode, listening);
      if k == 0 {
        var s := evs[0].sock;
        WithoutMembers(st.peers.registry, {s});
        forall i | 0 <= i < |next.peers.registry| ensures next.peers.registry[i].sock != s {
          assert next.peers.registry[i] in Without(st.peers.registry, {s});
        }
        RunKeepsOut(next, evs[1..], mode, listening, s);
      } else {
        LostPeerDeregistered(next, evs[1..], k - 1, mode, listening);
      }
    }
  }

  // ---------------------------------------------------------------------------------------------
  // waitForConnection

  /** While waiting for a connection, any text from a peer makes the pass raise: the handler
      strips a variable that does not exist there. */
  lemma {:induction false} TextWhileWaitingRaises(st: PassState, evs: seq<Event>, k: nat, listening: bool)
    requires k < |evs| && evs[k].ReadEvent? && evs[k].result.Received?
    ensures Run(st, evs, AwaitConnection, listening).error.Some?
    decreases |evs|
  {
    if st.error.None? && k > 0 {
      TextWhileWaitingRaises(Step(st, evs[0], AwaitConnection, listening), evs[1..], k - 1, listening);
    }
  }

  // ---------------------------------------------------------------------------------------------
  // Events of one select() result

  /** A read event for socket s. */
  predicate ReadOf(e: Event, s: SocketId) {
    e.ReadEvent? && e.sock == s
  }

  /** `e` is a read event that occurs in `evs`, and no other event reads its socket. */
  predicate OnlyAt(evs: seq<Event>, e: Event)
    requires e.ReadEvent?
  {
    exists k :: 0 <= k < |evs| && evs[k] == e && forall j :: 0 <= j < |evs| && j != k ==> !ReadOf(evs[j], e.sock)
  }

  predicate WatchedOnce(inputs: seq<Watched>, s: SocketId) {
    forall i, j :: 0 <= i < |inputs| && 0 <= j < |inputs| && inputs[i] == Peer(s) && inputs[j] == Peer(s) ==> i == j
  }

  /** A socket watched once and ready gives exactly one event, carrying its read result. */
  lemma {:induction false} ReadyEventsOnce(inputs: seq<Watched>, incoming: Option<Incoming>, results: map<SocketId, ReadResult>, s: SocketId)
    requires WatchedOnce(inputs, s) && Peer(s) in inputs && s in results
    ensures OnlyAt(ReadyEvents(inputs, incoming, results), ReadEvent(s, results[s]))
    decreases |inputs|
  {
    var evs := ReadyEvents(inputs, incoming, results);
    var rest := ReadyEvents(inputs[1..], incoming, results);
    var head := evs[..|evs| - |rest|];
    assert evs == head + rest;
    if inputs[0] == Peer(s) {
      assert Peer(s) !in inputs[1..] by {
        forall j | 0 <= j < |inputs[1..]| ensures inputs[1..][j] != Peer(s) {
          assert inputs[1..][j] == inputs[j + 1];
        }
      }
      ReadyEventsFromInputs(inputs[1..], incoming, results);
      assert evs == [ReadEvent(s, results[s])] + rest;
      forall j | 0 <= j < |evs| && j != 0 ensures !ReadOf(evs[j], s) {
        assert evs[j] == rest[j - 1];
        assert rest[j - 1] in rest;
      }
      var k := 0;
      assert 0 <= k < |evs| && evs[k] == ReadEvent(s, results[s]) && forall j :: 0 <= j < |evs| && j != k ==> !ReadOf(evs[j], s);
    } else {
      assert WatchedOnce(inputs[1..], s) by {
        forall i, j | 0 <= i < |inputs[1..]| && 0 <= j < |inputs[1..]| && inputs[1..][i] == Peer(s) && inputs[1..][j] == Peer(s)
          ensures i == j
        {
          assert inputs[i + 1] == Peer(s) && inputs[j + 1] == Peer(s);
        }
      }
      ReadyEventsOnce(inputs[1..], incoming, results, s);
      var k :| 0 <= k < |rest| && rest[k] == ReadEvent(s, results[s]) &&
        forall j :: 0 <= j < |rest| && j != k ==> !ReadOf(rest[j], s);
      assert forall j :: 0 <= j < |head| ==> !ReadOf(head[j], s);
      assert evs[|head| + k] == rest[k];
      forall j | 0 <= j < |evs| && j != |head| + k ensures !ReadOf(evs[j], s) {
        if j >= |head| { assert evs[j] == rest[j - |head|]; }
      }
    }
  }

  /** A registry of distinct sockets watches each of them once. */
  lemma InputListOnce(registry: seq<Conn>, s: SocketId)
    requires DistinctSocks(registry)
    ensures WatchedOnce(CreateInputList(registry), s)
  {
    var ws := CreateInputList(registry);
    forall i, j | 0 <= i < |ws| && 0 <= j < |ws| && ws[i] == Peer(s) && ws[j] == Peer(s)
      ensures i == j
    {
      assert registry[i - 1].sock == s && registry[j - 1].sock == s;
    }
  }

  /** The entries of a select() result that are not text from a peer other than the target. */
  function Relevant(results: map<SocketId, ReadResult>, target: SocketId): map<SocketId, ReadResult> {
    map s | s in results && !(s != target && results[s].Received?) :: results[s]
  }

  lemma {:induction false} WithoutCrossTalkAppend(a: seq<Event>, b: seq<Event>, target: SocketId)
    ensures WithoutCrossTalk(a + b, target) == WithoutCrossTalk(a, target) + WithoutCrossTalk(b, target)
  {
    if a == [] {
      assert a + b == b;
    } else {
      assert (a + b)[1..] == a[1..] + b;
      WithoutCrossTalkAppend(a[1..], b, target);
    }
  }

  /** Filtering the cross-talk out of the events is building them from the relevant entries. */
  lemma {:induction false} RelevantEvents(inputs: seq<Watched>, incoming: Option<Incoming>, results: map<SocketId, ReadResult>, target: SocketId)
    ensures WithoutCrossTalk(ReadyEvents(inputs, incoming, results), target)
         == ReadyEvents(inputs, incoming, Relevant(results, target))
    decreases |inputs|
  {
    if inputs != [] {
      var evs := ReadyEvents(inputs, incoming, results);
      var rest := ReadyEvents(inputs[1..], incoming, results);
      var head := evs[..|evs| - |rest|];
      assert evs == head + rest;
      WithoutCrossTalkAppend(head, rest, target);
      RelevantEvents(inputs[1..], incoming, results, target);
      var rel := Relevant(results, target);
      var relEvs := ReadyEvents(inputs, incoming, rel);
      var relRest := ReadyEvents(inputs[1..], incoming, rel);
      assert relEvs == relEvs[..|relEvs| - |relRest|] + relRest;
      match inputs[0] {
        case Listener =>
        case Peer(s) =>
          if s in results {
            var e := ReadEvent(s, results[s]);
            assert head == [e];
            assert WithoutCrossTalk([e], target) == (if CrossTalk(e, target) then [] else [e]);
          }
      }
    }
  }

  /** No handler raises UnicodeEncodeError: that one only comes from encoding a command. */
  lemma {:induction false} RunNoEncodeError(st: PassState, evs: seq<Event>, mode: Mode, listening: bool)
    requires st.error != Some(UnicodeEncodeError)
    ensures Run(st, evs, mode, listening).error != Some(UnicodeEncodeError)
    decreases |evs|
  {
    if evs != [] && st.error.None? {
      RunNoEncodeError(Step(st, evs[0], mode, listening), evs[1..], mode, listening);
    }
  }

  /** A registered socket that is ready gives exactly one event in the pass. */
  lemma RegisteredReadsOnce(p: Peers, incoming: Option<Incoming>, results: map<SocketId, ReadResult>, s: SocketId)
    requires PeersValid(p) && Registered(p, s) && s in results
    ensures OnlyAt(ReadyEvents(CreateInputList(p.registry), incoming, results), ReadEvent(s, results[s]))
  {
    var ws := CreateInputList(p.registry);
    var i :| 0 <= i < |p.registry| && p.registry[i].sock == s;
    assert ws[i + 1] == Peer(s);
    InputListOnce(p.registry, s);
    ReadyEventsOnce(ws, incoming, results, s);
  }

  /** The text a registered target sends in a pass that completes is the stripped reply. */
  lemma PassTargetReply(p: Peers, pass: Pass, target: SocketId, debug: bool, listening: bool)
    requires PeersValid(p) && Registered(p, target)
    requires pass.Ready? && target in pass.results && pass.results[target].Received?
    requires AfterPass(p, pass, AwaitReply(target, debug), listening).error.None?
    ensures AfterPass(p, pass, AwaitReply(target, debug), listening).answer == Strip(pass.results[target].text)
  {
    var evs := ReadyEvents(CreateInputList(p.registry), pass.incoming, pass.results);
    RegisteredReadsOnce(p, pass.incoming, pass.results, target);
    var k :| 0 <= k < |evs| && evs[k] == ReadEvent(target, pass.results[target]) &&
      forall j :: 0 <= j < |evs| && j != k ==> !ReadOf(evs[j], target);
    TargetTextIsReply(PassState(p, "", None), evs, k, target, debug, listening);
  }

  /** While waiting for a connection, text from any registered viewer in the pass raises
      NameError or an earlier exception: the pass never completes. */
  lemma WaitingPassRaises(p: Peers, pass: Pass, s: SocketId, listening: bool)
    requires PeersValid(p) && Registered(p, s)
    requires pass.Ready? && s in pass.results && pass.results[s].Received?
    ensures AfterPass(p, pass, AwaitConnection, listening).error.Some?
  {
    var evs := ReadyEvents(CreateInputList(p.registry), pass.incoming, pass.results);
    RegisteredReadsOnce(p, pass.incoming, pass.results, s);
    var k :| 0 <= k < |evs| && evs[k] == ReadEvent(s, pass.results[s]) &&
      forall j :: 0 <= j < |evs| && j != k ==> !ReadOf(evs[j], s);
    TextWhileWaitingRaises(PassState(p, "", None), evs, k, listening);
  }
}
