/** The remote-control client of the BeSpice Wave viewer (class BespiceWaveInterface): a
    listening socket, a registry of connected viewers, a queue of viewers still to be set up,
    and one readiness pass per command. */
module WaveSocket {
  import opened Text
  import opened WaveCommands
  import opened WavePass

  /** What the operating system and the viewers decide, fixed for the life of one client: the
      port bind(('', 0)) is given, whether a path exists, whether the n-th send() of the client
      goes through, and what the n-th select() reports. */
  datatype Environment = Environment(
    assignedPort: nat,
    pathExists: string -> bool,
    sendSucceeds: nat -> bool,
    selectPass: nat -> Pass)

  /** One send(): the socket and the line handed to it. */
  datatype Transmission = Transmission(sock: SocketId, line: string)

  /** What writeCommandAndWaitForAnswer returns: False when no viewer is connected, otherwise
      the reply text. */
  datatype Reply = NotConnected | Answer(text: string)

  /** A call of writeCommandAndWaitForAnswer: the command and what the call returned or raised. */
  datatype Request = Request(command: string, outcome: Outcome<Reply>)

  function Commands(rs: seq<Request>): (cs: seq<string>)
    ensures |cs| == |rs| && forall i :: 0 <= i < |rs| ==> cs[i] == rs[i].command
  {
    seq(|rs|, i requires 0 <= i < |rs| => rs[i].command)
  }

  /** The command sent to every new viewer: the specialization when one is set, otherwise a
      status query. */
  function BootstrapCommand(specialization: string): string {
    if specialization != "" then SpecializationCommand(specialization) else StatusCommand
  }

  /** The set-up command can be sent exactly when the specialization is ASCII. */
  lemma BootstrapEncodable(specialization: string)
    ensures IsAscii(WireLine(BootstrapCommand(specialization))) <==> IsAscii(specialization)
  {
    if specialization == "" {
      StatusEncodable();
    } else {
      SpecializationEncodable(specialization);
    }
  }

  /** The argument vector of the launched viewer. */
  function LaunchArguments(path: string, port: nat): seq<string> {
    [path, "--socket", "localhost", NatToDecimal(port)]
  }

  /** The viewer is told the executable and the port the server listens on, which it reads back
      from its fourth argument. */
  lemma LaunchArgumentsPort(path: string, port: nat)
    ensures |LaunchArguments(path, port)| == 4 && LaunchArguments(path, port)[0] == path
    ensures ParseInt(LaunchArguments(path, port)[3]) == Some(port as int)
  {
    var argv := LaunchArguments(path, port);
    assert argv[3] == NatToDecimal(port);
    DecimalRoundTrip(port);
  }

  // ---------------------------------------------------------------------------------------------
  // writeCommandToSocketAndWaitForAnswer over values

  datatype Exchanged = Exchanged(peers: Peers, reply: Outcome<string>)

  /** The command goes out as its stripped text and a newline, which must be ASCII; a failed
      send drops the target and gives ""; otherwise one select() pass decides the reply.
      `sendOk` is whether send() goes through on an open socket (on a closed one it raises
      OSError, handled like a failed send), `pass` what the select() after it reports. */
  function CommandExchange(p: Peers, cmd: string, target: SocketId, sendOk: bool, pass: Pass, debug: bool, listening: bool): Exchanged {
    if !IsAscii(WireLine(cmd)) then Exchanged(p, Raised(UnicodeEncodeError))
    else if target in p.closed || !sendOk then Exchanged(Drop(p, target), Returned(""))
    else
      var st := AfterPass(p, pass, AwaitReply(target, debug), listening);
      Exchanged(st.peers, if st.error.Some? then Raised(st.error.value) else Returned(st.answer))
  }

  /** The exchange keeps the bookkeeping valid and only appends accepted viewers to the queue. */
  lemma ExchangeValid(p: Peers, cmd: string, target: SocketId, sendOk: bool, pass: Pass, debug: bool, listening: bool)
    requires PeersValid(p) && target < p.nextSock
    ensures PeersValid(CommandExchange(p, cmd, target, sendOk, pass, debug, listening).peers)
    ensures QueueGrowth(p, CommandExchange(p, cmd, target, sendOk, pass, debug, listening).peers)
  {
    if IsAscii(WireLine(cmd)) && (target in p.closed || !sendOk) {
      DropValid(p, target);
    } else if IsAscii(WireLine(cmd)) && pass.Ready? {
      PassEventsBelow(p, pass.incoming, pass.results);
      RunValid(PassState(p, "", None), ReadyEvents(CreateInputList(p.registry), pass.incoming, pass.results), AwaitReply(target, debug), listening);
    }
  }

  /** The reply is "" or the stripped text the target itself sent in the pass. */
  predicate FromTarget(reply: Outcome<string>, pass: Pass, target: SocketId) {
    reply.Returned? ==>
      reply.value == "" ||
      (pass.Ready? && target in pass.results && pass.results[target].Received? &&
       reply.value == Strip(pass.results[target].text))
  }

  /** What other viewers send never becomes the reply. */
  lemma ExchangeReplyFromTarget(p: Peers, cmd: string, target: SocketId, sendOk: bool, pass: Pass, debug: bool, listening: bool)
    ensures FromTarget(CommandExchange(p, cmd, target, sendOk, pass, debug, listening).reply, pass, target)
  {
    if IsAscii(WireLine(cmd)) && target !in p.closed && sendOk && pass.Ready? {
      var evs := ReadyEvents(CreateInputList(p.registry), pass.incoming, pass.results);
      var init := PassState(p, "", None);
      var st := Run(init, evs, AwaitReply(target, debug), listening);
      assert CommandExchange(p, cmd, target, sendOk, pass, debug, listening).reply
          == if st.error.Some? then Raised(st.error.value) else Returned(st.answer);
      ReplyOnlyFromTarget(init, evs, target, debug, listening);
      ReadyEventsFromInputs(CreateInputList(p.registry), pass.incoming, pass.results);
      if st.answer != "" {
        var k :| 0 <= k < |evs| && TargetText(evs[k], target) && st.answer == Strip(evs[k].result.text);
        assert evs[k] in evs;
      }
    }
  }

  /** When the registered target sends text in the pass and nothing raises, that text, stripped,
      is the reply. */
  lemma ExchangeTargetReply(p: Peers, cmd: string, target: SocketId, pass: Pass, debug: bool, listening: bool)
    requires PeersValid(p) && Registered(p, target) && IsAscii(WireLine(cmd))
    requires pass.Ready? && target in pass.results && pass.results[target].Received?
    requires CommandExchange(p, cmd, target, true, pass, debug, listening).reply.Returned?
    ensures CommandExchange(p, cmd, target, true, pass, debug, listening).reply == Returned(Strip(pass.results[target].text))
  {
    PassTargetReply(p, pass, target, debug, listening);
  }

  /** What viewers other than the target send cannot change the exchange: the outcome is the
      one of the same pass with their text removed. */
  lemma ExchangeIgnoresCrossTalk(p: Peers, cmd: string, target: SocketId, sendOk: bool, incoming: Option<Incoming>, results: map<SocketId, ReadResult>, debug: bool, listening: bool)
    ensures CommandExchange(p, cmd, target, sendOk, Ready(incoming, results), debug, listening)
         == CommandExchange(p, cmd, target, sendOk, Ready(incoming, Relevant(results, target)), debug, listening)
  {
    var ws := CreateInputList(p.registry);
    var init := PassState(p, "", None);
    CrossTalkIgnored(init, ReadyEvents(ws, incoming, results), target, debug, listening);
    RelevantEvents(ws, incoming, results, target);
    CrossTalkIgnored(init, ReadyEvents(ws, incoming, Relevant(results, target)), target, debug, listening);
    RelevantEvents(ws, incoming, Relevant(results, target), target);
    assert Relevant(Relevant(results, target), target) == Relevant(results, target);
  }

  /** A send that fails deregisters the target and returns "". */
  lemma ExchangeSendFailure(p: Peers, cmd: string, target: SocketId, pass: Pass, debug: bool, listening: bool)
    requires IsAscii(WireLine(cmd))
    ensures var x := CommandExchange(p, cmd, target, false, pass, debug, listening);
      x.reply == Returned("") && !Registered(x.peers, target) && target in x.peers.closed
  {
    var q := Drop(p, target);
    WithoutMembers(p.registry, {target});
    forall i | 0 <= i < |q.registry| ensures q.registry[i].sock != target {
      assert q.registry[i] in Without(p.registry, {target});
    }
  }

  /** An empty read or a read error from any registered viewer deregisters it. */
  lemma ExchangeLostPeer(p: Peers, cmd: string, target: SocketId, pass: Pass, debug: bool, listening: bool, s: SocketId)
    requires PeersValid(p) && Registered(p, s) && target !in p.closed && IsAscii(WireLine(cmd))
    requires pass.Ready? && s in pass.results && (pass.results[s].EndOfStream? || pass.results[s].ReadFailed?)
    requires CommandExchange(p, cmd, target, true, pass, debug, listening).reply.Returned?
    ensures !Registered(CommandExchange(p, cmd, target, true, pass, debug, listening).peers, s)
  {
    var evs := ReadyEvents(CreateInputList(p.registry), pass.incoming, pass.results);
    var init := PassState(p, "", None);
    var st := Run(init, evs, AwaitReply(target, debug), listening);
    assert CommandExchange(p, cmd, target, true, pass, debug, listening).peers == st.peers;
    assert st.error.None?;
    RegisteredReadsOnce(p, pass.incoming, pass.results, s);
    var k :| 0 <= k < |evs| && evs[k] == ReadEvent(s, pass.results[s]) &&
      forall j :: 0 <= j < |evs| && j != k ==> !ReadOf(evs[j], s);
    PassEventsBelow(p, pass.incoming, pass.results);
    LostPeerDeregistered(init, evs, k, AwaitReply(target, debug), listening);
  }

  /** One writeCommandAndWaitForAnswer: the bookkeeping before it, the command, whether its
      send() went through, what the select() after it reported, the debug flag, whether the
      server was listening, and the outcome. */
  datatype Call = Call(before: Peers, command: string, sendOk: bool, pass: Pass, debug: bool, listening: bool, outcome: Outcome<Reply>)

  /** Without a registered viewer the call returns False; otherwise it exchanges the command
      with the first registered viewer: an exception of the exchange is raised, and a returned
      text comes from that exchange (an exception of the set-up of new viewers that follows can
      still replace it). */
  ghost predicate Faithful(c: Call) {
    if |c.before.registry| == 0 then c.outcome == Returned(NotConnected)
    else
      var x := CommandExchange(c.before, c.command, c.before.registry[0].sock, c.sendOk, c.pass, c.debug, c.listening);
      && (x.reply.Raised? ==> c.outcome == Raised(x.reply.error))
      && (c.outcome.Returned? ==> x.reply.Returned? && c.outcome.value == Answer(x.reply.value))
  }

  /** A returned answer is "" or the stripped text the first registered viewer sent. */
  lemma FaithfulReplyFromTarget(c: Call)
    requires Faithful(c) && |c.before.registry| > 0 && c.outcome.Returned?
    ensures c.outcome.value.Answer?
    ensures FromTarget(Returned(c.outcome.value.text), c.pass, c.before.registry[0].sock)
  {
    ExchangeReplyFromTarget(c.before, c.command, c.before.registry[0].sock, c.sendOk, c.pass, c.debug, c.listening);
  }

  // ---------------------------------------------------------------------------------------------
  // The client's methods over values

  /** Where the client stands in its environment: the bookkeeping, and how many send() and
      select() calls it has made (which fixes what the next ones report). */
  datatype Trace = Trace(peers: Peers, sends: nat, selects: nat)

  /** A method's result together with the trace it leaves. */
  datatype Traced<T> = Traced(trace: Trace, outcome: T)

  /** writeCommandToSocketAndWaitForAnswer from a trace: an encodable command uses one send(),
      and one select() when the send goes through on an open socket. */
  function Transmit(os: Environment, t: Trace, cmd: string, target: SocketId, debug: bool, listening: bool): Traced<Outcome<string>> {
    var ascii := IsAscii(WireLine(cmd));
    var sendOk := os.sendSucceeds(t.sends);
    var x := CommandExchange(t.peers, cmd, target, sendOk, os.selectPass(t.selects), debug, listening);
    Traced(Trace(x.peers,
                 if ascii then t.sends + 1 else t.sends,
                 if ascii && target !in t.peers.closed && sendOk then t.selects + 1 else t.selects),
           x.reply)
  }

  /** The loop of setupNewClients: the command goes to each viewer in turn, and the first
      exception ends the loop. */
  function SetupRun(os: Environment, t: Trace, cmd: string, cs: seq<Conn>, debug: bool, listening: bool): Traced<Option<Exception>>
    decreases |cs|
  {
    if cs == [] then Traced(t, None)
    else
      var x := Transmit(os, t, cmd, cs[0].sock, debug, listening);
      if x.outcome.Raised? then Traced(x.trace, Some(x.outcome.error))
      else SetupRun(os, x.trace, cmd, cs[1..], debug, listening)
  }

  /** The loop from position i: the viewer there, then the ones after it. */
  lemma SetupRunAt(os: Environment, t: Trace, cmd: string, cs: seq<Conn>, i: nat, debug: bool, listening: bool)
    requires i < |cs|
    ensures var x := Transmit(os, t, cmd, cs[i].sock, debug, listening);
      SetupRun(os, t, cmd, cs[i..], debug, listening)
        == if x.outcome.Raised? then Traced(x.trace, Some(x.outcome.error)) else SetupRun(os, x.trace, cmd, cs[i + 1..], debug, listening)
  {
    assert cs[i..][0] == cs[i] && cs[i..][1..] == cs[i + 1..];
  }

  /** setupNewClients: the queue is taken whole and its viewers are sent the bootstrap command. */
  function SetupSpec(os: Environment, t: Trace, specialization: string, debug: bool, listening: bool): Traced<Option<Exception>> {
    if |t.peers.queue| == 0 then Traced(t, None)
    else SetupRun(os, t.(peers := t.peers.(queue := [])), BootstrapCommand(specialization), t.peers.queue, debug, listening)
  }

  /** writeCommandAndWaitForAnswer: False without a registered viewer; otherwise the exchange
      with the first one and, unless it raised, the set-up of new viewers, whose exception
      replaces the reply. */
  function CallSpec(os: Environment, t: Trace, specialization: string, cmd: string, debug: bool, listening: bool): Traced<Outcome<Reply>> {
    if |t.peers.registry| == 0 then Traced(t, Returned(NotConnected))
    else
      var x := Transmit(os, t, cmd, t.peers.registry[0].sock, debug, listening);
      if x.outcome.Raised? then Traced(x.trace, Raised(x.outcome.error))
      else
        var s := SetupSpec(os, x.trace, specialization, debug, listening);
        Traced(s.trace, if s.outcome.Some? then Raised(s.outcome.value) else Returned(Answer(x.outcome.value)))
  }

  /** Commands issued one after the other, each by writeCommandAndWaitForAnswer, as openFile
      does: the first exception propagates and ends the run, otherwise the outcome is the last
      command's. */
  function AskInTurn(os: Environment, t: Trace, specialization: string, cmds: seq<string>, debug: bool, listening: bool): Traced<Outcome<Reply>>
    requires cmds != []
    decreases |cmds|, 0
  {
    Continue(os, CallSpec(os, t, specialization, cmds[0], debug, listening), specialization, cmds[1..], debug, listening)
  }

  /** The run after a command whose outcome is x: it stops on an exception or when no command
      is left, and otherwise goes on from the trace x left. */
  function Continue(os: Environment, x: Traced<Outcome<Reply>>, specialization: string, rest: seq<string>, debug: bool, listening: bool): Traced<Outcome<Reply>>
    decreases |rest|, 1
  {
    if x.outcome.Raised? || rest == [] then x else AskInTurn(os, x.trace, specialization, rest, debug, listening)
  }

  /** Without a registered viewer every command returns False and nothing changes, however many
      commands are issued. */
  lemma {:induction false} AskInTurnNotConnected(os: Environment, t: Trace, specialization: string, cmds: seq<string>, debug: bool, listening: bool)
    requires cmds != [] && |t.peers.registry| == 0
    ensures AskInTurn(os, t, specialization, cmds, debug, listening) == Traced(t, Returned(NotConnected))
    decreases |cmds|
  {
    if |cmds| > 1 {
      AskInTurnNotConnected(os, t, specialization, cmds[1..], debug, listening);
      assert Continue(os, Traced(t, Returned(NotConnected)), specialization, cmds[1..], debug, listening)
        == AskInTurn(os, t, specialization, cmds[1..], debug, listening);
    }
  }

  /** waitForConnection: in debug mode without a listening socket the attribute lookup fails;
      otherwise one select() pass waiting for viewers, then the set-up of new viewers, and
      whether a viewer is registered. */
  function WaitSpec(os: Environment, t: Trace, specialization: string, debug: bool, listening: bool): Traced<Outcome<bool>> {
    if debug && !listening then Traced(t, Raised(AttributeError))
    else
      var pass := os.selectPass(t.selects);
      var t1 := t.(selects := t.selects + 1);
      if pass.SelectFailed? then Traced(t1, Returned(false))
      else
        var st := AfterPass(t.peers, pass, AwaitConnection, listening);
        if st.error.Some? then Traced(t1.(peers := st.peers), Raised(st.error.value))
        else
          var s := SetupSpec(os, t1.(peers := st.peers), specialization, debug, listening);
          Traced(s.trace, if s.outcome.Some? then Raised(s.outcome.value) else Returned(|s.trace.peers.registry| > 0))
  }

  /** Unless an exception ends it, the loop sends the command once to every viewer; it never
      un-sends, and an unencodable command is refused by the first viewer already. */
  lemma {:induction false} SetupRunSends(os: Environment, t: Trace, cmd: string, cs: seq<Conn>, debug: bool, listening: bool)
    ensures var r := SetupRun(os, t, cmd, cs, debug, listening);
      && r.trace.sends >= t.sends
      && (r.outcome.None? ==> r.trace.sends == t.sends + |cs|)
      && (cs != [] && !IsAscii(WireLine(cmd)) ==> r == Traced(t, Some(UnicodeEncodeError)))
    decreases |cs|
  {
    if cs != [] {
      var x := Transmit(os, t, cmd, cs[0].sock, debug, listening);
      if x.outcome.Raised? {
      } else {
        SetupRunSends(os, x.trace, cmd, cs[1..], debug, listening);
      }
    }
  }

  /** The outcome writeCommandAndWaitForAnswer computes is faithful to the exchange with the
      first registered viewer. */
  lemma CallSpecFaithful(os: Environment, t: Trace, specialization: string, cmd: string, debug: bool, listening: bool)
    ensures Faithful(Call(t.peers, cmd, os.sendSucceeds(t.sends), os.selectPass(t.selects), debug, listening,
                          CallSpec(os, t, specialization, cmd, debug, listening).outcome))
  {
  }

  /** A waiting pass that raises nothing is followed by the set-up of new viewers. */
  lemma WaitThenSetup(os: Environment, t: Trace, specialization: string, debug: bool, listening: bool)
    requires !(debug && !listening) && os.selectPass(t.selects).Ready?
    requires AfterPass(t.peers, os.selectPass(t.selects), AwaitConnection, listening).error.None?
    ensures var t1 := Trace(AfterPass(t.peers, os.selectPass(t.selects), AwaitConnection, listening).peers, t.sends, t.selects + 1);
      var s := SetupSpec(os, t1, specialization, debug, listening);
      WaitSpec(os, t, specialization, debug, listening)
        == Traced(s.trace, if s.outcome.Some? then Raised(s.outcome.value) else Returned(|s.trace.peers.registry| > 0))
  {
  }

  /** The cases of waitForConnection: the attribute error in debug mode without a listening
      socket; False, with nothing else changed, when select() fails; text from a registered
      viewer during the pass raises; and a returned value says whether a viewer is registered. */
  lemma WaitOutcomes(os: Environment, t: Trace, specialization: string, debug: bool, listening: bool)
    requires PeersValid(t.peers)
    ensures var w := WaitSpec(os, t, specialization, debug, listening); var pass := os.selectPass(t.selects);
      && (debug && !listening ==> w == Traced(t, Raised(AttributeError)))
      && (!(debug && !listening) && pass.SelectFailed? ==> w == Traced(t.(selects := t.selects + 1), Returned(false)))
      && (w.outcome.Returned? && !pass.SelectFailed? ==> (w.outcome.value <==> |w.trace.peers.registry| > 0))
      && (pass.Ready? && (exists s :: s in pass.results && pass.results[s].Received? && Registered(t.peers, s)) ==>
            w.outcome.Raised?)
  {
    var pass := os.selectPass(t.selects);
    if pass.Ready? && exists s :: s in pass.results && pass.results[s].Received? && Registered(t.peers, s) {
      var s :| s in pass.results && pass.results[s].Received? && Registered(t.peers, s);
      WaitingPassRaises(t.peers, pass, s, listening);
    }
  }

  /** With no read result reported, no watched peer socket is ready. */
  lemma {:induction false} PeersQuietWithoutResults(inputs: seq<Watched>, incoming: Option<Incoming>)
    requires forall i :: 0 <= i < |inputs| ==> inputs[i].Peer?
    ensures ReadyEvents(inputs, incoming, map[]) == []
    decreases |inputs|
  {
    if inputs != [] {
      PeersQuietWithoutResults(inputs[1..], incoming);
    }
  }

  /** A waiting pass in which only a new viewer connects accepts it: a first read that does not
      decode raises, and otherwise the viewer, queued by the accept, is set up in the same call. */
  lemma WaitAcceptsIncoming(os: Environment, t: Trace, specialization: string, debug: bool, inc: Incoming)
    requires os.selectPass(t.selects) == Ready(Some(inc), map[])
    ensures var w := WaitSpec(os, t, specialization, debug, true);
      var t1 := Trace(Accept(t.peers, inc.addr), t.sends, t.selects + 1);
      && (inc.firstRead == Undecodable ==> w == Traced(t1, Raised(UnicodeDecodeError)))
      && (inc.firstRead != Undecodable ==>
            && t1.peers.queue == t.peers.queue + [Conn(t.peers.nextSock, inc.addr)]
            && w.trace == SetupSpec(os, t1, specialization, debug, true).trace)
  {
    var ws := CreateInputList(t.peers.registry);
    PeersQuietWithoutResults(ws[1..], Some(inc));
    assert ReadyEvents(ws, Some(inc), map[]) == [AcceptEvent(inc)];
    var init := PassState(t.peers, "", None);
    var st := Step(init, AcceptEvent(inc), AwaitConnection, true);
    assert Run(init, [AcceptEvent(inc)], AwaitConnection, true) == Run(st, [], AwaitConnection, true);
    assert AfterPass(t.peers, os.selectPass(t.selects), AwaitConnection, true) == st;
    assert st.peers == Accept(t.peers, inc.addr);
  }

  // ---------------------------------------------------------------------------------------------
  // Bootstrap accounting

  function SockSet(cs: seq<Conn>): set<SocketId> {
    set i | 0 <= i < |cs| :: cs[i].sock
  }

  /** How often socket s is found queued, bootstrapped, abandoned (taken from the queue by a
      setupNewClients that raised before reaching it) or in flight (taken from the queue by the
      running setupNewClients and not reached yet). */
  ghost function Placement(p: Peers, bootstrapped: seq<SocketId>, abandoned: set<SocketId>, inFlight: set<SocketId>, s: SocketId): nat {
    multiset(Socks(p.queue))[s] + multiset(bootstrapped)[s]
      + (if s in abandoned then 1 else 0) + (if s in inFlight then 1 else 0)
  }

  /** Every socket handed out is in exactly one of those places; no other socket is in any. */
  ghost predicate AccountedIn(p: Peers, bootstrapped: seq<SocketId>, abandoned: set<SocketId>, inFlight: set<SocketId>) {
    forall s: SocketId :: Placement(p, bootstrapped, abandoned, inFlight, s) == if s < p.nextSock then 1 else 0
  }

  lemma SockSetCons(cs: seq<Conn>)
    requires cs != []
    ensures SockSet(cs) == {cs[0].sock} + SockSet(cs[1..])
  {
    forall x | x in SockSet(cs) ensures x in {cs[0].sock} + SockSet(cs[1..]) {
      var i :| 0 <= i < |cs| && cs[i].sock == x;
      if i > 0 { assert cs[1..][i - 1] == cs[i]; }
    }
    forall x | x in SockSet(cs[1..]) ensures x in SockSet(cs) {
      var i :| 0 <= i < |cs[1..]| && cs[1..][i].sock == x;
      assert cs[i + 1] == cs[1..][i];
    }
  }

  lemma DistinctTail(cs: seq<Conn>)
    requires cs != [] && DistinctSocks(cs)
    ensures DistinctSocks(cs[1..]) && cs[0].sock !in SockSet(cs[1..])
  {
    forall i | 0 <= i < |cs[1..]| ensures cs[1..][i].sock != cs[0].sock {
      assert cs[1..][i] == cs[i + 1];
    }
  }

  lemma {:induction false} DistinctCount(cs: seq<Conn>, s: SocketId)
    requires DistinctSocks(cs)
    ensures multiset(Socks(cs))[s] == if s in SockSet(cs) then 1 else 0
  {
    if cs != [] {
      assert Socks(cs) == [cs[0].sock] + Socks(cs[1..]);
      DistinctTail(cs);
      SockSetCons(cs);
      DistinctCount(cs[1..], s);
    }
  }

  lemma {:induction false} RangeCount(xs: seq<SocketId>, base: nat, s: SocketId)
    requires forall i :: 0 <= i < |xs| ==> xs[i] == base + i
    ensures multiset(xs)[s] == if base <= s < base + |xs| then 1 else 0
  {
    if xs != [] {
      assert xs == [xs[0]] + xs[1..];
      RangeCount(xs[1..], base + 1, s);
    }
  }

  /** Viewers accepted into the queue are accounted for as queued. */
  lemma AccountedAfterGrowth(p: Peers, q: Peers, b: seq<SocketId>, a: set<SocketId>, f: set<SocketId>)
    requires AccountedIn(p, b, a, f) && QueueGrowth(p, q)
    ensures AccountedIn(q, b, a, f)
  {
    var added := q.queue[|p.queue|..];
    assert q.queue == p.queue + added;
    assert Socks(q.queue) == Socks(p.queue) + Socks(added);
    forall s: SocketId
      ensures Placement(q, b, a, f, s) == if s < q.nextSock then 1 else 0
    {
      assert Placement(p, b, a, f, s) == if s < p.nextSock then 1 else 0;
      RangeCount(Socks(added), p.nextSock, s);
    }
  }

  /** setupNewClients takes the whole queue: its viewers are now in flight. */
  lemma AccountedDequeue(p: Peers, b: seq<SocketId>, a: set<SocketId>)
    requires PeersValid(p) && AccountedIn(p, b, a, {})
    ensures AccountedIn(p.(queue := []), b, a, SockSet(p.queue))
  {
    forall s: SocketId
      ensures Placement(p.(queue := []), b, a, SockSet(p.queue), s) == if s < p.nextSock then 1 else 0
    {
      assert Placement(p, b, a, {}, s) == if s < p.nextSock then 1 else 0;
      DistinctCount(p.queue, s);
    }
  }

  /** The viewer in flight at position i is bootstrapped: it leaves the in-flight set. */
  lemma AccountedBootstrap(p: Peers, b: seq<SocketId>, a: set<SocketId>, cs: seq<Conn>, i: nat)
    requires DistinctSocks(cs) && i < |cs| && AccountedIn(p, b, a, SockSet(cs[i..]))
    ensures AccountedIn(p, b + [cs[i].sock], a, SockSet(cs[i + 1..]))
  {
    var s0 := cs[i].sock;
    assert SockSet(cs[i..]) == SockSet(cs[i + 1..]) + {s0} by {
      forall x | x in SockSet(cs[i..]) ensures x in SockSet(cs[i + 1..]) + {s0} {
        var j :| 0 <= j < |cs[i..]| && cs[i..][j].sock == x;
        if j > 0 { assert cs[i + 1..][j - 1] == cs[i..][j]; }
      }
      assert cs[i..][0] == cs[i];
    }
    var b2, f, f2 := b + [s0], SockSet(cs[i..]), SockSet(cs[i + 1..]);
    assert s0 !in f2 by {
      forall x | x in f2 ensures x != s0 {
        var j :| 0 <= j < |cs[i + 1..]| && cs[i + 1..][j].sock == x;
        assert cs[i + 1..][j] == cs[i + 1 + j];
      }
    }
    assert multiset(b2) == multiset(b) + multiset{s0};
    forall s: SocketId
      ensures Placement(p, b2, a, f2, s) == if s < p.nextSock then 1 else 0
    {
      assert Placement(p, b, a, f, s) == if s < p.nextSock then 1 else 0;
    }
  }

  /** An exception ends setupNewClients: the viewers still in flight are abandoned. */
  lemma AccountedAbandon(p: Peers, b: seq<SocketId>, a: set<SocketId>, f: set<SocketId>)
    requires AccountedIn(p, b, a, f)
    ensures AccountedIn(p, b, a + f, {})
  {
    forall s: SocketId
      ensures Placement(p, b, a + f, {}, s) == if s < p.nextSock then 1 else 0
    {
      assert Placement(p, b, a, f, s) == if s < p.nextSock then 1 else 0;
    }
  }

  /** Once no setupNewClients is running, no viewer was bootstrapped twice, and every viewer
      ever accepted that is neither queued nor abandoned was bootstrapped exactly once. */
  lemma BootstrappedOnce(p: Peers, b: seq<SocketId>, a: set<SocketId>, s: SocketId)
    requires AccountedIn(p, b, a, {})
    ensures multiset(b)[s] <= 1
    ensures s < p.nextSock && s !in Socks(p.queue) && s !in a ==> multiset(b)[s] == 1
  {
    assert Placement(p, b, a, {}, s) == if s < p.nextSock then 1 else 0;
  }

  /** The sends of one line to each of the given viewers, in order. */
  function Sends(cs: seq<Conn>, line: string): (ts: seq<Transmission>)
    ensures |ts| == |cs| && forall k :: 0 <= k < |cs| ==> ts[k] == Transmission(cs[k].sock, line)
  {
    seq(|cs|, k requires 0 <= k < |cs| => Transmission(cs[k].sock, line))
  }

  /** Reaching one more viewer extends both the bootstrapped sockets and the sends by it. */
  lemma SendsStep(cs: seq<Conn>, i: nat, line: string)
    requires i < |cs|
    ensures Sends(cs[..i + 1], line) == Sends(cs[..i], line) + [Transmission(cs[i].sock, line)]
    ensures Socks(cs[..i + 1]) == Socks(cs[..i]) + [cs[i].sock]
  {
    assert cs[..i + 1] == cs[..i] + [cs[i]];
  }

  /** Requests logged one for one with calls: each call asked for its request's command, had its
      request's outcome, and is faithful to its exchange. */
  ghost predicate Logged(rs: seq<Request>, cs: seq<Call>)
    decreases |cs|
  {
    && |rs| == |cs|
    && (cs != [] ==>
          && Logged(rs[..|rs| - 1], cs[..|cs| - 1])
          && rs[|rs| - 1] == Request(cs[|cs| - 1].command, cs[|cs| - 1].outcome)
          && Faithful(cs[|cs| - 1]))
  }

  /** Every call of a log is faithful and matches its request. */
  lemma {:induction false} LoggedEach(rs: seq<Request>, cs: seq<Call>, k: nat)
    requires Logged(rs, cs) && k < |cs|
    ensures rs[k] == Request(cs[k].command, cs[k].outcome) && Faithful(cs[k])
    decreases |cs|
  {
    if k < |cs| - 1 {
      LoggedEach(rs[..|rs| - 1], cs[..|cs| - 1], k);
    }
  }

  lemma LoggedAppend(rs: seq<Request>, cs: seq<Call>, c: Call)
    requires Logged(rs, cs) && Faithful(c)
    ensures Logged(rs + [Request(c.command, c.outcome)], cs + [c])
  {
    assert (rs + [Request(c.command, c.outcome)])[..|rs|] == rs && (cs + [c])[..|cs|] == cs;
  }

  /** The calls made by openFile, seen as the tail of the call log. */
  lemma OpenFileLogged(before: seq<Request>, made: seq<Request>, after: seq<Request>, calls0: seq<Call>, madeCalls: seq<Call>, calls: seq<Call>)
    requires after == before + made && calls == calls0 + madeCalls && Logged(made, madeCalls)
    ensures |calls| >= |calls0| && calls[..|calls0|] == calls0
    ensures Logged(after[|before|..], calls[|calls0|..])
  {
    assert after[|before|..] == made && calls[|calls0|..] == madeCalls;
  }

  /** The requests openFile has made so far: its first commands, in order, each one answered
      but the last. */
  ghost predicate OpenFileSoFar(made: seq<Request>, cmds: seq<string>) {
    && |made| <= |cmds|
    && (forall k :: 0 <= k < |made| ==> made[k].command == cmds[k])
    && (forall k :: 0 <= k < |made| - 1 ==> made[k].outcome.Returned?)
  }

  /** One more command, sent after an answered one, keeps the requests in that shape. */
  lemma OpenFileNext(made: seq<Request>, cmds: seq<string>, q: Request)
    requires OpenFileSoFar(made, cmds) && |made| < |cmds| && q.command == cmds[|made|]
    requires made != [] ==> made[|made| - 1].outcome.Returned?
    ensures OpenFileSoFar(made + [q], cmds)
  {
  }

  /** One more command of openFile, logged as a request and a faithful call, extends the
      requests and calls it has made. */
  lemma OpenFileStep(requests0: seq<Request>, calls0: seq<Call>, made: seq<Request>, madeCalls: seq<Call>, cmds: seq<string>,
                     requests: seq<Request>, calls: seq<Call>, requests': seq<Request>, calls': seq<Call>, c: Call)
    requires requests == requests0 + made && calls == calls0 + madeCalls && Logged(made, madeCalls)
    requires OpenFileSoFar(made, cmds) && |made| < |cmds| && c.command == cmds[|made|]
    requires made != [] ==> made[|made| - 1].outcome.Returned?
    requires requests' == requests + [Request(c.command, c.outcome)] && calls' == calls + [c] && Faithful(c)
    ensures requests' == requests0 + (made + [Request(c.command, c.outcome)]) && calls' == calls0 + (madeCalls + [c])
    ensures Logged(made + [Request(c.command, c.outcome)], madeCalls + [c])
    ensures OpenFileSoFar(made + [Request(c.command, c.outcome)], cmds)
  {
    OpenFileNext(made, cmds, Request(c.command, c.outcome));
    LoggedAppend(made, madeCalls, c);
  }

  /** The requests made by openFile, seen as the tail of the request log. */
  lemma OpenFileMade(before: seq<Request>, made: seq<Request>, after: seq<Request>, cmds: seq<string>)
    requires after == before + made && 0 < |made| && OpenFileSoFar(made, cmds)
    requires made[|made| - 1].outcome.Returned? ==> |made| == |cmds|
    ensures |after| > |before| && after[..|before|] == before && after[|after| - 1] == made[|made| - 1]
    ensures Commands(after[|before|..]) <= cmds
    ensures forall k :: |before| <= k < |after| - 1 ==> after[k].outcome.Returned?
    ensures after[|after| - 1].outcome.Returned? ==> Commands(after[|before|..]) == cmds
  {
    assert after[|before|..] == made;
  }

  // ---------------------------------------------------------------------------------------------
  // The client

  class BespiceWaveInterface {
    const os: Environment
    var executablePath: string
    var debugMode: bool
    var specialization: string
    /** 0 until startServer has bound the listening socket. */
    var serverPort: nat
    var registry: seq<Conn>
    var queue: seq<Conn>
    var nextSock: SocketId
    var closed: set<SocketId>
    /** Every send() so far, in order. */
    var sent: seq<Transmission>
    /** The number of select() calls so far. */
    var selects: nat
    /** The argument vectors of the launched viewers. */
    var spawned: seq<seq<string>>
    ghost var bootstrapped: seq<SocketId>
    ghost var abandoned: set<SocketId>
    ghost var requests: seq<Request>
    /** Every writeCommandAndWaitForAnswer so far, with what decided its outcome. */
    ghost var calls: seq<Call>

    function State(): Peers
      reads this`registry, this`queue, this`nextSock, this`closed
    {
      Peers(registry, queue, nextSock, closed)
    }

    /** The client's place in its environment. */
    function Now(): Trace
      reads this`registry, this`queue, this`nextSock, this`closed, this`sent, this`selects
    {
      Trace(State(), |sent|, selects)
    }

    /** One writeCommandAndWaitForAnswer(cmd) with outcome r is logged since the old state, as a
        request and as a call faithful to its exchange. */
    twostate predicate Called(cmd: string, new r: Outcome<Reply>)
      reads this
    {
      && requests == old(requests) + [Request(cmd, r)]
      && calls == old(calls) + [Call(old(State()), cmd, os.sendSucceeds(|old(sent)|), os.selectPass(old(selects)), debugMode, serverPort != 0, r)]
      && Faithful(calls[|calls| - 1])
    }

    /** One writeCommandAndWaitForAnswer(cmd) with outcome r took the client from the old state
        to this one: it is logged, and the state is the one CallSpec gives. */
    twostate predicate Answered(cmd: string, new r: Outcome<Reply>)
      reads this
    {
      && Called(cmd, r)
      && Traced(Now(), r) == CallSpec(os, old(Now()), specialization, cmd, debugMode, serverPort != 0)
    }

    ghost predicate Valid()
      reads this`serverPort, this`registry, this`queue, this`nextSock, this`closed
    {
      && 0 < os.assignedPort
      && (serverPort == 0 || serverPort == os.assignedPort)
      && PeersValid(State())
    }

    ghost predicate Accounted()
      reads this`registry, this`queue, this`nextSock, this`closed, this`bootstrapped, this`abandoned
    {
      AccountedIn(State(), bootstrapped, abandoned, {})
    }

    constructor(os: Environment)
      requires 0 < os.assignedPort
      ensures this.os == os && Valid() && Accounted()
      ensures executablePath == "" && !debugMode && specialization == "" && serverPort == 0
      ensures registry == [] && queue == [] && sent == [] && selects == 0 && spawned == [] && requests == [] && calls == []
      ensures nextSock == 0 && closed == {} && bootstrapped == [] && abandoned == {}
    {
      this.os := os;
      executablePath, debugMode, specialization, serverPort := "", false, "", 0;
      registry, queue, nextSock, closed := [], [], 0, {};
      sent, selects, spawned := [], 0, [];
      bootstrapped, abandoned, requests, calls := [], {}, [], [];
    }

    method SetExecutablePath(path: string)
      modifies this`executablePath
      ensures executablePath == path
    {
      executablePath := path;
    }

    method EnableDebugMode(flag: bool)
      modifies this`debugMode
      ensures debugMode == flag
    {
      debugMode := flag;
    }

    method SetSpecialization(spec: string)
      modifies this`specialization
      ensures specialization == spec
    {
      specialization := spec;
    }

    /** Binds the listening socket the first time; later calls change nothing. */
    method StartServer() returns (ok: bool)
      requires Valid()
      modifies this`serverPort
      ensures Valid() && ok
      ensures serverPort == if old(serverPort) == 0 then os.assignedPort else old(serverPort)
      ensures serverPort != 0
    {
      if serverPort == 0 {
        serverPort := os.assignedPort;
      }
      ok := true;
    }

    method LaunchExecutable() returns (ok: bool)
      requires Valid()
      modifies this`serverPort, this`spawned
      ensures Valid() && serverPort != 0 && (old(serverPort) != 0 ==> serverPort == old(serverPort))
      ensures ok == os.pathExists(executablePath)
      ensures spawned == old(spawned) + if ok then [LaunchArguments(executablePath, serverPort)] else []
    {
      var started := StartServer();
      ok := false;
      if started && os.pathExists(executablePath) {
        spawned := spawned + [LaunchArguments(executablePath, serverPort)];
        ok := true;
      }
    }

    method CheckIsConnected() returns (connected: bool)
      ensures connected <==> |registry| > 0
    {
      connected := |registry| > 0;
    }

    /** Accepts the waiting viewer: it goes to the end of the registry and of the queue. */
    method AcceptConnection(inc: Incoming) returns (r: Outcome<bool>)
      requires Valid()
      modifies this`registry, this`queue, this`nextSock
      ensures Valid() && QueueGrowth(old(State()), State())
      ensures serverPort == 0 ==> r == Raised(AttributeError) && State() == old(State())
      ensures serverPort != 0 ==> r == FirstReadOutcome(inc.firstRead) && State() == Accept(old(State()), inc.addr)
    {
      if serverPort == 0 {
        return Raised(AttributeError);
      }
      var c := Conn(nextSock, inc.addr);
      nextSock := nextSock + 1;
      registry := registry + [c];
      queue := queue + [c];
      r := FirstReadOutcome(inc.firstRead);
    }

    /** Closes the socket and removes its entries while iterating over the registry. */
    method RemoveConnection(s: SocketId)
      requires Valid() && s < nextSock
      modifies this`registry, this`closed
      ensures Valid()
      ensures State() == Drop(old(State()), s)
    {
      closed := closed + {s};
      var i := 0;
      ghost var removed := false;
      while i < |registry|
        invariant 0 <= i <= |registry| + 1
        invariant !removed ==> i <= |registry|
        invariant closed == old(closed) + {s}
        invariant !removed ==> registry == old(registry) && forall k :: 0 <= k < i ==> registry[k].sock != s
        invariant removed ==> registry == Without(old(registry), {s})
        invariant removed ==> forall k :: 0 <= k < |registry| ==> registry[k].sock != s
      {
        if registry[i].sock == s {
          WithoutAt(registry, i);
          WithoutMembers(registry, {s});
          registry := registry[..i] + registry[i + 1..];
          removed := true;
          forall k | 0 <= k < |registry| ensures registry[k].sock != s {
            assert registry[k] in Without(old(registry), {s});
          }
        }
        i := i + 1;
      }
      if !removed {
        WithoutAbsent(registry, {s});
      }
      DropValid(old(State()), s);
    }

    /** The handler of one ready event: acceptNewConnection for the listening socket, otherwise
        the read of a client socket, dropping it on end of stream or a failed read. */
    method HandleEvent(ev: Event, mode: Mode, answer0: string) returns (answer: string, error: Option<Exception>)
      requires Valid() && (ev.ReadEvent? ==> ev.sock < nextSock)
      modifies this`registry, this`queue, this`nextSock, this`closed
      ensures Valid() && QueueGrowth(old(State()), State())
      ensures PassState(State(), answer, error) == Step(PassState(old(State()), answer0, None), ev, mode, serverPort != 0)
    {
      answer, error := answer0, None;
      match ev {
        case AcceptEvent(inc) =>
          var o := AcceptConnection(inc);
          if o.Raised? {
            error := Some(o.error);
          }
        case ReadEvent(s, r) =>
          match r {
            case EndOfStream =>
              RemoveConnection(s);
            case ReadFailed =>
              RemoveConnection(s);
            case Received(t) =>
              match mode {
                case AwaitConnection =>
                  error := Some(NameError);
                case AwaitReply(target, _) =>
                  if s == target {
                    answer := Strip(t);
                  }
              }
            case Undecodable =>
              match mode {
                case AwaitConnection =>
                  error := Some(UnicodeDecodeError);
                case AwaitReply(target, debug) =>
                  if s == target || debug {
                    error := Some(UnicodeDecodeError);
                  }
              }
          }
      }
    }

    /** The handlers of one select() result, in order, until one raises. */
    method ServicePass(evs: seq<Event>, mode: Mode) returns (answer: string, error: Option<Exception>)
      requires Valid() && EventsBelow(evs, nextSock)
      modifies this`registry, this`queue, this`nextSock, this`closed
      ensures Valid() && QueueGrowth(old(State()), State())
      ensures var st := Run(PassState(old(State()), "", None), evs, mode, serverPort != 0);
        State() == st.peers && answer == st.answer && error == st.error
    {
      answer, error := "", None;
      var i := 0;
      while i < |evs| && error.None?
        invariant 0 <= i <= |evs|
        invariant Valid() && QueueGrowth(old(State()), State())
        invariant Run(PassState(State(), answer, error), evs[i..], mode, serverPort != 0)
               == Run(PassState(old(State()), "", None), evs, mode, serverPort != 0)
      {
        assert evs[i].ReadEvent? ==> evs[i].sock < nextSock;
        ghost var before := PassState(State(), answer, error);
        answer, error := HandleEvent(evs[i], mode, answer);
        assert PassState(State(), answer, error) == Step(before, evs[i], mode, serverPort != 0);
        assert evs[i..][1..] == evs[i + 1..];
        i := i + 1;
      }
      if i < |evs| {
        RunStops(PassState(State(), answer, error), evs[i..], mode, serverPort != 0);
      }
    }

    /** writeCommandToSocketAndWaitForAnswer: sends the command to `conn` and makes one pass. */
    method WriteCommandToSocket(cmd: string, conn: Conn) returns (r: Outcome<string>)
      requires Valid() && conn.sock < nextSock
      modifies this`registry, this`queue, this`nextSock, this`closed, this`sent, this`selects
      ensures Valid() && QueueGrowth(old(State()), State())
      ensures var x := CommandExchange(old(State()), cmd, conn.sock, os.sendSucceeds(|old(sent)|), os.selectPass(old(selects)), debugMode, serverPort != 0);
        State() == x.peers && r == x.reply
      ensures Traced(Now(), r) == Transmit(os, old(Now()), cmd, conn.sock, debugMode, serverPort != 0)
      ensures r == Raised(UnicodeEncodeError) <==> !IsAscii(WireLine(cmd))
      ensures !IsAscii(WireLine(cmd)) ==> sent == old(sent) && selects == old(selects)
      ensures IsAscii(WireLine(cmd)) ==> sent == old(sent) + [Transmission(conn.sock, WireLine(cmd))]
      ensures IsAscii(WireLine(cmd)) ==>
        selects == old(selects) + if conn.sock !in old(closed) && os.sendSucceeds(|old(sent)|) then 1 else 0
    {
      var line := Strip(cmd) + "\n";
      if !IsAscii(line) {
        return Raised(UnicodeEncodeError);
      }
      var delivered := conn.sock !in closed && os.sendSucceeds(|sent|);
      sent := sent + [Transmission(conn.sock, line)];
      if !delivered {
        RemoveConnection(conn.sock);
        return Returned("");
      }
      var pass := os.selectPass(selects);
      selects := selects + 1;
      if pass.SelectFailed? {
        return Returned("");
      }
      var evs := ReadyEvents(CreateInputList(registry), pass.incoming, pass.results);
      PassEventsBelow(State(), pass.incoming, pass.results);
      RunNoEncodeError(PassState(State(), "", None), evs, AwaitReply(conn.sock, debugMode), serverPort != 0);
      var answer, error := ServicePass(evs, AwaitReply(conn.sock, debugMode));
      r := if error.Some? then Raised(error.value) else Returned(answer);
    }

    /** What the loop over the viewers taken from the queue keeps, with i viewers reached: the
        bookkeeping is valid and has only grown since p0, the viewers from i on are in flight, and
        the ones before i were sent the line and are bootstrapped, in order. */
    ghost predicate SetupAt(cs: seq<Conn>, i: nat, p0: Peers, b0: seq<SocketId>, sent0: seq<Transmission>, line: string)
      reads this`serverPort, this`registry, this`queue, this`nextSock, this`closed, this`bootstrapped, this`abandoned, this`sent
    {
      && i <= |cs| && Valid() && QueueGrowth(p0, State())
      && DistinctSocks(cs) && (forall k :: 0 <= k < |cs| ==> cs[k].sock < p0.nextSock)
      && AccountedIn(State(), bootstrapped, abandoned, SockSet(cs[i..]))
      && bootstrapped == b0 + Socks(cs[..i])
      && sent == sent0 + Sends(cs[..i], line)
    }

    /** The bookkeeping of a viewer reached by that loop: it leaves the in-flight set and is
        appended to the bootstrapped viewers. */
    method MarkReached(cs: seq<Conn>, i: nat, ghost p0: Peers, ghost b0: seq<SocketId>, ghost sent0: seq<Transmission>, line: string)
      requires i < |cs| && Valid() && QueueGrowth(p0, State())
      requires DistinctSocks(cs) && (forall k :: 0 <= k < |cs| ==> cs[k].sock < p0.nextSock)
      requires AccountedIn(State(), bootstrapped, abandoned, SockSet(cs[i..]))
      requires bootstrapped == b0 + Socks(cs[..i])
      requires sent == sent0 + Sends(cs[..i], line) + [Transmission(cs[i].sock, line)]
      modifies this`bootstrapped
      ensures bootstrapped == old(bootstrapped) + [cs[i].sock]
      ensures SetupAt(cs, i + 1, p0, b0, sent0, line)
    {
      AccountedBootstrap(State(), bootstrapped, abandoned, cs, i);
      bootstrapped := bootstrapped + [cs[i].sock];
      SendsStep(cs, i, line);
    }

    /** The body of that loop: the command goes to the viewer at position i, which is reached
        (and leaves the in-flight set) unless encoding the command fails. */
    method SetUpViewer(cmd: string, cs: seq<Conn>, i: nat, ghost p0: Peers, ghost b0: seq<SocketId>, ghost sent0: seq<Transmission>)
      returns (r: Outcome<string>, next: nat)
      requires i < |cs| && SetupAt(cs, i, p0, b0, sent0, WireLine(cmd))
      modifies this`registry, this`queue, this`nextSock, this`closed, this`sent, this`selects, this`bootstrapped
      ensures r == Raised(UnicodeEncodeError) <==> !IsAscii(WireLine(cmd))
      ensures next == if r == Raised(UnicodeEncodeError) then i else i + 1
      ensures SetupAt(cs, next, p0, b0, sent0, WireLine(cmd))
      ensures Traced(Now(), r) == Transmit(os, old(Now()), cmd, cs[i].sock, debugMode, serverPort != 0)
    {
      ghost var before := State();
      assert cs[i].sock < p0.nextSock;
      r := WriteCommandToSocket(cmd, cs[i]);
      QueueGrowthTrans(p0, before, State());
      AccountedAfterGrowth(before, State(), bootstrapped, abandoned, SockSet(cs[i..]));
      next := i;
      if r != Raised(UnicodeEncodeError) {
        MarkReached(cs, i, p0, b0, sent0, WireLine(cmd));
        next := i + 1;
      }
    }

    /** The loop of setupNewClients over the viewers taken from the queue; an exception ends it
        and leaves the viewers not reached yet abandoned. */
    method SetUpViewers(cmd: string, cs: seq<Conn>) returns (error: Option<Exception>)
      requires Valid() && DistinctSocks(cs) && (forall k :: 0 <= k < |cs| ==> cs[k].sock < nextSock)
      requires AccountedIn(State(), bootstrapped, abandoned, SockSet(cs))
      modifies this`registry, this`queue, this`nextSock, this`closed, this`sent, this`selects
      modifies this`bootstrapped, this`abandoned
      ensures Valid() && AccountedIn(State(), bootstrapped, abandoned, {}) && QueueGrowth(old(State()), State())
      ensures |sent| >= |old(sent)| && sent[..|old(sent)|] == old(sent)
      ensures error.None? ==> bootstrapped == old(bootstrapped) + Socks(cs) && sent == old(sent) + Sends(cs, WireLine(cmd))
      ensures error == Some(UnicodeEncodeError) <==> |cs| > 0 && !IsAscii(WireLine(cmd))
      ensures Traced(Now(), error) == SetupRun(os, old(Now()), cmd, cs, debugMode, serverPort != 0)
    {
      error := None;
      var i := 0;
      assert cs[i..] == cs && cs[..i] == [];
      ghost var final := SetupRun(os, Now(), cmd, cs, debugMode, serverPort != 0);
      while i < |cs| && error.None?
        invariant SetupAt(cs, i, old(State()), old(bootstrapped), old(sent), WireLine(cmd))
        invariant i > 0 ==> IsAscii(WireLine(cmd))
        invariant error.Some? ==> |cs| > 0 && (error == Some(UnicodeEncodeError) <==> !IsAscii(WireLine(cmd)))
        invariant error.None? ==> SetupRun(os, Now(), cmd, cs[i..], debugMode, serverPort != 0) == final
        invariant error.Some? ==> Traced(Now(), error) == final
        decreases |cs| - i, if error.None? then 1 else 0
      {
        SetupRunAt(os, Now(), cmd, cs, i, debugMode, serverPort != 0);
        var r;
        r, i := SetUpViewer(cmd, cs, i, old(State()), old(bootstrapped), old(sent));
        if r.Raised? {
          error := Some(r.error);
        }
      }
      AccountedAbandon(State(), bootstrapped, abandoned, SockSet(cs[i..]));
      abandoned := abandoned + SockSet(cs[i..]);
      if error.None? {
        assert cs[..i] == cs;
      }
    }

    /** The swap at the start of setupNewClients: the queue is taken whole and left empty; its
        viewers are now in flight. */
    method TakeQueue() returns (cs: seq<Conn>)
      requires Valid() && Accounted()
      modifies this`queue
      ensures cs == old(queue) && queue == []
      ensures Valid() && DistinctSocks(cs) && (forall k :: 0 <= k < |cs| ==> cs[k].sock < nextSock)
      ensures AccountedIn(State(), bootstrapped, abandoned, SockSet(cs))
    {
      cs := queue;
      AccountedDequeue(State(), bootstrapped, abandoned);
      queue := [];
    }

    /** Sends one command to every viewer taken from the queue; viewers accepted meanwhile stay
        queued for the next call. */
    method SetupNewClients() returns (error: Option<Exception>)
      requires Valid() && Accounted()
      modifies this`registry, this`queue, this`nextSock, this`closed, this`sent, this`selects
      modifies this`bootstrapped, this`abandoned
      ensures Valid() && Accounted()
      ensures QueueGrowth(old(State()).(queue := []), State())
      ensures |sent| >= |old(sent)| && sent[..|old(sent)|] == old(sent)
      ensures error.None? ==> bootstrapped == old(bootstrapped) + Socks(old(queue))
      ensures error.None? ==> sent == old(sent) + Sends(old(queue), WireLine(BootstrapCommand(specialization)))
      ensures error == Some(UnicodeEncodeError) <==> |old(queue)| > 0 && !IsAscii(specialization)
      ensures Traced(Now(), error) == SetupSpec(os, old(Now()), specialization, debugMode, serverPort != 0)
    {
      error := None;
      if |queue| > 0 {
        var newClients := TakeQueue();
        var cmd := BootstrapCommand(specialization);
        BootstrapEncodable(specialization);
        error := SetUpViewers(cmd, newClients);
      }
    }

    /** The handlers of a select() result while waiting for viewers to connect. */
    method HandleWaitPass(pass: Pass) returns (err: Option<Exception>)
      requires Valid() && Accounted() && pass.Ready?
      modifies this`registry, this`queue, this`nextSock, this`closed
      ensures Valid() && Accounted() && QueueGrowth(old(State()), State())
      ensures var st := AfterPass(old(State()), pass, AwaitConnection, serverPort != 0);
        State() == st.peers && err == st.error
      ensures (exists s :: s in pass.results && pass.results[s].Received? && Registered(old(State()), s)) ==> err.Some?
    {
      if s :| s in pass.results && pass.results[s].Received? && Registered(State(), s) {
        WaitingPassRaises(State(), pass, s, serverPort != 0);
      }
      var evs := ReadyEvents(CreateInputList(registry), pass.incoming, pass.results);
      PassEventsBelow(State(), pass.incoming, pass.results);
      var _, e := ServicePass(evs, AwaitConnection);
      AccountedAfterGrowth(old(State()), State(), bootstrapped, abandoned, {});
      err := e;
    }

    /** One select() pass while waiting for viewers to connect, then the set-up of new viewers. */
    method WaitForConnection() returns (r: Outcome<bool>)
      requires Valid() && Accounted()
      modifies this`registry, this`queue, this`nextSock, this`closed, this`sent, this`selects
      modifies this`bootstrapped, this`abandoned
      ensures Valid() && Accounted()
      ensures Traced(Now(), r) == WaitSpec(os, old(Now()), specialization, debugMode, serverPort != 0)
    {
      if debugMode && serverPort == 0 {
        return Raised(AttributeError);
      }
      ghost var t0 := Now();
      var pass := os.selectPass(selects);
      selects := selects + 1;
      if pass.SelectFailed? {
        return Returned(false);
      }
      var err := HandleWaitPass(pass);
      if err.Some? {
        return Raised(err.value);
      }
      ghost var t1 := Now();
      assert t1 == Trace(AfterPass(t0.peers, pass, AwaitConnection, serverPort != 0).peers, t0.sends, t0.selects + 1);
      WaitThenSetup(os, t0, specialization, debugMode, serverPort != 0);
      var setupError := SetupNewClients();
      if setupError.Some? {
        return Raised(setupError.value);
      }
      var connected := CheckIsConnected();
      r := Returned(connected);
    }

    /** The branch of writeCommandAndWaitForAnswer with a registered viewer: the exchange with
        the first one, then the set-up of new viewers. */
    method AskFirstViewer(cmd: string) returns (r: Outcome<Reply>)
      requires Valid() && Accounted() && |registry| > 0
      modifies this`registry, this`queue, this`nextSock, this`closed, this`sent, this`selects
      modifies this`bootstrapped, this`abandoned
      ensures Valid() && Accounted()
      ensures Faithful(Call(old(State()), cmd, os.sendSucceeds(|old(sent)|), os.selectPass(old(selects)), debugMode, serverPort != 0, r))
      ensures Traced(Now(), r) == CallSpec(os, old(Now()), specialization, cmd, debugMode, serverPort != 0)
    {
      var conn := registry[0];
      var answer := WriteCommandToSocket(cmd, conn);
      AccountedAfterGrowth(old(State()), State(), bootstrapped, abandoned, {});
      if answer.Raised? {
        r := Raised(answer.error);
      } else {
        var setupError := SetupNewClients();
        r := if setupError.Some? then Raised(setupError.value) else Returned(Answer(answer.value));
      }
    }

    /** Sends the command to the first registered viewer and returns its reply; False without
        sending anything when no viewer is registered. The call is logged in `calls`, where
        Faithful relates its outcome to the exchange with that viewer. */
    method WriteCommandAndWaitForAnswer(cmd: string) returns (r: Outcome<Reply>)
      requires Valid() && Accounted()
      modifies this`registry, this`queue, this`nextSock, this`closed, this`sent, this`selects
      modifies this`bootstrapped, this`abandoned, this`requests, this`calls
      ensures Valid() && Accounted()
      ensures Answered(cmd, r)
      ensures |old(registry)| == 0 ==> State() == old(State()) && sent == old(sent) && selects == old(selects)
    {
      if |registry| == 0 {
        r := Returned(NotConnected);
      } else {
        r := AskFirstViewer(cmd);
      }
      requests := requests + [Request(cmd, r)];
      calls := calls + [Call(old(State()), cmd, os.sendSucceeds(|old(sent)|), os.selectPass(old(selects)), debugMode, serverPort != 0, r)];
    }

    method GetStatus() returns (r: Outcome<Reply>)
      requires Valid() && Accounted()
      modifies this`registry, this`queue, this`nextSock, this`closed, this`sent, this`selects
      modifies this`bootstrapped, this`abandoned, this`requests, this`calls
      ensures Valid() && Accounted()
      ensures Answered(StatusCommand, r)
    {
      r := WriteCommandAndWaitForAnswer(StatusCommand);
    }

    /** writeCommandAndWaitForAnswer as the commands issued in sequence see it: one more entry
        in the request log. */
    method Ask(cmd: string) returns (r: Outcome<Reply>)
      requires Valid() && Accounted()
      modifies this`registry, this`queue, this`nextSock, this`closed, this`sent, this`selects
      modifies this`bootstrapped, this`abandoned, this`requests, this`calls
      ensures Valid() && Accounted()
      ensures Answered(cmd, r)
    {
      r := WriteCommandAndWaitForAnswer(cmd);
    }

    /** Opens a waveform file, optionally with the netlist naming equivalent nets, and links it
        to the schematic; the reply of the last command is returned. */
    method OpenFile(waveformFile: string, netlistFile: string) returns (r: Outcome<Reply>)
      requires Valid() && Accounted()
      modifies this`registry, this`queue, this`nextSock, this`closed, this`sent, this`selects
      modifies this`bootstrapped, this`abandoned, this`requests, this`calls
      ensures Valid() && Accounted()
      ensures |requests| > |old(requests)| && requests[..|old(requests)|] == old(requests)
      ensures Commands(requests[|old(requests)|..]) <= OpenFileCommands(waveformFile, netlistFile)
      ensures requests[|requests| - 1].outcome == r
      ensures forall k :: |old(requests)| <= k < |requests| - 1 ==> requests[k].outcome.Returned?
      ensures r.Returned? ==> Commands(requests[|old(requests)|..]) == OpenFileCommands(waveformFile, netlistFile)
      ensures |calls| > |old(calls)| && calls[..|old(calls)|] == old(calls)
      ensures Logged(requests[|old(requests)|..], calls[|old(calls)|..])
      ensures calls[|old(calls)|].before == old(State())
      ensures Traced(Now(), r) == AskInTurn(os, old(Now()), specialization, OpenFileCommands(waveformFile, netlistFile), debugMode, serverPort != 0)
    {
      ghost var made, madeCalls;
      r, made, madeCalls := SendOpenFileCommands(waveformFile, netlistFile);
      OpenFileMade(old(requests), made, requests, OpenFileCommands(waveformFile, netlistFile));
      OpenFileLogged(old(requests), made, requests, old(calls), madeCalls, calls);
    }

    /** The commands of openFile, each asked as long as none has raised; the requests and calls
        it makes are returned. */
    method SendOpenFileCommands(waveformFile: string, netlistFile: string) returns (r: Outcome<Reply>, ghost made: seq<Request>, ghost madeCalls: seq<Call>)
      requires Valid() && Accounted()
      modifies this`registry, this`queue, this`nextSock, this`closed, this`sent, this`selects
      modifies this`bootstrapped, this`abandoned, this`requests, this`calls
      ensures Sent(OpenFileCommands(waveformFile, netlistFile), old(requests), old(calls), old(State()), made, madeCalls, r,
                   AskInTurn(os, old(Now()), specialization, OpenFileCommands(waveformFile, netlistFile), debugMode, serverPort != 0))
    {
      ghost var cmds := OpenFileCommands(waveformFile, netlistFile);
      // `rest` is what openFile has still to send, and `goal` what sending all of it gives.
      ghost var rest := cmds;
      ghost var goal := AskInTurn(os, Now(), specialization, rest, debugMode, serverPort != 0);
      assert cmds[0..] == rest;
      assert Sending(cmds, rest, old(requests), old(calls), old(State()), [], [], goal);
      r, made, madeCalls := AskLogged(OpenFileCommand(waveformFile), cmds, rest, old(requests), old(calls), old(State()), [], [], goal);
      // An exception propagates out of openFile: the later commands are sent only while none
      // was raised.
      if r.Returned? {
        r, made, madeCalls := SendRest(waveformFile, netlistFile, cmds, rest[1..], old(requests), old(calls), old(State()), made, madeCalls, goal);
      }
    }

    /** The commands of openFile after open_file: equivalent_nets when there is a netlist, then
        link_to_schematic, each asked as long as none has raised. */
    method SendRest(waveformFile: string, netlistFile: string, ghost cmds: seq<string>, ghost rest: seq<string>,
                    ghost requests0: seq<Request>, ghost calls0: seq<Call>, ghost before: Peers,
                    ghost made: seq<Request>, ghost madeCalls: seq<Call>, ghost goal: Traced<Outcome<Reply>>)
      returns (r: Outcome<Reply>, ghost made': seq<Request>, ghost madeCalls': seq<Call>)
      requires cmds == OpenFileCommands(waveformFile, netlistFile) && rest == cmds[1..]
      requires Sending(cmds, rest, requests0, calls0, before, made, madeCalls, goal)
      modifies this`registry, this`queue, this`nextSock, this`closed, this`sent, this`selects
      modifies this`bootstrapped, this`abandoned, this`requests, this`calls
      ensures Sent(cmds, requests0, calls0, before, made', madeCalls', r, goal)
    {
      ghost var rest' := rest;
      made', madeCalls' := made, madeCalls;
      if netlistFile != "" {
        r, made', madeCalls' := AskLogged(EquivalentNetsCommand(waveformFile, netlistFile), cmds, rest', requests0, calls0, before, made', madeCalls', goal);
        if r.Raised? {
          return;
        }
        rest' := rest'[1..];
      }
      r, made', madeCalls' := AskLogged(LinkToSchematicCommand(waveformFile), cmds, rest', requests0, calls0, before, made', madeCalls', goal);
    }

    /** openFile part way: `made` and `madeCalls` are the requests and calls it has logged since
        `requests0` and `calls0`, starting from the bookkeeping `before`, each answered; `rest`
        is what it has still to send, and running it from here gives `goal`. */
    ghost predicate Sending(cmds: seq<string>, rest: seq<string>, requests0: seq<Request>, calls0: seq<Call>, before: Peers,
                            made: seq<Request>, madeCalls: seq<Call>, goal: Traced<Outcome<Reply>>)
      reads this
    {
      && Valid() && Accounted()
      && requests == requests0 + made && calls == calls0 + madeCalls && Logged(made, madeCalls)
      && OpenFileSoFar(made, cmds) && |made| < |cmds| && rest == cmds[|made|..]
      && (made == [] ==> State() == before && AskInTurn(os, Now(), specialization, rest, debugMode, serverPort != 0) == goal)
      && (made != [] ==> && madeCalls[0].before == before && made[|made| - 1].outcome.Returned?
                         && Continue(os, Traced(Now(), made[|made| - 1].outcome), specialization, rest, debugMode, serverPort != 0) == goal)
    }

    /** openFile done: its requests and calls are logged, the last outcome is r, every command
        was sent once r is returned, and the run reached `goal`. */
    ghost predicate Sent(cmds: seq<string>, requests0: seq<Request>, calls0: seq<Call>, before: Peers,
                         made: seq<Request>, madeCalls: seq<Call>, r: Outcome<Reply>, goal: Traced<Outcome<Reply>>)
      reads this
    {
      && Valid() && Accounted()
      && requests == requests0 + made && calls == calls0 + madeCalls && Logged(made, madeCalls)
      && 0 < |made| && OpenFileSoFar(made, cmds) && made[|made| - 1].outcome == r
      && (r.Returned? ==> |made| == |cmds|)
      && madeCalls[0].before == before
      && Traced(Now(), r) == goal
    }

    /** The first of the commands openFile has still to send: it is asked, and the run of the
        others from the state it leaves is still `goal`. */
    method AskAt(cmd: string, ghost rest: seq<string>, ghost goal: Traced<Outcome<Reply>>) returns (r: Outcome<Reply>, ghost c: Call)
      requires Valid() && Accounted()
      requires rest != [] && cmd == rest[0]
      requires AskInTurn(os, Now(), specialization, rest, debugMode, serverPort != 0) == goal
      modifies this`registry, this`queue, this`nextSock, this`closed, this`sent, this`selects
      modifies this`bootstrapped, this`abandoned, this`requests, this`calls
      ensures Valid() && Accounted()
      ensures requests == old(requests) + [Request(cmd, r)] && calls == old(calls) + [c]
      ensures c.before == old(State()) && c.command == cmd && c.outcome == r && Faithful(c)
      ensures Continue(os, Traced(Now(), r), specialization, rest[1..], debugMode, serverPort != 0) == goal
    {
      r := Ask(cmd);
      c := calls[|calls| - 1];
    }

    /** One command of openFile, the first of `rest`: it is asked and logged, and openFile goes
        on from there unless it raised or was the last. */
    method AskLogged(cmd: string, ghost cmds: seq<string>, ghost rest: seq<string>, ghost requests0: seq<Request>, ghost calls0: seq<Call>,
                     ghost before: Peers, ghost made: seq<Request>, ghost madeCalls: seq<Call>, ghost goal: Traced<Outcome<Reply>>)
      returns (r: Outcome<Reply>, ghost made': seq<Request>, ghost madeCalls': seq<Call>)
      requires Sending(cmds, rest, requests0, calls0, before, made, madeCalls, goal) && cmd == rest[0]
      modifies this`registry, this`queue, this`nextSock, this`closed, this`sent, this`selects
      modifies this`bootstrapped, this`abandoned, this`requests, this`calls
      ensures made' == made + [Request(cmd, r)]
      ensures r.Returned? && |rest| > 1 ==> Sending(cmds, rest[1..], requests0, calls0, before, made', madeCalls', goal)
      ensures r.Raised? || |rest| == 1 ==> Sent(cmds, requests0, calls0, before, made', madeCalls', r, goal)
    {
      assert AskInTurn(os, Now(), specialization, rest, debugMode, serverPort != 0) == goal;
      ghost var c;
      r, c := AskAt(cmd, rest, goal);
      OpenFileStep(requests0, calls0, made, madeCalls, cmds, old(requests), old(calls), requests, calls, c);
      made', madeCalls' := made + [Request(cmd, r)], madeCalls + [c];
      assert madeCalls'[0].before == before;
      assert rest[1..] == cmds[|made'|..];
    }

    method AddCurveToCurrentPlot(curveName: string, color: string) returns (r: Outcome<Reply>)
      requires Valid() && Accounted()
      modifies this`registry, this`queue, this`nextSock, this`closed, this`sent, this`selects
      modifies this`bootstrapped, this`abandoned, this`requests, this`calls
      ensures Valid() && Accounted()
      ensures Answered(AddCurveCommand(curveName, color), r)
    {
      r := WriteCommandAndWaitForAnswer(AddCurveCommand(curveName, color));
    }

    method AddVoltageOnNodeToCurrentPlot(nodeName: string, color: string) returns (r: Outcome<Reply>)
      requires Valid() && Accounted()
      modifies this`registry, this`queue, this`nextSock, this`closed, this`sent, this`selects
      modifies this`bootstrapped, this`abandoned, this`requests, this`calls
      ensures Valid() && Accounted()
      ensures Answered(AddVoltageCommand(nodeName, color), r)
    {
      r := WriteCommandAndWaitForAnswer(AddVoltageCommand(nodeName, color));
    }

    method AddCurrentThroughDeviceToCurrentPlot(deviceName: string, color: string) returns (r: Outcome<Reply>)
      requires Valid() && Accounted()
      modifies this`registry, this`queue, this`nextSock, this`closed, this`sent, this`selects
      modifies this`bootstrapped, this`abandoned, this`requests, this`calls
      ensures Valid() && Accounted()
      ensures Answered(AddCurrentCommand(deviceName, color), r)
    {
      r := WriteCommandAndWaitForAnswer(AddCurrentCommand(deviceName, color));
    }

    method OpenNewPlot(plotName: string, plotType: string) returns (r: Outcome<Reply>)
      requires Valid() && Accounted()
      modifies this`registry, this`queue, this`nextSock, this`closed, this`sent, this`selects
      modifies this`bootstrapped, this`abandoned, this`requests, this`calls
      ensures Valid() && Accounted()
      ensures Answered(AddPlotCommand(plotName, plotType), r)
    {
      r := WriteCommandAndWaitForAnswer(AddPlotCommand(plotName, plotType));
    }
  }
}
