/** The gateway session and its websocket as a state machine over library callbacks: reassembly of
    messages, resume or identify, heartbeat thread ownership, reconnecting and exiting. */
module Gateway {
  import opened Optional

  /** Message bytes, one character each. */
  type Bytes = string

  // ---------- Messages ----------

  const DISPATCH := 0
  const HEARTBEAT := 1
  const INVALID_SESSION := 9
  const HELLO := 10

  /** The `s` field: a number, an explicit null, or anything else. */
  datatype Sequence = Number(n: int) | Null | Other

  /** What the parser makes of a message.  `t`, `session` (the `session_id` inside `d`) and
      `interval` (the `heartbeat_interval` inside `d`) are read only for the opcodes that use them. */
  datatype Packet =
    | NotJson
    | Packet(op: Option<int>, s: Sequence, t: string, session: Option<string>, interval: Option<int>)

  /** What the client sends. */
  datatype Frame = Beat(d: Option<int>) | Identify | Resume(session: string, s: int)

  // ---------- The client ----------

  /** `created` and `joined` count heartbeat threads, `connects` counts connection attempts. */
  datatype Client = Client(
    connected: bool, active: bool, loggedIn: bool, exit: bool, beating: bool,
    session: Option<string>, content: Bytes, s: int, interval: nat,
    sent: seq<Frame>, delivered: seq<Bytes>, created: nat, joined: nat, connects: nat)

  function Created(): Client {
    Client(false, true, false, false, false, None, [], -1, 10000, [], [], 0, 0, 0)
  }

  function Connecting(c: Client): Client {
    c.(content := [], active := true, connects := c.connects + 1)
  }

  function Closing(c: Client): Client {
    if c.beating then c.(beating := false, joined := c.joined + 1) else c
  }

  function Exiting(c: Client): Client {
    Closing(c.(exit := true))
  }

  function Beaten(c: Client): Client {
    c.(sent := c.sent + [Beat(if c.s == -1 then None else Some(c.s))])
  }

  /** The answer to HELLO. */
  function Identified(c: Client): Client {
    var c1 := Beaten(c);
    var c2 := c1.(sent := c1.sent + [if c.session.Some? then Resume(c.session.value, c.s) else Identify]);
    if c.beating then c2 else c2.(beating := true, created := c.created + 1)
  }

  function Cut(str: string, n: nat): string {
    if n < |str| then str[..n] else str
  }

  /** DISPATCH: the sequence number, and the session id of a READY if the bot handles events. */
  function Dispatched(c: Client, p: Packet, handlers: bool): Client
    requires p.Packet?
  {
    var c1 := c.(loggedIn := true,
                 s := match p.s case Number(n) => n case Null => -1 case Other => c.s);
    if handlers && p.t == "READY" && p.session.Some? then c1.(session := Some(Cut(p.session.value, 100))) else c1
  }

  /** C's conversion of a signed to an unsigned 32-bit integer. */
  function Unsigned(n: int): nat {
    n % 0x1_0000_0000
  }

  function OnMessage(c: Client, p: Packet, handlers: bool): (r: Client)
    ensures r.exit == c.exit && r.active == c.active && r.connects == c.connects
    ensures r.delivered == c.delivered && r.content == c.content
    ensures r.created - r.joined - (if r.beating then 1 else 0) == c.created - c.joined - (if c.beating then 1 else 0)
  {
    if p.NotJson? || p.op.None? then c
    else if p.op.value == DISPATCH then Dispatched(c, p, handlers)
    else if p.op.value == INVALID_SESSION then Closing(c.(s := -1))
    else if p.op.value == HELLO then
      Identified(c).(interval := if p.interval.Some? then Unsigned(p.interval.value) else c.interval)
    else if p.op.value == HEARTBEAT then Beaten(c)
    else c
  }

  function OnFragment(c: Client, data: Bytes, final: bool, parse: Bytes -> Packet, handlers: bool): Client {
    var c1 := c.(content := c.content + data);
    if final then
      OnMessage(c1.(delivered := c1.delivered + [c1.content]), parse(c1.content), handlers).(content := [])
    else c1
  }

  /** The connection was lost or has been closed. */
  function OnClosed(c: Client): Client {
    if c.loggedIn && !c.exit then Connecting(c)
    else
      var c1 := if c.loggedIn then c else c.(exit := true);
      Closing(c1.(active := false)).(connected := false, loggedIn := false)
  }

  function Destroyed(c: Client): Client {
    c.(active := false, beating := false, content := [], session := None)
  }

  // ---------- The client object ----------

  /** A growing buffer kept with one spare byte for a terminator. */
  class MemoryChunk {
    var memory: array?<char>
    var size: nat

    ghost predicate Valid()
      reads this, memory
    {
      if memory == null then size == 0 else size <= memory.Length
    }

    ghost function Contents(): Bytes
      requires Valid()
      reads this, memory
    {
      if memory == null then [] else memory[..size]
    }

    constructor ()
      ensures Valid() && Contents() == [] && memory == null
    {
      memory := null;
      size := 0;
    }

    /** Grows the memory, copies the data behind what is there and terminates it. */
    method Append(data: Bytes)
      requires Valid()
      modifies this
      ensures Valid() && fresh(memory)
      ensures Contents() == old(Contents()) + data
      ensures memory.Length == size + 1 && memory[size] == '\0'
    {
      var p := new char[size + |data| + 1];
      for i := 0 to size
        invariant memory == old(memory) && size == old(size)
        invariant memory != null ==> p[..i] == memory[..i]
      {
        p[i] := memory[i];
      }
      ghost var was := Contents();
      assert p[..size] == was;
      for i := 0 to |data|
        invariant size == old(size)
        invariant p[..size] == was && p[size..size + i] == data[..i]
      {
        p[size + i] := data[i];
      }
      memory := p;
      size := size + |data|;
      memory[size] := '\0';
      assert memory[..size] == was + data;
    }

    method Reset(allocate: bool)
      modifies this
      ensures Valid() && Contents() == [] && if allocate then memory != null && fresh(memory) else memory == null
    {
      memory := null;
      if allocate {
        memory := new char[1];
      }
      size := 0;
    }
  }

  class WebsocketClient {
    const content: MemoryChunk
    const handlers: bool
    var connected: bool
    var active: bool
    var loggedIn: bool
    var exit: bool
    var beating: bool
    var session: Option<string>
    var lastS: int
    var interval: nat
    ghost var sent: seq<Frame>
    ghost var delivered: seq<Bytes>
    ghost var created: nat
    ghost var joined: nat
    ghost var connects: nat

    ghost predicate Valid()
      reads this, content, content.memory
    {
      content.Valid()
    }

    ghost function State(): Client
      requires Valid()
      reads this, content, content.memory
    {
      Client(connected, active, loggedIn, exit, beating, session, content.Contents(), lastS, interval,
             sent, delivered, created, joined, connects)
    }

    constructor (handlers: bool)
      ensures Valid() && fresh(content) && this.handlers == handlers
      ensures State() == Created()
    {
      this.handlers := handlers;
      content := new MemoryChunk();
      connected, active, loggedIn, exit, beating := false, true, false, false, false;
      session, lastS, interval := None, -1, 10000;
      sent, delivered, created, joined, connects := [], [], 0, 0, 0;
    }

    method Connect()
      requires Valid()
      modifies this, content
      ensures Valid() && (content.memory == null || fresh(content.memory))
      ensures State() == Connecting(old(State()))
    {
      connects := connects + 1;
      content.Reset(true);
      active := true;
    }

    method Close()
      requires Valid()
      modifies this
      ensures Valid() && State() == Closing(old(State()))
    {
      if beating {
        beating := false;
        joined := joined + 1;
      }
    }

    method Exit()
      requires Valid()
      modifies this
      ensures Valid() && State() == Exiting(old(State()))
    {
      exit := true;
      Close();
    }

    method SendHeartbeat()
      requires Valid()
      modifies this
      ensures Valid() && State() == Beaten(old(State()))
    {
      if lastS == -1 {
        sent := sent + [Beat(None)];
      } else {
        sent := sent + [Beat(Some(lastS))];
      }
    }

    method HandleIdentify()
      requires Valid()
      modifies this
      ensures Valid() && State() == Identified(old(State()))
    {
      SendHeartbeat();
      if session.Some? {
        sent := sent + [Resume(session.value, lastS)];
      } else {
        sent := sent + [Identify];
      }
      if !beating {
        beating := true;
        created := created + 1;
      }
    }

    method HandleDispatch(p: Packet)
      requires Valid() && p.Packet?
      modifies this
      ensures Valid() && State() == Dispatched(old(State()), p, handlers)
    {
      loggedIn := true;
      if p.s.Number? {
        lastS := p.s.n;
      } else if p.s.Null? {
        lastS := -1;
      }
      if handlers && p.t == "READY" && p.session.Some? {
        session := Some(Cut(p.session.value, 100));
      }
    }

    /** `gateway_on_receive`, on a parsed message. */
    method HandlePacket(p: Packet)
      requires Valid()
      modifies this
      ensures Valid() && State() == OnMessage(old(State()), p, handlers)
    {
      if p.NotJson? || p.op.None? {
        return;
      }
      var op := p.op.value;
      if op == DISPATCH {
        HandleDispatch(p);
      } else if op == INVALID_SESSION {
        lastS := -1;
        Close();
      } else if op == HELLO {
        HandleIdentify();
        if p.interval.Some? {
          interval := Unsigned(p.interval.value);
        }
      } else if op == HEARTBEAT {
        SendHeartbeat();
      }
    }

    /** The RECEIVE callback: `parse` is the message parser. */
    method Receive(data: Bytes, final: bool, parse: Bytes -> Packet)
      requires Valid()
      modifies this, content
      ensures Valid() && (content.memory == null || fresh(content.memory))
      ensures State() == OnFragment(old(State()), data, final, parse, handlers)
    {
      content.Append(data);
      if final {
        Deliver(parse);
      }
    }

    /** Hands the message in the buffer over and empties the buffer. */
    method Deliver(parse: Bytes -> Packet)
      requires Valid() && content.memory != null
      modifies this, content
      ensures Valid() && content.memory == null
      ensures var c := old(State());
        State() == OnMessage(c.(delivered := c.delivered + [c.content]), parse(c.content), handlers).(content := [])
    {
      delivered := delivered + [content.Contents()];
      HandlePacket(parse(content.memory[..content.size]));
      content.Reset(false);
    }

    /** The CLOSED callback. */
    method Closed()
      requires Valid()
      modifies this, content
      ensures Valid() && (content.memory == null || content.memory == old(content.memory) || fresh(content.memory))
      ensures State() == OnClosed(old(State()))
    {
      if !loggedIn {
        exit := true;
      } else if !exit {
        Connect();
        return;
      }
      active := false;
      Close();
      connected := false;
      loggedIn := false;
    }

    /** `websocket_destroy_client`: the flag is cleared before it is tested, so the join that should
        follow cannot happen. */
    method Destroy()
      requires Valid()
      modifies this, content
      ensures Valid() && State() == Destroyed(old(State()))
      ensures !active && !beating && session == None && content.Contents() == []
      ensures created == old(created) && joined == old(joined)
    {
      active := false;
      beating := false;
      content.Reset(false);
      session := None;
      assert !beating;
    }
  }

  // ---------- Runs ----------

  /** Callbacks of the library, the heartbeat thread's own beats, a bot calling for an exit or for the
      connection to be closed, and the event loop coming round with or without a termination signal. */
  datatype Event =
    | Established
    | Fragment(data: Bytes, final: bool)
    | LostOrClosed
    | LoopBeat
    | ExitCall
    | CloseCall
    | LoopRound(terminated: bool)

  /** What the library is doing with the connection. */
  datatype Link = Pending | Open | Down

  /** `looping` says whether the event loop is still running. */
  datatype Run = Run(client: Client, link: Link, looping: bool)

  /** The event loop starts with the client connecting. */
  function Started(): Run {
    Run(Connecting(Created()), Link.Pending, true)
  }

  /** The library reports connections and fragments only while the event loop serves it, and
      fragments only on an open connection. */
  predicate Receives(r: Run) {
    r.looping && r.link.Open?
  }

  function Step(r: Run, e: Event, parse: Bytes -> Packet, handlers: bool): Run {
    var c := r.client;
    match e
    case Established =>
      if r.looping && r.link.Pending? then r.(client := c.(connected := true), link := Open) else r
    case Fragment(data, final) =>
      if Receives(r) then r.(client := OnFragment(c, data, final, parse, handlers)) else r
    case LostOrClosed => r.(client := OnClosed(c), link := if c.loggedIn && !c.exit then Link.Pending else Down)
    case LoopBeat => if c.active && c.beating then r.(client := Beaten(c)) else r
    case ExitCall => r.(client := Exiting(c))
    case CloseCall => r.(client := Closing(c))
    case LoopRound(terminated) =>
      if !r.looping then r
      else if terminated then r.(client := Exiting(c), looping := false)
      else r.(looping := c.active)
  }

  function After(events: seq<Event>, parse: Bytes -> Packet, handlers: bool): Run {
    if events == [] then Started()
    else Step(After(events[..|events| - 1], parse, handlers), events[|events| - 1], parse, handlers)
  }

  // ---------- Reassembly of fragments ----------

  /** What reaches the reassembly: a fragment that is not final, a final one, or a new connection. */
  datatype Piece = Part(data: Bytes) | End(data: Bytes) | Fresh

  function PieceOf(r: Run, e: Event): seq<Piece> {
    match e
    case Fragment(data, final) => if Receives(r) then [if final then End(data) else Part(data)] else []
    case LostOrClosed => if r.client.loggedIn && !r.client.exit then [Fresh] else []
    case _ => []
  }

  function Pieces(events: seq<Event>, parse: Bytes -> Packet, handlers: bool): seq<Piece> {
    if events == [] then []
    else
      var before := events[..|events| - 1];
      Pieces(before, parse, handlers) + PieceOf(After(before, parse, handlers), events[|events| - 1])
  }

  /** Where the run of parts at the end begins. */
  function OpenFrom(ps: seq<Piece>): (i: nat)
    ensures i <= |ps|
  {
    if ps == [] then 0 else if ps[|ps| - 1].Part? then OpenFrom(ps[..|ps| - 1]) else |ps|
  }

  function Join(ps: seq<Piece>): Bytes {
    if ps == [] then [] else (if ps[0].Fresh? then [] else ps[0].data) + Join(ps[1..])
  }

  /** The message still incomplete: the parts since the last final fragment or new connection. */
  function Incomplete(ps: seq<Piece>): Bytes {
    Join(ps[OpenFrom(ps)..])
  }

  /** The messages of a fragmented stream: one for each final fragment, joining it to the longest
      run of parts before it. */
  function Messages(ps: seq<Piece>): seq<Bytes> {
    if ps == [] then []
    else
      var before, last := ps[..|ps| - 1], ps[|ps| - 1];
      Messages(before) + if last.End? then [Join(before[OpenFrom(before)..] + [last])] else []
  }

  /** The open run consists of parts and cannot be extended to the left. */
  lemma {:induction false} OpenRunIsMaximal(ps: seq<Piece>)
    ensures forall i :: OpenFrom(ps) <= i < |ps| ==> ps[i].Part?
    ensures OpenFrom(ps) > 0 ==> !ps[OpenFrom(ps) - 1].Part?
  {
    if ps != [] && ps[|ps| - 1].Part? {
      OpenRunIsMaximal(ps[..|ps| - 1]);
    }
  }

  lemma {:induction false} JoinOfMore(ps: seq<Piece>, p: Piece)
    ensures Join(ps + [p]) == Join(ps) + if p.Fresh? then [] else p.data
  {
    if ps == [] {
      assert ps + [p] == [p];
    } else {
      assert (ps + [p])[1..] == ps[1..] + [p];
      JoinOfMore(ps[1..], p);
    }
  }

  lemma OneMorePiece(ps: seq<Piece>, p: Piece)
    ensures Messages(ps + [p]) == Messages(ps) + if p.End? then [Incomplete(ps) + p.data] else []
    ensures Incomplete(ps + [p]) == if p.Part? then Incomplete(ps) + p.data else []
  {
    var more := ps + [p];
    assert more[..|ps|] == ps;
    JoinOfMore(ps[OpenFrom(ps)..], p);
    assert more[OpenFrom(ps)..] == ps[OpenFrom(ps)..] + [p];
    assert more[|ps| + 1..] == [];
  }

  lemma FragmentReassembles(c: Client, data: Bytes, final: bool, ps: seq<Piece>, parse: Bytes -> Packet, handlers: bool)
    requires c.delivered == Messages(ps) && c.content == Incomplete(ps)
    ensures var c', p := OnFragment(c, data, final, parse, handlers), if final then End(data) else Part(data);
      c'.delivered == Messages(ps + [p]) && c'.content == Incomplete(ps + [p])
  {
    OneMorePiece(ps, if final then End(data) else Part(data));
  }

  /** A step adds its piece to what has been delivered and to what is still incomplete. */
  lemma StepReassembles(r: Run, e: Event, ps: seq<Piece>, parse: Bytes -> Packet, handlers: bool)
    requires r.client.delivered == Messages(ps) && r.client.content == Incomplete(ps)
    ensures var c := Step(r, e, parse, handlers).client;
      c.delivered == Messages(ps + PieceOf(r, e)) && c.content == Incomplete(ps + PieceOf(r, e))
  {
    assert ps + [] == ps;
    match e
    case Established =>
    case Fragment(data, final) => if Receives(r) { FragmentReassembles(r.client, data, final, ps, parse, handlers); }
    case LostOrClosed => OneMorePiece(ps, Fresh);
    case LoopBeat =>
    case ExitCall =>
    case CloseCall =>
    case LoopRound(terminated) =>
  }

  /** Over every run, the messages delivered to the gateway are exactly the joined fragment runs,
      in order, and the buffer holds exactly the run still open. */
  lemma {:induction false} ReassemblyIsExact(events: seq<Event>, parse: Bytes -> Packet, handlers: bool)
    ensures After(events, parse, handlers).client.delivered == Messages(Pieces(events, parse, handlers))
    ensures After(events, parse, handlers).client.content == Incomplete(Pieces(events, parse, handlers))
  {
    if events != [] {
      var before := events[..|events| - 1];
      ReassemblyIsExact(before, parse, handlers);
      StepReassembles(After(before, parse, handlers), events[|events| - 1], Pieces(before, parse, handlers),
                      parse, handlers);
    }
  }

  // ---------- Sequence number and session ----------

  /** What a message makes of the sequence number, if anything. */
  function SequenceSet(p: Packet): Option<int> {
    if p.NotJson? || p.op.None? then None
    else if p.op.value == DISPATCH then
      match p.s case Number(n) => Some(n) case Null => Some(-1) case Other => None
    else if p.op.value == INVALID_SESSION then Some(-1)
    else None
  }

  /** The session id a message brings, if it is a READY with one. */
  function SessionSet(p: Packet): Option<string> {
    if p.Packet? && p.op == Some(DISPATCH) && p.t == "READY" && p.session.Some?
    then Some(Cut(p.session.value, 100)) else None
  }

  predicate IsDispatch(p: Packet) {
    p.Packet? && p.op == Some(DISPATCH)
  }

  function Parsed(messages: seq<Bytes>, parse: Bytes -> Packet): (r: seq<Packet>)
    ensures |r| == |messages| && forall i :: 0 <= i < |r| ==> r[i] == parse(messages[i])
  {
    seq(|messages|, i requires 0 <= i < |messages| => parse(messages[i]))
  }

  ghost predicate LastSetting(ps: seq<Packet>, i: nat)
    requires i < |ps|
  {
    SequenceSet(ps[i]).Some? && forall j :: i < j < |ps| ==> SequenceSet(ps[j]).None?
  }

  ghost predicate LastSession(ps: seq<Packet>, i: nat)
    requires i < |ps|
  {
    SessionSet(ps[i]).Some? && forall j :: i < j < |ps| ==> SessionSet(ps[j]).None?
  }

  /** `s` is what the last message to set the sequence number set, and -1 if none has. */
  ghost predicate SequenceIsLast(s: int, ps: seq<Packet>) {
    && (forall i :: 0 <= i < |ps| && LastSetting(ps, i) ==> s == SequenceSet(ps[i]).value)
    && ((forall i :: 0 <= i < |ps| ==> SequenceSet(ps[i]).None?) ==> s == -1)
  }

  ghost predicate SessionIsLast(session: Option<string>, ps: seq<Packet>) {
    && (forall i :: 0 <= i < |ps| && LastSession(ps, i) ==> session == SessionSet(ps[i]))
    && (session.Some? <==> exists i :: 0 <= i < |ps| && SessionSet(ps[i]).Some?)
  }

  ghost predicate SessionAgrees(c: Client, parse: Bytes -> Packet, handlers: bool) {
    var ps := Parsed(c.delivered, parse);
    && SequenceIsLast(c.s, ps)
    && (if handlers then SessionIsLast(c.session, ps) else c.session.None?)
    && (c.loggedIn ==> exists i :: 0 <= i < |ps| && IsDispatch(ps[i]))
  }

  lemma SequenceAfter(s: int, ps: seq<Packet>, p: Packet)
    requires SequenceIsLast(s, ps)
    ensures SequenceIsLast(if SequenceSet(p).Some? then SequenceSet(p).value else s, ps + [p])
  {
    var more := ps + [p];
    var s' := if SequenceSet(p).Some? then SequenceSet(p).value else s;
    forall i | 0 <= i < |more| && LastSetting(more, i) ensures s' == SequenceSet(more[i]).value {
      assert more[|ps|] == p;
      if i < |ps| {
        assert forall j :: i < j < |ps| ==> more[j] == ps[j];
        assert LastSetting(ps, i);
      }
    }
    if forall i :: 0 <= i < |more| ==> SequenceSet(more[i]).None? {
      assert more[|ps|] == p;
      assert forall i :: 0 <= i < |ps| ==> more[i] == ps[i];
    }
  }

  lemma SessionAfter(session: Option<string>, ps: seq<Packet>, p: Packet)
    requires SessionIsLast(session, ps)
    ensures SessionIsLast(if SessionSet(p).Some? then SessionSet(p) else session, ps + [p])
  {
    var more := ps + [p];
    var session' := if SessionSet(p).Some? then SessionSet(p) else session;
    assert more[|ps|] == p;
    forall i | 0 <= i < |more| && LastSession(more, i) ensures session' == SessionSet(more[i]) {
      if i < |ps| {
        assert forall j :: i < j < |ps| ==> more[j] == ps[j];
        assert LastSession(ps, i);
      }
    }
    if k :| 0 <= k < |ps| && SessionSet(ps[k]).Some? {
      assert more[k] == ps[k];
    }
    if k :| 0 <= k < |more| && SessionSet(more[k]).Some? {
      assert k == |ps| || SessionSet(ps[k]).Some?;
    }
  }

  /** A whole message changes the session as it says, and marks the login if it is a DISPATCH. */
  lemma MessageOnSession(c: Client, p: Packet, handlers: bool)
    ensures var c' := OnMessage(c, p, handlers);
      && c'.s == (if SequenceSet(p).Some? then SequenceSet(p).value else c.s)
      && c'.session == (if handlers && SessionSet(p).Some? then SessionSet(p) else c.session)
      && c'.loggedIn == (c.loggedIn || IsDispatch(p))
  {
    if IsDispatch(p) {
      DispatchOnSession(c, p, handlers);
    }
  }

  lemma DispatchOnSession(c: Client, p: Packet, handlers: bool)
    requires IsDispatch(p)
    ensures var c' := Dispatched(c, p, handlers);
      && OnMessage(c, p, handlers) == c' && c'.loggedIn
      && c'.s == (if SequenceSet(p).Some? then SequenceSet(p).value else c.s)
      && c'.session == (if handlers && SessionSet(p).Some? then SessionSet(p) else c.session)
  {
    match p.s
    case Number(n) =>
    case Null =>
    case Other =>
  }

  lemma MessageKeepsSession(c: Client, message: Bytes, parse: Bytes -> Packet, handlers: bool)
    requires SessionAgrees(c, parse, handlers)
    ensures var c1 := c.(delivered := c.delivered + [message]);
      SessionAgrees(OnMessage(c1, parse(message), handlers), parse, handlers)
  {
    var ps, p := Parsed(c.delivered, parse), parse(message);
    var more := Parsed(c.delivered + [message], parse);
    assert more == ps + [p];
    MessageOnSession(c.(delivered := c.delivered + [message]), p, handlers);
    SequenceAfter(c.s, ps, p);
    if handlers { SessionAfter(c.session, ps, p); }
    assert more[|ps|] == p;
    if k :| 0 <= k < |ps| && IsDispatch(ps[k]) {
      assert more[k] == ps[k];
    }
  }

  lemma FragmentKeepsSession(c: Client, data: Bytes, final: bool, parse: Bytes -> Packet, handlers: bool)
    requires SessionAgrees(c, parse, handlers)
    ensures SessionAgrees(OnFragment(c, data, final, parse, handlers), parse, handlers)
  {
    if final {
      MessageKeepsSession(c.(content := c.content + data), c.content + data, parse, handlers);
    }
  }

  lemma StepKeepsSession(r: Run, e: Event, parse: Bytes -> Packet, handlers: bool)
    requires SessionAgrees(r.client, parse, handlers)
    ensures SessionAgrees(Step(r, e, parse, handlers).client, parse, handlers)
  {
    match e
    case Established =>
    case Fragment(data, final) => FragmentKeepsSession(r.client, data, final, parse, handlers);
    case LostOrClosed =>
    case LoopBeat =>
    case ExitCall =>
    case CloseCall =>
    case LoopRound(terminated) =>
  }

  lemma {:induction false} SessionAgreesInRuns(events: seq<Event>, parse: Bytes -> Packet, handlers: bool)
    ensures SessionAgrees(After(events, parse, handlers).client, parse, handlers)
  {
    if events != [] {
      SessionAgreesInRuns(events[..|events| - 1], parse, handlers);
      StepKeepsSession(After(events[..|events| - 1], parse, handlers), events[|events| - 1], parse, handlers);
    }
  }

  /** The answer to a HELLO, in every run: a heartbeat, then RESUME exactly if a READY with a
      session id has been handled before, else IDENTIFY.  Both carry the number that the last
      message to touch it left: a numeric `s`, or -1 after a null `s`, an INVALID_SESSION or none. */
  lemma HelloResumesIff(events: seq<Event>, data: Bytes, parse: Bytes -> Packet, handlers: bool)
    requires Receives(After(events, parse, handlers))
    requires var p := parse(Incomplete(Pieces(events, parse, handlers)) + data); p.Packet? && p.op == Some(HELLO)
    ensures var c := After(events, parse, handlers).client;
      var c' := After(events + [Fragment(data, true)], parse, handlers).client;
      var ps := Parsed(Messages(Pieces(events, parse, handlers)), parse);
      && c'.sent == c.sent + [Beat(if c.s == -1 then None else Some(c.s)),
                              if c.session.Some? then Resume(c.session.value, c.s) else Identify]
      && c'.beating
      && SequenceIsLast(c.s, ps)
      && (c.session.Some? <==> handlers && exists i :: 0 <= i < |ps| && SessionSet(ps[i]).Some?)
      && (handlers ==> SessionIsLast(c.session, ps))
  {
    ReassemblyIsExact(events, parse, handlers);
    SessionAgreesInRuns(events, parse, handlers);
    assert (events + [Fragment(data, true)])[..|events|] == events;
    var c := After(events, parse, handlers).client;
    HelloAnswer(c.(content := c.content + data, delivered := c.delivered + [c.content + data]),
                parse(c.content + data), handlers);
  }

  lemma HelloAnswer(c: Client, p: Packet, handlers: bool)
    requires p.Packet? && p.op == Some(HELLO)
    ensures var c' := OnMessage(c, p, handlers);
      && c'.sent == c.sent + [Beat(if c.s == -1 then None else Some(c.s)),
                              if c.session.Some? then Resume(c.session.value, c.s) else Identify]
      && c'.beating
  {
  }

  // ---------- What the other events do ----------

  /** An established connection is open; the heartbeat thread beats while both flags are set; closing
      joins the thread, and exiting does so and asks for the end. None of them touches the session. */
  lemma EventEffects(r: Run, parse: Bytes -> Packet, handlers: bool)
    ensures var established := Step(r, Established, parse, handlers);
      r.looping && r.link.Pending? ==> established == r.(client := r.client.(connected := true), link := Open)
    ensures var beaten := Step(r, LoopBeat, parse, handlers).client;
      beaten == if r.client.active && r.client.beating then r.client.(sent := r.client.sent + [BeatOf(r.client)])
                else r.client
    ensures var closed := Step(r, CloseCall, parse, handlers).client;
      closed == r.client.(beating := false, joined := r.client.joined + if r.client.beating then 1 else 0)
    ensures var exited := Step(r, ExitCall, parse, handlers).client;
      exited == r.client.(exit := true, beating := false, joined := r.client.joined + if r.client.beating then 1 else 0)
  {
  }

  // ---------- What each message does ----------

  /** A heartbeat with the last sequence number. */
  function BeatOf(c: Client): Frame {
    Beat(if c.s == -1 then None else Some(c.s))
  }

  /** A DISPATCH marks the login, and takes over a numeric `s` and forgets the number on a null one. */
  predicate DispatchEffect(c: Client, p: Packet, c': Client) {
    && c'.loggedIn && c'.sent == c.sent && c'.beating == c.beating && c'.interval == c.interval
    && c'.s == (if p.Packet? && p.s.Number? then p.s.n else if p.Packet? && p.s.Null? then -1 else c.s)
  }

  /** A HELLO is answered by a heartbeat and a RESUME or IDENTIFY, creates a heartbeat thread if there is
      none, and sets the interval if it has one, modulo 2^32. */
  predicate HelloEffect(c: Client, p: Packet, c': Client) {
    && c'.beating && c'.created == c.created + (if c.beating then 0 else 1) && c'.s == c.s && c'.session == c.session
    && c'.sent == c.sent + [BeatOf(c), if c.session.Some? then Resume(c.session.value, c.s) else Identify]
    && (if p.Packet? && p.interval.Some?
        then c'.interval < 4294967296 && (p.interval.value - c'.interval) % 4294967296 == 0
        else c'.interval == c.interval)
  }

  lemma DispatchHasEffect(c: Client, p: Packet, handlers: bool)
    requires p.Packet? && p.op == Some(0)
    ensures DispatchEffect(c, p, OnMessage(c, p, handlers))
  {
    match p.s
    case Number(n) =>
    case Null =>
    case Other =>
  }

  lemma HelloHasEffect(c: Client, p: Packet, handlers: bool)
    requires p.Packet? && p.op == Some(10)
    ensures HelloEffect(c, p, OnMessage(c, p, handlers))
  {
  }

  /** The opcodes by number: 0 is a DISPATCH and 10 a HELLO; a HEARTBEAT (1) is answered by a heartbeat at
      once; an INVALID SESSION (9) forgets the sequence number, joins the heartbeat thread and leaves
      the session id. Anything else changes nothing. */
  lemma MessageEffects(c: Client, p: Packet, handlers: bool)
    ensures var c' := OnMessage(c, p, handlers);
      var op := if p.Packet? && p.op.Some? then p.op.value else -1;
      if op == 0 then DispatchEffect(c, p, c')
      else if op == 1 then c' == c.(sent := c.sent + [BeatOf(c)])
      else if op == 9 then c' == c.(s := -1, beating := false, joined := c.joined + if c.beating then 1 else 0)
      else if op == 10 then HelloEffect(c, p, c')
      else c' == c
  {
    if p.Packet? && p.op == Some(0) {
      DispatchHasEffect(c, p, handlers);
    } else if p.Packet? && p.op == Some(10) {
      HelloHasEffect(c, p, handlers);
    }
  }

  /** The session id after a message: a READY that brings one to a bot with callbacks stores its first
      hundred bytes, which is all of it if it has no more; nothing else touches it. */
  lemma SessionIsStored(c: Client, p: Packet, handlers: bool)
    ensures var c' := OnMessage(c, p, handlers);
      if handlers && p.Packet? && p.op == Some(0) && p.t == "READY" && p.session.Some?
      then c'.session.Some? && StoredFrom(c'.session.value, p.session.value)
      else c'.session == c.session
  {
  }

  /** `id` is what is kept of `given`: its first hundred bytes, or all of it. */
  predicate StoredFrom(id: string, given: string) {
    id <= given && |id| == if |given| <= 100 then |given| else 100
  }

  predicate IsReady(p: Packet) {
    p.Packet? && p.op == Some(0) && p.t == "READY" && p.session.Some?
  }

  /** In every run of a bot with callbacks, the session id is what is kept of the one that the last READY
      with one gave; so a RESUME gives back that id itself if it has at most a hundred bytes. */
  lemma SessionIsOfLastReady(events: seq<Event>, parse: Bytes -> Packet, i: nat)
    requires var ps := Parsed(Messages(Pieces(events, parse, true)), parse);
      i < |ps| && IsReady(ps[i]) && forall j :: i < j < |ps| ==> !IsReady(ps[j])
    ensures var given := Parsed(Messages(Pieces(events, parse, true)), parse)[i].session.value;
      var session := After(events, parse, true).client.session;
      && session.Some? && StoredFrom(session.value, given)
      && (|given| <= 100 ==> session.value == given)
  {
    ReassemblyIsExact(events, parse, true);
    SessionAgreesInRuns(events, parse, true);
    var ps := Parsed(Messages(Pieces(events, parse, true)), parse);
    assert LastSession(ps, i);
  }

  /** The interval in force: that of the last HELLO with one, or ten seconds. */
  function LastInterval(ps: seq<Packet>): int {
    if ps == [] then 10000
    else
      var p := ps[|ps| - 1];
      if p.Packet? && p.op == Some(10) && p.interval.Some? then p.interval.value % 4294967296
      else LastInterval(ps[..|ps| - 1])
  }

  lemma MessageKeepsInterval(c: Client, message: Bytes, parse: Bytes -> Packet, handlers: bool)
    requires c.interval == LastInterval(Parsed(c.delivered, parse))
    ensures var c1 := c.(delivered := c.delivered + [message]);
      OnMessage(c1, parse(message), handlers).interval == LastInterval(Parsed(c1.delivered, parse))
  {
    var more := Parsed(c.delivered + [message], parse);
    assert more[..|more| - 1] == Parsed(c.delivered, parse) && more[|more| - 1] == parse(message);
    MessageEffects(c.(delivered := c.delivered + [message]), parse(message), handlers);
  }

  lemma StepKeepsInterval(r: Run, e: Event, parse: Bytes -> Packet, handlers: bool)
    requires r.client.interval == LastInterval(Parsed(r.client.delivered, parse))
    ensures var c := Step(r, e, parse, handlers).client;
      c.interval == LastInterval(Parsed(c.delivered, parse))
  {
    match e
    case Established =>
    case Fragment(data, final) =>
      if Receives(r) && final {
        var c := r.client;
        MessageKeepsInterval(c.(content := c.content + data), c.content + data, parse, handlers);
      }
    case LostOrClosed =>
    case LoopBeat =>
    case ExitCall =>
    case CloseCall =>
    case LoopRound(terminated) =>
  }

  /** In every run. */
  lemma {:induction false} IntervalIsOfLastHello(events: seq<Event>, parse: Bytes -> Packet, handlers: bool)
    ensures After(events, parse, handlers).client.interval
            == LastInterval(Parsed(Messages(Pieces(events, parse, handlers)), parse))
  {
    ReassemblyIsExact(events, parse, handlers);
    if events != [] {
      var before := events[..|events| - 1];
      IntervalIsOfLastHello(before, parse, handlers);
      ReassemblyIsExact(before, parse, handlers);
      StepKeepsInterval(After(before, parse, handlers), events[|events| - 1], parse, handlers);
    }
  }

  /** A heartbeat the other side asks for is sent at once, in every run, with the number that the last
      message to touch it left. */
  lemma HeartbeatIsAnswered(events: seq<Event>, data: Bytes, parse: Bytes -> Packet, handlers: bool)
    requires Receives(After(events, parse, handlers))
    requires var p := parse(Incomplete(Pieces(events, parse, handlers)) + data); p.Packet? && p.op == Some(1)
    ensures var c := After(events, parse, handlers).client;
      var c' := After(events + [Fragment(data, true)], parse, handlers).client;
      && c'.sent == c.sent + [BeatOf(c)]
      && SequenceIsLast(c.s, Parsed(Messages(Pieces(events, parse, handlers)), parse))
  {
    ReassemblyIsExact(events, parse, handlers);
    SessionAgreesInRuns(events, parse, handlers);
    assert (events + [Fragment(data, true)])[..|events|] == events;
    var c := After(events, parse, handlers).client;
    MessageEffects(c.(content := c.content + data, delivered := c.delivered + [c.content + data]),
                   parse(c.content + data), handlers);
  }

  // ---------- Heartbeat threads ----------

  lemma FragmentKeepsThreadCount(c: Client, data: Bytes, final: bool, parse: Bytes -> Packet, handlers: bool)
    requires c.created == c.joined + if c.beating then 1 else 0
    ensures var c' := OnFragment(c, data, final, parse, handlers);
      c'.created == c'.joined + if c'.beating then 1 else 0
  {
  }

  lemma StepKeepsThreadCount(r: Run, e: Event, parse: Bytes -> Packet, handlers: bool)
    requires r.client.created == r.client.joined + if r.client.beating then 1 else 0
    ensures var c := Step(r, e, parse, handlers).client;
      c.created == c.joined + if c.beating then 1 else 0
  {
    match e
    case Established =>
    case Fragment(data, final) => FragmentKeepsThreadCount(r.client, data, final, parse, handlers);
    case LostOrClosed =>
    case LoopBeat =>
    case ExitCall =>
    case CloseCall =>
    case LoopRound(terminated) =>
  }

  /** In every run the threads created and not yet joined are one or none, as the flag says. */
  lemma {:induction false} AtMostOneThread(events: seq<Event>, parse: Bytes -> Packet, handlers: bool)
    ensures var c := After(events, parse, handlers).client;
      c.created - c.joined == if c.beating then 1 else 0
  {
    if events != [] {
      AtMostOneThread(events[..|events| - 1], parse, handlers);
      StepKeepsThreadCount(After(events[..|events| - 1], parse, handlers), events[|events| - 1], parse, handlers);
    }
  }

  /** When no heartbeat thread can be active: the event loop has ended, or the connection is down. */
  predicate Quiet(r: Run) {
    && (!r.looping || r.link.Down? ==> r.client.exit && !r.client.beating)
    && (r.link.Down? ==> !r.client.active && !r.client.loggedIn)
    && (!r.client.active ==> r.link.Down?)
  }

  lemma StepStaysQuiet(r: Run, e: Event, parse: Bytes -> Packet, handlers: bool)
    requires Quiet(r)
    ensures Quiet(Step(r, e, parse, handlers))
  {
    match e
    case Established =>
    case Fragment(data, final) =>
    case LostOrClosed =>
    case LoopBeat =>
    case ExitCall =>
    case CloseCall =>
    case LoopRound(terminated) =>
  }

  lemma {:induction false} RunsStayQuiet(events: seq<Event>, parse: Bytes -> Packet, handlers: bool)
    ensures Quiet(After(events, parse, handlers))
  {
    if events != [] {
      RunsStayQuiet(events[..|events| - 1], parse, handlers);
      StepStaysQuiet(After(events[..|events| - 1], parse, handlers), events[|events| - 1], parse, handlers);
    }
  }

  /** Once the event loop has ended, however it did and whatever came after, no heartbeat thread is
      left: destroying the client then, as the bot does, leaves none unjoined, though it joins none. */
  lemma DestroyAfterLoopLeavesNoThread(events: seq<Event>, parse: Bytes -> Packet, handlers: bool)
    requires !After(events, parse, handlers).looping
    ensures var c := Destroyed(After(events, parse, handlers).client); c.created == c.joined
  {
    RunsStayQuiet(events, parse, handlers);
    AtMostOneThread(events, parse, handlers);
  }

  /** Destroying the client while the loop runs leaves a thread unjoined exactly if one is active. */
  lemma DestroyLeavesThreadIff(events: seq<Event>, parse: Bytes -> Packet, handlers: bool)
    ensures var c := After(events, parse, handlers).client;
      Destroyed(c).created - Destroyed(c).joined == if c.beating then 1 else 0
  {
    AtMostOneThread(events, parse, handlers);
  }

  /** One is active after the first HELLO. */
  lemma DestroyAfterHelloLeavesThread(data: Bytes, parse: Bytes -> Packet, handlers: bool)
    requires parse(data).Packet? && parse(data).op == Some(HELLO)
    ensures var c := Destroyed(After([Established, Fragment(data, true)], parse, handlers).client);
      c.created == 1 && c.joined == 0
  {
    var one: seq<Event> := [Established];
    var two := one + [Fragment(data, true)];
    assert two == [Established, Fragment(data, true)] && two[..1] == one && one[..0] == [];
    var r := After(one, parse, handlers);
    assert r == Step(After(one[..0], parse, handlers), Established, parse, handlers);
    assert r.link.Open? && r.looping && r.client.content == [] && [] + data == data;
    HelloAnswer(r.client.(content := data, delivered := [data]), parse(data), handlers);
  }

  // ---------- Connecting, exiting, ending ----------

  predicate AsksForExit(e: Event) {
    e.ExitCall? || e == LoopRound(true)
  }

  /** What one step can do to the flags that decide about exiting and reconnecting. */
  lemma StepOnFlags(r: Run, e: Event, parse: Bytes -> Packet, handlers: bool)
    ensures var r' := Step(r, e, parse, handlers);
      && (r.client.exit ==> r'.client.exit)
      && (r.client.active && !r'.client.active ==> ClosesForGood(r, e))
      && (!r.client.active && r'.client.active ==> e.LostOrClosed? && !ClosesForGood(r, e))
      && (r'.client.connects == r.client.connects + if e.LostOrClosed? && !ClosesForGood(r, e) then 1 else 0)
      && (ClosesForGood(r, e) ==> r'.client.exit && !r'.client.active && !r'.client.beating && !r'.client.connected)
      && (e.ExitCall? ==> r'.client.exit)
      && (e == LoopRound(true) && r.looping ==> r'.client.exit && !r'.looping && !r'.client.beating)
      && (!r.looping ==> !r'.looping)
      && (r.looping && !r'.looping ==> e.LoopRound? && (e.terminated || !r.client.active))
      && (e.LoopRound? && !r.client.active ==> !r'.looping)
  {
    match e
    case Established =>
    case Fragment(data, final) =>
    case LostOrClosed =>
    case LoopBeat =>
    case ExitCall =>
    case CloseCall =>
    case LoopRound(terminated) =>
  }

  /** A close that does not lead to a reconnect. */
  predicate ClosesForGood(r: Run, e: Event) {
    e.LostOrClosed? && !(r.client.loggedIn && !r.client.exit)
  }

  /** The client is inactive, or its loop has ended, or somebody asked for it, only on the way out. */
  lemma {:induction false} ExitWhenAsked(events: seq<Event>, parse: Bytes -> Packet, handlers: bool)
    ensures var r := After(events, parse, handlers);
      && (!r.client.active || !r.looping ==> r.client.exit)
      && ((exists i :: 0 <= i < |events| && AsksForExit(events[i])) ==> r.client.exit)
  {
    if events != [] {
      var before, e := events[..|events| - 1], events[|events| - 1];
      ExitWhenAsked(before, parse, handlers);
      StepOnFlags(After(before, parse, handlers), e, parse, handlers);
      if i :| 0 <= i < |events| && AsksForExit(events[i]) && i < |before| {
        assert before[i] == events[i];
      }
    }
  }

  /** A connection is opened again only when the old one is closed, after some DISPATCH has been
      received, and never once an exit has been asked for. */
  lemma ReconnectsOnlyIf(events: seq<Event>, e: Event, parse: Bytes -> Packet, handlers: bool)
    ensures var r, r' := After(events, parse, handlers), After(events + [e], parse, handlers);
      var ps := Parsed(Messages(Pieces(events, parse, handlers)), parse);
      r.client.connects != r'.client.connects ==>
        && e.LostOrClosed? && r'.client.connects == r.client.connects + 1
        && (exists i :: 0 <= i < |ps| && IsDispatch(ps[i]))
        && (forall i :: 0 <= i < |events| ==> !AsksForExit(events[i]))
  {
    assert (events + [e])[..|events|] == events;
    ReassemblyIsExact(events, parse, handlers);
    SessionAgreesInRuns(events, parse, handlers);
    ExitWhenAsked(events, parse, handlers);
    StepOnFlags(After(events, parse, handlers), e, parse, handlers);
  }

  function From(r: Run, events: seq<Event>, parse: Bytes -> Packet, handlers: bool): Run {
    if events == [] then r
    else Step(From(r, events[..|events| - 1], parse, handlers), events[|events| - 1], parse, handlers)
  }

  /** An exit once decided on is never taken back, and no connection is opened after it. */
  lemma {:induction false} ExitIsFinal(r: Run, events: seq<Event>, parse: Bytes -> Packet, handlers: bool)
    requires r.client.exit
    ensures var r' := From(r, events, parse, handlers);
      && r'.client.exit && r'.client.connects == r.client.connects
      && (!r.client.active ==> !r'.client.active)
  {
    if events != [] {
      ExitIsFinal(r, events[..|events| - 1], parse, handlers);
      StepOnFlags(From(r, events[..|events| - 1], parse, handlers), events[|events| - 1], parse, handlers);
    }
  }

  /** After the final close no heartbeat thread is left, the client is never active again and never
      connects again, and the event loop ends when it next comes round; whatever still arrives. */
  lemma {:induction false} FinalCloseIsFinal(r: Run, e: Event, later: seq<Event>, parse: Bytes -> Packet,
                                             handlers: bool)
    requires ClosesForGood(r, e)
    ensures var r0 := Step(r, e, parse, handlers);
      var r' := From(r0, later, parse, handlers);
      && !r0.client.beating && !r0.client.connected
      && !r'.client.active && r'.client.connects == r.client.connects
      && ((exists i :: 0 <= i < |later| && later[i].LoopRound?) ==> !r'.looping)
  {
    var r0 := Step(r, e, parse, handlers);
    StepOnFlags(r, e, parse, handlers);
    ExitIsFinal(r0, later, parse, handlers);
    if later != [] {
      var before := later[..|later| - 1];
      FinalCloseIsFinal(r, e, before, parse, handlers);
      StepOnFlags(From(r0, before, parse, handlers), later[|later| - 1], parse, handlers);
      if i :| 0 <= i < |later| && later[i].LoopRound? && i < |before| {
        assert before[i] == later[i];
      }
    }
  }

  // ---------- The heartbeat loop ----------

  /** Beats sent by the loop over iterations that read these intervals, from counter `t`. */
  function Beats(intervals: seq<nat>, t: nat): nat {
    if intervals == [] then 0
    else if (t + 1) * 10 >= intervals[0] then 1 + Beats(intervals[1..], 0)
    else Beats(intervals[1..], t + 1)
  }

  /** Iterations between two beats: a tenth of the interval, rounded up, and at least one. */
  function Period(interval: nat): (p: nat)
    ensures p >= 1 && p * 10 >= interval && (p - 1) * 10 <= if interval == 0 then 0 else interval - 1
  {
    if interval == 0 then 1 else (interval + 9) / 10
  }

  lemma PeriodIsFirstBeat(t: nat, interval: nat)
    requires t < Period(interval)
    ensures (t + 1) * 10 >= interval <==> t + 1 == Period(interval)
  {
  }

  lemma {:induction false} BeatsAreEven(intervals: seq<nat>, interval: nat, t: nat)
    requires t < Period(interval) && forall i :: 0 <= i < |intervals| ==> intervals[i] == interval
    ensures Beats(intervals, t) == (|intervals| + t) / Period(interval)
  {
    var n, p := |intervals|, Period(interval);
    if n > 0 {
      PeriodIsFirstBeat(t, interval);
      if t + 1 == p {
        BeatsAreEven(intervals[1..], interval, 0);
        OneMorePeriod(n - 1, p);
      } else {
        BeatsAreEven(intervals[1..], interval, t + 1);
      }
    } else {
      SmallOverPeriod(t, p);
    }
  }

  lemma MultiplesAreApart(d: int, p: int)
    requires p > 0
    ensures d == 0 || d * p >= p || d * p <= -p
  {
    if d >= 1 {
      assert (d - 1) * p >= 0;
    } else if d <= -1 {
      assert (-d - 1) * p >= 0;
    }
  }

  lemma OneMorePeriod(n: nat, p: nat)
    requires p > 0
    ensures (n + p) / p == n / p + 1
  {
    var d := (n + p) / p - n / p - 1;
    assert (n + p) / p * p + (n + p) % p == n + p && n / p * p + n % p == n;
    assert d * p == n % p - (n + p) % p;
    MultiplesAreApart(d, p);
  }

  lemma SmallOverPeriod(t: nat, p: nat)
    requires t < p
    ensures t / p == 0
  {
  }

  /** What a round of the heartbeat thread finds: both flags, and the interval, which the thread that
      serves the connection may have set. */
  datatype Round = Round(active: bool, beating: bool, interval: nat)

  /** The rounds up to the first that finds a flag cleared. */
  function Served(rounds: seq<Round>): (n: nat)
    ensures n <= |rounds|
    ensures forall i :: 0 <= i < n ==> rounds[i].active && rounds[i].beating
    ensures n < |rounds| ==> !(rounds[n].active && rounds[n].beating)
  {
    if rounds == [] || !(rounds[0].active && rounds[0].beating) then 0 else 1 + Served(rounds[1..])
  }

  function Intervals(rounds: seq<Round>): (r: seq<nat>)
    ensures |r| == |rounds| && forall i :: 0 <= i < |r| ==> r[i] == rounds[i].interval
  {
    seq(|rounds|, i requires 0 <= i < |rounds| => rounds[i].interval)
  }

  lemma {:induction false} BeatsOfMore(intervals: seq<nat>, next: nat, t: nat) returns (t': nat)
    ensures Beats(intervals + [next], t) == Beats(intervals, t) + if (t' + 1) * 10 >= next then 1 else 0
    ensures t' == CounterAfter(intervals, t)
  {
    if intervals == [] {
      t' := t;
      assert intervals + [next] == [next];
    } else {
      assert (intervals + [next])[1..] == intervals[1..] + [next];
      t' := BeatsOfMore(intervals[1..], next, if (t + 1) * 10 >= intervals[0] then 0 else t + 1);
    }
  }

  /** The counter after these rounds. */
  function CounterAfter(intervals: seq<nat>, t: nat): nat {
    if intervals == [] then t
    else CounterAfter(intervals[1..], if (t + 1) * 10 >= intervals[0] then 0 else t + 1)
  }

  lemma {:induction false} CounterOfMore(intervals: seq<nat>, next: nat, t: nat)
    ensures CounterAfter(intervals + [next], t)
            == if (CounterAfter(intervals, t) + 1) * 10 >= next then 0 else CounterAfter(intervals, t) + 1
  {
    if intervals == [] {
      assert intervals + [next] == [next];
    } else {
      assert (intervals + [next])[1..] == intervals[1..] + [next];
      CounterOfMore(intervals[1..], next, if (t + 1) * 10 >= intervals[0] then 0 else t + 1);
    }
  }

  lemma {:induction false} ServedIs(rounds: seq<Round>, n: nat)
    requires n <= |rounds| && forall i :: 0 <= i < n ==> rounds[i].active && rounds[i].beating
    requires n < |rounds| ==> !(rounds[n].active && rounds[n].beating)
    ensures Served(rounds) == n
  {
    if n > 0 {
      ServedIs(rounds[1..], n - 1);
    }
  }

  /** The loop of the heartbeat thread, given what its rounds find. It sends a heartbeat exactly when
      the rounds since the last one, ten milliseconds each, make up the interval, and stops at the
      first round that finds a flag cleared. */
  method HeartbeatLoop(rounds: seq<Round>) returns (beats: nat, n: nat)
    ensures n == Served(rounds) && beats == Beats(Intervals(rounds[..n]), 0)
  {
    beats, n := 0, 0;
    var t := 0;
    while n < |rounds| && rounds[n].active && rounds[n].beating
      invariant n <= |rounds| && forall i :: 0 <= i < n ==> rounds[i].active && rounds[i].beating
      invariant beats == Beats(Intervals(rounds[..n]), 0) && t == CounterAfter(Intervals(rounds[..n]), 0)
    {
      ghost var before, interval := Intervals(rounds[..n]), rounds[n].interval;
      assert Intervals(rounds[..n + 1]) == before + [interval];
      ghost var _ := BeatsOfMore(before, interval, 0);
      CounterOfMore(before, interval, 0);
      t := t + 1;
      if t * 10 >= rounds[n].interval {
        beats := beats + 1;
        t := 0;
      }
      n := n + 1;
    }
    ServedIs(rounds, n);
  }

  /** With a fixed interval the beats are even. */
  lemma FixedIntervalBeatsEvenly(rounds: seq<Round>, interval: nat)
    requires forall i :: 0 <= i < |rounds| ==> rounds[i].interval == interval
    ensures Beats(Intervals(rounds[..Served(rounds)]), 0) == Served(rounds) / Period(interval)
  {
    BeatsAreEven(Intervals(rounds[..Served(rounds)]), interval, 0);
  }
}
