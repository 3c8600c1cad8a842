/** One connection of the WebSocket API (ha_ws.rs): the handshake, commands and their replies, and the events that
    subscription tasks push into a bounded queue between the replies. */
module WsConnection {
  import opened Text

  // ---------------------------------------------------------------------------
  // What travels
  // ---------------------------------------------------------------------------

  /** A client text read as an authentication message. */
  datatype AuthText = NotJson | WrongType | Malformed | NoToken | Token(valid: bool)

  /** The commands whose handling touches subscriptions, and all others, which succeed or fail with a code. */
  datatype Request = Ping | Subscribe | Unsubscribe(subscription: Option<nat>) | Other(error: Option<string>)

  /** A command that parsed: an id and a type. */
  datatype Command = Command(id: nat, request: Request)

  /** One text can be read either way; the phase decides which reading counts. */
  datatype ClientText = ClientText(auth: AuthText, command: Option<Command>)

  datatype Outcome = Success | Pong | Error(code: string)

  /** A reply carries the command it answers, of which only the id goes over the wire. */
  datatype Message =
    | AuthRequired
    | AuthOk
    | AuthInvalid
    | Reply(command: Command, outcome: Outcome)
    | Event(id: nat)
    | PingFrame

  // ---------------------------------------------------------------------------
  // The connection and its steps
  // ---------------------------------------------------------------------------

  datatype Phase = Connecting | Auth | Active

  const QUEUE_CAPACITY: nat := 256

  /** `subscriptions` maps a command id to the task it started last, `tasks` each running task to its id. A task
      whose handle was overwritten runs on. `reply` is the answer about to be sent. `parsed` records the commands
      received. */
  datatype Conn = Conn(open: bool, phase: Phase, subscriptions: map<nat, nat>, tasks: map<nat, nat>, started: nat,
                       queue: seq<Message>, reply: Option<Message>, out: seq<Message>, parsed: seq<Command>)

  const NEW := Conn(true, Connecting, map[], map[], 0, [], None, [], [])

  /** `ok` says whether a send succeeds; a failed send ends the connection. */
  datatype Input =
    | Connect(ok: bool)
    | Text(text: ClientText)
    | SendReply(ok: bool)
    | Forward(ok: bool)
    | Keepalive(ok: bool)
    | Close
    | TaskPush(task: nat)
    | TaskEnd(task: nat)

  function HandleAuth(c: Conn, text: AuthText): Conn {
    if text.Token? && text.valid then c.(phase := Active, reply := Some(AuthOk)) else c.(reply := Some(AuthInvalid))
  }

  function HandleCommand(c: Conn, command: Command): Conn {
    var c := c.(parsed := c.parsed + [command]);
    match command.request
    case Ping => c.(reply := Some(Reply(command, Pong)))
    case Subscribe =>
      c.(subscriptions := c.subscriptions[command.id := c.started], tasks := c.tasks[c.started := command.id],
         started := c.started + 1, reply := Some(Reply(command, Success)))
    case Unsubscribe(None) => c.(reply := Some(Reply(command, Error("invalid_format"))))
    case Unsubscribe(Some(s)) =>
      if s in c.subscriptions
      then c.(subscriptions := Without(c.subscriptions, s), tasks := Without(c.tasks, c.subscriptions[s]),
              reply := Some(Reply(command, Success)))
      else c.(reply := Some(Reply(command, Error("not_found"))))
    case Other(None) => c.(reply := Some(Reply(command, Success)))
    case Other(Some(code)) => c.(reply := Some(Reply(command, Error(code))))
  }

  /** The end of the connection aborts the tasks it still has handles for. */
  function Closed(c: Conn): Conn {
    c.(open := false, reply := None, subscriptions := map[],
       tasks := map t | t in c.tasks && t !in c.subscriptions.Values :: c.tasks[t])
  }

  function Sent(c: Conn, m: Message, ok: bool): Conn {
    if ok then c.(out := c.out + [m]) else Closed(c)
  }

  /** The socket loop selects an input only when it has no reply to send; tasks may run at any time. */
  function Step(c: Conn, i: Input): Conn {
    match i
    case TaskPush(t) =>
      if t in c.tasks && |c.queue| < QUEUE_CAPACITY then c.(queue := c.queue + [Event(c.tasks[t])]) else c
    case TaskEnd(t) => c.(tasks := Without(c.tasks, t))
    case Connect(ok) =>
      if c.open && c.phase.Connecting? then Sent(c.(phase := Auth), AuthRequired, ok) else c
    case SendReply(ok) =>
      if c.open && c.reply.Some? then Sent(c.(reply := None), c.reply.value, ok) else c
    case _ =>
      if !c.open || c.phase.Connecting? || c.reply.Some? then c
      else
        match i
        case Text(text) =>
          if c.phase.Auth? then HandleAuth(c, text.auth)
          else if text.command.Some? then HandleCommand(c, text.command.value)
          else c
        case Forward(ok) => if c.queue == [] then c else Sent(c.(queue := c.queue[1..]), c.queue[0], ok)
        case Keepalive(ok) => Sent(c, PingFrame, ok)
        case _ => Closed(c)
  }

  function Run(inputs: seq<Input>): Conn {
    if inputs == [] then NEW else Step(Run(inputs[..|inputs| - 1]), inputs[|inputs| - 1])
  }

  // ---------------------------------------------------------------------------
  // The socket loop
  // ---------------------------------------------------------------------------

  class Connection {
    var open: bool
    var phase: Phase
    var subscriptions: map<nat, nat>
    var tasks: map<nat, nat>
    var started: nat
    var queue: seq<Message>
    var reply: Option<Message>
    var out: seq<Message>
    var parsed: seq<Command>

    ghost function View(): Conn
      reads this
    {
      Conn(open, phase, subscriptions, tasks, started, queue, reply, out, parsed)
    }

    constructor ()
      ensures View() == NEW
    {
      open, phase, subscriptions, tasks, started := true, Connecting, map[], map[], 0;
      queue, reply, out, parsed := [], None, [], [];
    }

    method HandleAuthPhase(text: AuthText)
      modifies this`phase, this`reply
      ensures View() == HandleAuth(old(View()), text)
      ensures if text == Token(true) then phase == Active && reply == Some(AuthOk)
              else phase == old(phase) && reply == Some(AuthInvalid)
    {
      match text
      case Token(valid) =>
        if valid {
          phase := Active;
          reply := Some(AuthOk);
        } else {
          reply := Some(AuthInvalid);
        }
      case _ =>
        reply := Some(AuthInvalid);
    }

    method DispatchCommand(command: Command)
      modifies this
      ensures View() == HandleCommand(old(View()), command)
      ensures unchanged(`open) && unchanged(`phase) && unchanged(`queue) && unchanged(`out)
      ensures parsed == old(parsed) + [command]
      ensures command.request == Ping ==> reply == Some(Reply(command, Pong))
      ensures command.request == Subscribe ==>
        && reply == Some(Reply(command, Success)) && started == old(started) + 1
        && tasks == old(tasks)[old(started) := command.id]
        && subscriptions == old(subscriptions)[command.id := old(started)]
      ensures command.request != Subscribe ==> started == old(started)
      ensures !command.request.Subscribe? && !command.request.Unsubscribe? ==>
        unchanged(`tasks) && unchanged(`subscriptions)
      ensures command.request == Unsubscribe(None) ==>
        reply == Some(Reply(command, Error("invalid_format"))) && unchanged(`tasks) && unchanged(`subscriptions)
      ensures command.request.Unsubscribe? && command.request.subscription.Some? ==>
        var s := command.request.subscription.value;
        if s in old(subscriptions)
        then reply == Some(Reply(command, Success)) && subscriptions == old(subscriptions) - {s}
             && tasks == old(tasks) - {old(subscriptions)[s]}
        else reply == Some(Reply(command, Error("not_found"))) && unchanged(`tasks) && unchanged(`subscriptions)
      ensures command.request.Other? ==>
        reply == Some(Reply(command, if command.request.error == None then Success
                                     else Error(command.request.error.value)))
    {
      parsed := parsed + [command];
      match command.request
      case Ping =>
        reply := Some(Reply(command, Pong));
      case Subscribe =>
        tasks := tasks[started := command.id];
        subscriptions := subscriptions[command.id := started];
        started := started + 1;
        reply := Some(Reply(command, Success));
      case Unsubscribe(subscription) =>
        if subscription == None {
          reply := Some(Reply(command, Error("invalid_format")));
        } else if subscription.value in subscriptions {
          tasks := Without(tasks, subscriptions[subscription.value]);
          subscriptions := Without(subscriptions, subscription.value);
          reply := Some(Reply(command, Success));
        } else {
          reply := Some(Reply(command, Error("not_found")));
        }
      case Other(error) =>
        reply := Some(Reply(command, if error == None then Success else Error(error.value)));
    }

    /** One send on the socket; a failure leaves the loop and aborts the tasks it has handles for. */
    method Send(m: Message, ok: bool)
      modifies this
      ensures View() == Sent(old(View()), m, ok)
    {
      if ok {
        out := out + [m];
      } else {
        CleanUp();
      }
    }

    method CleanUp()
      modifies this
      ensures View() == Closed(old(View()))
    {
      open := false;
      reply := None;
      tasks := map t | t in tasks && t !in subscriptions.Values :: tasks[t];
      subscriptions := map[];
    }

    method Handle(i: Input)
      modifies this
      ensures View() == Step(old(View()), i)
    {
      match i
      case TaskPush(t) =>
        if t in tasks && |queue| < QUEUE_CAPACITY {
          queue := queue + [Event(tasks[t])];
        }
      case TaskEnd(t) =>
        tasks := Without(tasks, t);
      case Connect(ok) =>
        if open && phase.Connecting? {
          phase := Auth;
          Send(AuthRequired, ok);
        }
      case SendReply(ok) =>
        if open && reply.Some? {
          var m := reply.value;
          reply := None;
          Send(m, ok);
        }
      case Text(text) =>
        if open && !phase.Connecting? && reply == None {
          if phase.Auth? {
            HandleAuthPhase(text.auth);
          } else if text.command.Some? {
            DispatchCommand(text.command.value);
          }
        }
      case Forward(ok) =>
        if open && !phase.Connecting? && reply == None && queue != [] {
          var m := queue[0];
          queue := queue[1..];
          Send(m, ok);
        }
      case Keepalive(ok) =>
        if open && !phase.Connecting? && reply == None {
          Send(PingFrame, ok);
        }
      case Close =>
        if open && !phase.Connecting? && reply == None {
          CleanUp();
        }
    }

    /** handle_socket, over the inputs in the order the loop selects them. */
    method HandleSocket(inputs: seq<Input>)
      requires View() == NEW
      modifies this
      ensures View() == Run(inputs)
      ensures Ordered(out) && EventsFollow(out) && Answered(out) <= parsed
    {
      for i := 0 to |inputs|
        invariant View() == Run(inputs[..i])
      {
        assert inputs[..i + 1][..i] == inputs[..i];
        Handle(inputs[i]);
      }
      assert inputs[..|inputs|] == inputs;
      RunKeepsInv(inputs);
    }
  }

  // ---------------------------------------------------------------------------
  // What every trace keeps
  // ---------------------------------------------------------------------------

  /** The commands answered so far, in the order of their replies. */
  function Answered(out: seq<Message>): seq<Command> {
    if out == [] then []
    else
      var before, m := Answered(out[..|out| - 1]), out[|out| - 1];
      if m.Reply? then before + [m.command] else before
  }

  predicate Privileged(m: Message) {
    m.Reply? || m.Event?
  }

  /** A subscription with this id has been confirmed. */
  predicate Confirmation(m: Message, s: nat) {
    m == Reply(Command(s, Subscribe), Success)
  }

  predicate Confirmed(out: seq<Message>, s: nat) {
    exists j :: 0 <= j < |out| && Confirmation(out[j], s)
  }

  /** Confirmed, or about to be. */
  predicate Confirming(out: seq<Message>, reply: Option<Message>, s: nat) {
    Confirmed(out, s) || (reply.Some? && Confirmation(reply.value, s))
  }

  /** auth_required opens the trace and nothing privileged comes before auth_ok. */
  predicate Ordered(out: seq<Message>) {
    && (forall i :: 0 <= i < |out| ==> (out[i] == AuthRequired <==> i == 0))
    && (forall i :: 0 <= i < |out| && Privileged(out[i]) ==> exists j :: 0 <= j < i && out[j] == AuthOk)
    && (forall i, j :: 0 <= i < j < |out| && out[i] == AuthOk ==> out[j] != AuthOk && out[j] != AuthInvalid)
  }

  /** No event before the reply that confirms its subscription. */
  predicate EventsFollow(out: seq<Message>) {
    forall i :: 0 <= i < |out| && out[i].Event? ==> Confirmed(out[..i], out[i].id)
  }

  /** An open connection before, while and after authenticating. */
  predicate PhaseInv(c: Conn) {
    && (c.phase.Connecting? <==> c.out == [])
    && (AuthOk in c.out ==> c.phase.Active? && (c.reply.Some? ==> c.reply.value.Reply?))
    && (AuthOk !in c.out ==>
          && c.queue == [] && c.tasks == map[] && c.parsed == []
          && match c.phase
             case Connecting => c.reply == None
             case Auth => c.reply == None || c.reply == Some(AuthInvalid)
             case Active => c.reply == Some(AuthOk))
  }

  function AboutToAnswer(reply: Option<Message>): seq<Command> {
    if reply.Some? && reply.value.Reply? then [reply.value.command] else []
  }

  predicate EventInv(c: Conn) {
    && (forall k :: 0 <= k < |c.queue| ==> c.queue[k].Event? && Confirming(c.out, c.reply, c.queue[k].id))
    && (forall t :: t in c.tasks ==> Confirming(c.out, c.reply, c.tasks[t]))
  }

  predicate Inv(c: Conn) {
    && Ordered(c.out) && EventsFollow(c.out)
    && Answered(c.out) <= c.parsed && |c.parsed| <= |Answered(c.out)| + 1
    && (c.open ==> PhaseInv(c) && EventInv(c) && c.parsed == Answered(c.out) + AboutToAnswer(c.reply))
  }

  lemma AppendOrdered(out: seq<Message>, m: Message)
    requires Ordered(out) && (m == AuthRequired <==> out == [])
    requires Privileged(m) ==> AuthOk in out
    requires m == AuthOk || m == AuthInvalid ==> AuthOk !in out
    ensures Ordered(out + [m])
  {
    var out' := out + [m];
    forall i | 0 <= i < |out'| && Privileged(out'[i])
      ensures exists j :: 0 <= j < i && out'[j] == AuthOk
    {
      if i < |out| {
        var j :| 0 <= j < i && out[j] == AuthOk;
        assert out'[j] == AuthOk;
      } else {
        var j :| 0 <= j < |out| && out[j] == AuthOk;
        assert out'[j] == AuthOk;
      }
    }
  }

  lemma AppendEvents(out: seq<Message>, m: Message)
    requires EventsFollow(out) && (m.Event? ==> Confirmed(out, m.id))
    ensures EventsFollow(out + [m])
  {
    var out' := out + [m];
    forall i | 0 <= i < |out'| && out'[i].Event?
      ensures Confirmed(out'[..i], out'[i].id)
    {
      assert out'[..i] == out[..i];
      assert out[..|out|] == out;
    }
  }

  lemma AppendAnswered(out: seq<Message>, m: Message)
    ensures Answered(out + [m]) == Answered(out) + AboutToAnswer(Some(m))
  {
    assert (out + [m])[..|out|] == out;
  }

  lemma ConfirmingSurvivesSend(out: seq<Message>, m: Message, s: nat)
    ensures Confirming(out, Some(m), s) ==> Confirmed(out + [m], s)
    ensures Confirmed(out, s) ==> Confirmed(out + [m], s)
  {
    if Confirmed(out, s) {
      var j :| 0 <= j < |out| && Confirmation(out[j], s);
      assert Confirmation((out + [m])[j], s);
    }
    assert (out + [m])[|out|] == m;
  }

  lemma ReplyIsDue(c: Conn)
    requires PhaseInv(c) && c.reply.Some?
    ensures var m := c.reply.value;
      && c.out != [] && m != AuthRequired && !m.Event?
      && (m.Reply? <==> AuthOk in c.out)
      && (m.Reply? || m == AuthOk || m == AuthInvalid)
  {
  }

  lemma EventsAfterReply(c: Conn, c': Conn)
    requires EventInv(c) && c.reply.Some?
    requires c' == c.(out := c.out + [c.reply.value], reply := None)
    ensures EventInv(c')
  {
    forall s ensures Confirming(c.out, c.reply, s) ==> Confirming(c'.out, None, s) {
      ConfirmingSurvivesSend(c.out, c.reply.value, s);
    }
  }

  lemma PhaseAfterReply(c: Conn, c': Conn)
    requires PhaseInv(c) && c.reply.Some?
    requires c' == c.(out := c.out + [c.reply.value], reply := None)
    ensures PhaseInv(c')
  {
    var m := c.reply.value;
    ReplyIsDue(c);
    assert AuthOk in c'.out <==> AuthOk in c.out || m == AuthOk;
  }

  lemma ReplySent(c: Conn)
    requires Inv(c) && c.open && c.reply.Some?
    ensures Inv(Sent(c.(reply := None), c.reply.value, true))
  {
    var m := c.reply.value;
    var c' := Sent(c.(reply := None), m, true);
    ReplyIsDue(c);
    AppendOrdered(c.out, m);
    AppendEvents(c.out, m);
    AppendAnswered(c.out, m);
    EventsAfterReply(c, c');
    PhaseAfterReply(c, c');
  }

  /** c' is c after it sent a message outside the conversation: the greeting, a keepalive or a queued event. */
  predicate SentBeside(c: Conn, c': Conn, m: Message) {
    && !m.Reply? && m != AuthOk && m != AuthInvalid && (m == AuthRequired <==> c.out == [])
    && (m.Event? ==> Confirmed(c.out, m.id))
    && c' == c.(out := c.out + [m], phase := if c.phase.Connecting? then Auth else c.phase, queue := c'.queue)
    && forall k :: 0 <= k < |c'.queue| ==> c'.queue[k] in c.queue
  }

  lemma EventsAfterOther(c: Conn, c': Conn, m: Message)
    requires EventInv(c) && c.reply == None && SentBeside(c, c', m)
    ensures EventInv(c')
  {
    forall s ensures Confirming(c.out, None, s) ==> Confirming(c'.out, None, s) {
      ConfirmingSurvivesSend(c.out, m, s);
    }
  }

  lemma PhaseAfterOther(c: Conn, c': Conn, m: Message)
    requires PhaseInv(c) && c.reply == None && SentBeside(c, c', m)
    ensures PhaseInv(c')
  {
    assert AuthOk in c'.out <==> AuthOk in c.out;
    assert c'.queue != [] ==> c'.queue[0] in c.queue;
  }

  lemma OtherSent(c: Conn, c': Conn, m: Message)
    requires Inv(c) && c.open && c.reply == None && SentBeside(c, c', m)
    ensures Inv(c')
  {
    if m.Event? {
      var j :| 0 <= j < |c.out| && Confirmation(c.out[j], m.id);
      assert Privileged(c.out[j]);
    }
    AppendOrdered(c.out, m);
    AppendEvents(c.out, m);
    AppendAnswered(c.out, m);
    EventsAfterOther(c, c', m);
    PhaseAfterOther(c, c', m);
  }

  /** A command starts at most one task, under its own id, and its reply confirms it. */
  lemma CommandStartsTask(c: Conn, command: Command)
    requires c.reply == None
    ensures var c' := HandleCommand(c, command);
      && c'.reply.Some? && c'.reply.value.Reply? && c'.reply.value.command == command
      && c' == c.(parsed := c.parsed + [command], reply := c'.reply, tasks := c'.tasks,
                  subscriptions := c'.subscriptions, started := c'.started)
      && (forall t :: t in c'.tasks ==>
            || (t in c.tasks && c'.tasks[t] == c.tasks[t])
            || (c'.tasks[t] == command.id && Confirmation(c'.reply.value, command.id)))
  {
  }

  lemma CommandKeepsInv(c: Conn, command: Command)
    requires Inv(c) && c.open && c.phase.Active? && c.reply == None
    ensures Inv(HandleCommand(c, command))
  {
    CommandStartsTask(c, command);
    var c' := HandleCommand(c, command);
    assert forall s :: Confirming(c.out, None, s) ==> Confirming(c.out, c'.reply, s);
    assert EventInv(c');
  }

  lemma TextKeepsInv(c: Conn, text: ClientText)
    requires Inv(c) && c.open && !c.phase.Connecting? && c.reply == None
    ensures Inv(Step(c, Text(text)))
  {
    if c.phase.Active? && text.command.Some? {
      CommandKeepsInv(c, text.command.value);
    }
  }

  lemma PushKeepsInv(c: Conn, t: nat)
    requires Inv(c)
    ensures Inv(Step(c, TaskPush(t)))
  {
    if c.open && t in c.tasks {
      assert AuthOk in c.out;
      assert Confirming(c.out, c.reply, c.tasks[t]);
    }
  }

  lemma EndKeepsInv(c: Conn, t: nat)
    requires Inv(c)
    ensures Inv(Step(c, TaskEnd(t)))
  {
  }

  lemma TaskKeepsInv(c: Conn, i: Input)
    requires Inv(c) && (i.TaskPush? || i.TaskEnd?)
    ensures Inv(Step(c, i))
  {
    match i
    case TaskPush(t) => PushKeepsInv(c, t);
    case TaskEnd(t) => EndKeepsInv(c, t);
  }

  lemma SocketKeepsInv(c: Conn, i: Input)
    requires Inv(c) && c.open && c.reply == None && !c.phase.Connecting?
    requires i.Text? || i.Forward? || i.Keepalive? || i.Close?
    ensures Inv(Step(c, i))
  {
    match i
    case Text(text) => TextKeepsInv(c, text);
    case Forward(ok) =>
      if c.queue != [] && ok {
        OtherSent(c, Step(c, i), c.queue[0]);
      }
    case Keepalive(ok) =>
      if ok {
        OtherSent(c, Step(c, i), PingFrame);
      }
    case Close =>
  }

  lemma StepKeepsInv(c: Conn, i: Input)
    requires Inv(c)
    ensures Inv(Step(c, i))
  {
    if i.TaskPush? || i.TaskEnd? {
      TaskKeepsInv(c, i);
    } else if !c.open {
      assert Step(c, i) == c;
    } else if i.Connect? {
      if c.phase.Connecting? && i.ok {
        OtherSent(c, Step(c, i), AuthRequired);
      }
    } else if i.SendReply? {
      if c.reply.Some? && i.ok {
        ReplySent(c);
      }
    } else if c.reply == None && !c.phase.Connecting? {
      SocketKeepsInv(c, i);
    }
  }

  lemma {:induction false} RunKeepsInv(inputs: seq<Input>)
    ensures Inv(Run(inputs))
  {
    if inputs != [] {
      RunKeepsInv(inputs[..|inputs| - 1]);
      StepKeepsInv(Run(inputs[..|inputs| - 1]), inputs[|inputs| - 1]);
    }
  }

  /** Every trace of every connection: auth_required comes first and once, nothing privileged precedes auth_ok,
      and every event follows the confirmation of a subscription with its id. */
  lemma TraceIsOrdered(inputs: seq<Input>, i: nat)
    requires i < |Run(inputs).out|
    ensures var out := Run(inputs).out;
      && (out[i] == AuthRequired <==> i == 0)
      && (Privileged(out[i]) ==> AuthOk in out[..i])
      && (out[i].Event? ==> exists j :: 0 <= j < i && Confirmation(out[j], out[i].id))
  {
    RunKeepsInv(inputs);
    var out := Run(inputs).out;
    if Privileged(out[i]) {
      var j :| 0 <= j < i && out[j] == AuthOk;
      assert out[..i][j] == AuthOk;
    }
    if out[i].Event? {
      var j :| 0 <= j < |out[..i]| && Confirmation(out[..i][j], out[i].id);
      assert Confirmation(out[j], out[i].id);
    }
  }

  /** Every command that parsed gets exactly one reply, in the order of arrival; only the last one may be still to
      send, or lost with the connection. */
  lemma RepliesInOrder(inputs: seq<Input>)
    ensures var c := Run(inputs);
      && Answered(c.out) <= c.parsed && |c.parsed| <= |Answered(c.out)| + 1
      && (c.open && c.reply == None ==> Answered(c.out) == c.parsed)
  {
    RunKeepsInv(inputs);
  }

  // ---------------------------------------------------------------------------
  // Which answer, and which tasks run
  // ---------------------------------------------------------------------------

  /** A subscribe command with the id was handled, and no unsubscribe for it since. */
  predicate Live(parsed: seq<Command>, s: nat) {
    exists j :: 0 <= j < |parsed| && SubscribedAt(parsed, j, s)
  }

  predicate SubscribedAt(parsed: seq<Command>, j: nat, s: nat)
    requires j < |parsed|
  {
    parsed[j] == Command(s, Subscribe) && forall l :: j < l < |parsed| ==> parsed[l].request != Unsubscribe(Some(s))
  }

  lemma LiveOneMore(parsed: seq<Command>, command: Command, s: nat)
    ensures Live(parsed + [command], s) <==>
      command == Command(s, Subscribe) || (Live(parsed, s) && command.request != Unsubscribe(Some(s)))
  {
    var all := parsed + [command];
    if j :| 0 <= j < |parsed| && SubscribedAt(parsed, j, s) {
      assert command.request != Unsubscribe(Some(s)) ==> SubscribedAt(all, j, s);
    }
    if command == Command(s, Subscribe) {
      assert SubscribedAt(all, |parsed|, s);
    }
    if j :| 0 <= j < |all| && SubscribedAt(all, j, s) {
      if j < |parsed| {
        assert all[|parsed|] == command;
        forall l | j < l < |parsed| ensures parsed[l].request != Unsubscribe(Some(s)) {
          assert all[l] == parsed[l];
        }
        assert SubscribedAt(parsed, j, s);
      }
    }
  }

  /** How many tasks the commands have started, task t being the one started behind t others. */
  function Subscribes(parsed: seq<Command>): nat {
    if parsed == [] then 0
    else Subscribes(parsed[..|parsed| - 1]) + (if parsed[|parsed| - 1].request == Subscribe then 1 else 0)
  }

  /** The task started last under the id. */
  function LastTask(parsed: seq<Command>, s: nat): (t: Option<nat>)
    ensures t.Some? ==> t.value < Subscribes(parsed)
    ensures t.Some? <==> Command(s, Subscribe) in parsed
  {
    if parsed == [] then None
    else
      var before := parsed[..|parsed| - 1];
      if parsed[|parsed| - 1] == Command(s, Subscribe) then Some(Subscribes(before)) else LastTask(before, s)
  }

  /** The answer to a command behind the earlier ones. */
  function Due(before: seq<Command>, command: Command): Outcome {
    match command.request
    case Ping => Pong
    case Subscribe => Success
    case Unsubscribe(None) => Error("invalid_format")
    case Unsubscribe(Some(s)) => if Live(before, s) then Success else Error("not_found")
    case Other(None) => Success
    case Other(Some(code)) => Error(code)
  }

  function AllDue(parsed: seq<Command>): (r: seq<Outcome>)
    ensures |r| == |parsed|
  {
    if parsed == [] then []
    else
      var before := parsed[..|parsed| - 1];
      AllDue(before) + [Due(before, parsed[|parsed| - 1])]
  }

  /** The outcomes of the replies sent so far. */
  function Outcomes(out: seq<Message>): seq<Outcome> {
    if out == [] then []
    else
      var before, m := Outcomes(out[..|out| - 1]), out[|out| - 1];
      if m.Reply? then before + [m.outcome] else before
  }

  function PendingOutcome(reply: Option<Message>): seq<Outcome> {
    if reply.Some? && reply.value.Reply? then [reply.value.outcome] else []
  }

  predicate HandleAgrees(subscriptions: map<nat, nat>, parsed: seq<Command>, s: nat) {
    Lookup(subscriptions, s) == if Live(parsed, s) then LastTask(parsed, s) else None
  }

  /** Each handle belongs to the task started last under its id, and exactly the live ids have one. */
  ghost predicate HandlesInv(c: Conn) {
    c.started == Subscribes(c.parsed) && forall s :: HandleAgrees(c.subscriptions, c.parsed, s)
  }

  predicate OutcomesInv(c: Conn) {
    && Outcomes(c.out) <= AllDue(c.parsed)
    && (c.open ==> AllDue(c.parsed) == Outcomes(c.out) + PendingOutcome(c.reply))
  }

  lemma SubscribesOneMore(parsed: seq<Command>, command: Command)
    ensures Subscribes(parsed + [command])
         == Subscribes(parsed) + (if command.request == Subscribe then 1 else 0)
  {
    assert (parsed + [command])[..|parsed|] == parsed;
  }

  lemma DueOneMore(parsed: seq<Command>, command: Command)
    ensures AllDue(parsed + [command]) == AllDue(parsed) + [Due(parsed, command)]
  {
    assert (parsed + [command])[..|parsed|] == parsed;
  }

  lemma LastTaskOneMore(parsed: seq<Command>, command: Command, s: nat)
    ensures LastTask(parsed + [command], s)
         == if command == Command(s, Subscribe) then Some(Subscribes(parsed)) else LastTask(parsed, s)
  {
    assert (parsed + [command])[..|parsed|] == parsed;
  }

  lemma OneMoreOutcome(out: seq<Message>, m: Message)
    ensures Outcomes(out + [m]) == Outcomes(out) + PendingOutcome(Some(m))
  {
    assert (out + [m])[..|out|] == out;
  }

  lemma HandleAfter(c: Conn, command: Command, s: nat)
    ensures var subs := HandleCommand(c, command).subscriptions;
      Lookup(subs, s) == if command == Command(s, Subscribe) then Some(c.started)
                         else if command.request == Unsubscribe(Some(s)) then None
                         else Lookup(c.subscriptions, s)
  {
  }

  lemma CommandKeepsHandle(c: Conn, command: Command, s: nat)
    requires c.started == Subscribes(c.parsed) && HandleAgrees(c.subscriptions, c.parsed, s)
    ensures HandleAgrees(HandleCommand(c, command).subscriptions, c.parsed + [command], s)
  {
    HandleAfter(c, command, s);
    LastTaskOneMore(c.parsed, command, s);
    LiveOneMore(c.parsed, command, s);
  }

  lemma CommandIsCounted(c: Conn, command: Command)
    ensures var c' := HandleCommand(c, command);
      && c'.parsed == c.parsed + [command]
      && c'.started == c.started + (if command.request == Subscribe then 1 else 0)
  {
  }

  lemma StartsOne(c: Conn, command: Command)
    requires c.started == Subscribes(c.parsed)
    ensures HandleCommand(c, command).started == Subscribes(HandleCommand(c, command).parsed)
    ensures HandleCommand(c, command).parsed == c.parsed + [command]
  {
    CommandIsCounted(c, command);
    SubscribesOneMore(c.parsed, command);
  }

  lemma CommandKeepsHandles(c: Conn, command: Command)
    requires HandlesInv(c)
    ensures HandlesInv(HandleCommand(c, command))
  {
    var c' := HandleCommand(c, command);
    StartsOne(c, command);
    forall s ensures HandleAgrees(c'.subscriptions, c'.parsed, s) {
      CommandKeepsHandle(c, command, s);
    }
  }

  lemma LiveHasTask(parsed: seq<Command>, s: nat)
    ensures Live(parsed, s) ==> LastTask(parsed, s).Some?
  {
    if j :| 0 <= j < |parsed| && SubscribedAt(parsed, j, s) {
      assert parsed[j] in parsed;
    }
  }

  lemma CommandIsDue(c: Conn, command: Command)
    requires HandlesInv(c)
    ensures var c' := HandleCommand(c, command);
      c'.reply == Some(Reply(command, Due(c.parsed, command))) && c'.parsed == c.parsed + [command] && c'.out == c.out
  {
    match command.request
    case Unsubscribe(Some(s)) =>
      assert HandleAgrees(c.subscriptions, c.parsed, s);
      LiveHasTask(c.parsed, s);
    case _ =>
  }

  /** The connection takes its input: it is open, authenticated or about to be, and has no reply to send. */
  predicate Listens(c: Conn, phase: Phase) {
    c.open && c.phase == phase && c.reply == None
  }

  predicate Takes(c: Conn, i: Input) {
    i.Text? && i.text.command.Some? && Listens(c, Active)
  }

  lemma StepKeepsHandles(c: Conn, i: Input)
    requires c.open ==> HandlesInv(c)
    ensures Step(c, i).open ==> HandlesInv(Step(c, i))
  {
    if Takes(c, i) {
      CommandKeepsHandles(c, i.text.command.value);
    }
  }

  lemma CommandKeepsOutcomes(c: Conn, command: Command)
    requires HandlesInv(c) && OutcomesInv(c) && c.open && c.reply == None
    ensures OutcomesInv(HandleCommand(c, command))
  {
    DueOneMore(c.parsed, command);
    CommandIsDue(c, command);
    assert HandleCommand(c, command).open;
  }

  /** What the step sends, if it sends anything. */
  function Sends(c: Conn, i: Input): Option<Message> {
    if !c.open then None
    else match i
      case Connect(_) => if c.phase.Connecting? then Some(AuthRequired) else None
      case SendReply(_) => c.reply
      case Forward(_) =>
        if c.phase.Connecting? || c.reply.Some? || c.queue == [] then None else Some(c.queue[0])
      case Keepalive(_) => if c.phase.Connecting? || c.reply.Some? then None else Some(PingFrame)
      case _ => None
  }

  lemma SendingStep(c: Conn, i: Input)
    requires Sends(c, i).Some?
    ensures var c', m := Step(c, i), Sends(c, i).value;
      && c'.parsed == c.parsed && (c'.open ==> c'.out == c.out + [m]) && (!c'.open ==> c'.out == c.out)
      && (i.SendReply? ==> c.reply == Some(m) && c'.reply == None)
      && (!i.SendReply? && c'.open ==> c'.reply == c.reply)
  {
  }

  lemma SilentStep(c: Conn, i: Input)
    requires Sends(c, i).None? && !Takes(c, i)
    ensures var c' := Step(c, i);
      && c'.parsed == c.parsed && c'.out == c.out
      && (c'.open ==> c.open && PendingOutcome(c'.reply) == PendingOutcome(c.reply))
  {
  }

  lemma StepKeepsOutcomes(c: Conn, i: Input)
    requires (c.open ==> HandlesInv(c)) && OutcomesInv(c)
    requires forall k :: 0 <= k < |c.queue| && c.open ==> c.queue[k].Event?
    ensures OutcomesInv(Step(c, i))
  {
    if Takes(c, i) {
      CommandKeepsOutcomes(c, i.text.command.value);
    } else if Sends(c, i).Some? {
      SendingStep(c, i);
      OneMoreOutcome(c.out, Sends(c, i).value);
    } else {
      SilentStep(c, i);
    }
  }

  lemma {:induction false} RunKeepsOutcomes(inputs: seq<Input>)
    ensures (Run(inputs).open ==> HandlesInv(Run(inputs))) && OutcomesInv(Run(inputs))
  {
    if inputs != [] {
      var before := inputs[..|inputs| - 1];
      RunKeepsOutcomes(before);
      RunKeepsInv(before);
      StepKeepsHandles(Run(before), inputs[|inputs| - 1]);
      StepKeepsOutcomes(Run(before), inputs[|inputs| - 1]);
    }
  }

  lemma {:induction false} ReplyPosition(out: seq<Message>, i: nat)
    requires i < |out| && out[i].Reply?
    ensures var n := |Answered(out[..i])|;
      && n < |Answered(out)| == |Outcomes(out)|
      && Answered(out)[n] == out[i].command && Outcomes(out)[n] == out[i].outcome
  {
    var n := |out| - 1;
    if i < n {
      ReplyPosition(out[..n], i);
      assert out[..n][..i] == out[..i];
    } else {
      AsManyOutcomes(out[..n]);
    }
  }

  lemma {:induction false} AsManyOutcomes(out: seq<Message>)
    ensures |Answered(out)| == |Outcomes(out)|
  {
    if out != [] {
      AsManyOutcomes(out[..|out| - 1]);
    }
  }

  lemma {:induction false} DueAt(parsed: seq<Command>, n: nat)
    requires n < |parsed|
    ensures AllDue(parsed)[n] == Due(parsed[..n], parsed[n])
  {
    if n < |parsed| - 1 {
      DueAt(parsed[..|parsed| - 1], n);
      assert parsed[..|parsed| - 1][..n] == parsed[..n];
    }
  }

  /** Every reply of every trace answers the n-th command received, n replies having been sent before, and says what
      is due: a ping is answered with a pong and nothing else is; an unsubscribe succeeds exactly if a subscribe with
      that id was handled before it and no unsubscribe for it since. */
  lemma RepliesAreRight(inputs: seq<Input>, i: nat) returns (n: nat)
    requires i < |Run(inputs).out| && Run(inputs).out[i].Reply?
    ensures n == |Answered(Run(inputs).out[..i])| < |Run(inputs).parsed|
    ensures var m, before := Run(inputs).out[i], Run(inputs).parsed[..n];
      && m.command == Run(inputs).parsed[n]
      && (m.outcome == Pong <==> m.command.request == Ping)
      && match m.command.request
         case Ping => true
         case Subscribe => m.outcome == Success
         case Unsubscribe(None) => m.outcome == Error("invalid_format")
         case Unsubscribe(Some(s)) =>
           m.outcome == if exists j :: 0 <= j < n && SubscribedAt(before, j, s) then Success else Error("not_found")
         case Other(error) => m.outcome == if error == None then Success else Error(error.value)
  {
    var c := Run(inputs);
    n := |Answered(c.out[..i])|;
    RunKeepsInv(inputs);
    RunKeepsOutcomes(inputs);
    ReplyPosition(c.out, i);
    DueAt(c.parsed, n);
  }

  // ---------------------------------------------------------------------------
  // What gets through
  // ---------------------------------------------------------------------------

  /** The commands among the texts that the connection read while authenticated, with no reply to send. */
  function Received(inputs: seq<Input>): seq<Command> {
    if inputs == [] then []
    else
      var before, i := inputs[..|inputs| - 1], inputs[|inputs| - 1];
      if Takes(Run(before), i) then Received(before) + [i.text.command.value] else Received(before)
  }

  lemma {:induction false} EveryCommandIsReceived(inputs: seq<Input>)
    ensures Run(inputs).parsed == Received(inputs)
  {
    if inputs != [] {
      EveryCommandIsReceived(inputs[..|inputs| - 1]);
      ParsedAfterStep(Run(inputs[..|inputs| - 1]), inputs[|inputs| - 1]);
    }
  }

  lemma ParsedAfterStep(c: Conn, i: Input)
    ensures Step(c, i).parsed == if Takes(c, i) then c.parsed + [i.text.command.value] else c.parsed
  {
  }

  predicate AuthenticatesAt(inputs: seq<Input>, k: nat)
    requires k < |inputs|
  {
    inputs[k].Text? && inputs[k].text.auth == Token(true) && Listens(Run(inputs[..k]), Auth)
  }

  predicate Authenticated(inputs: seq<Input>) {
    exists k :: 0 <= k < |inputs| && AuthenticatesAt(inputs, k)
  }

  lemma AuthenticatedOneMore(inputs: seq<Input>)
    requires inputs != []
    ensures var n := |inputs| - 1;
      Authenticated(inputs) <==> Authenticated(inputs[..n]) || AuthenticatesAt(inputs, n)
  {
    var n := |inputs| - 1;
    forall k | 0 <= k < n ensures AuthenticatesAt(inputs[..n], k) <==> AuthenticatesAt(inputs, k) {
      assert inputs[..n][..k] == inputs[..k];
    }
    if k :| 0 <= k < n && AuthenticatesAt(inputs[..n], k) {
      assert AuthenticatesAt(inputs, k);
    }
    if k :| 0 <= k < |inputs| && AuthenticatesAt(inputs, k) {
      assert k < n ==> AuthenticatesAt(inputs[..n], k);
    }
  }

  /** A connection is authenticated exactly if it read a valid token behind its greeting. */
  lemma {:induction false} ActiveExactlyWhen(inputs: seq<Input>)
    ensures Run(inputs).phase.Active? <==> exists k :: 0 <= k < |inputs| && AuthenticatesAt(inputs, k)
  {
    ActiveIsAuthenticated(inputs);
  }

  lemma {:induction false} ActiveIsAuthenticated(inputs: seq<Input>)
    ensures Run(inputs).phase.Active? <==> Authenticated(inputs)
  {
    if inputs != [] {
      ActiveIsAuthenticated(inputs[..|inputs| - 1]);
      AuthenticatedOneMore(inputs);
      PhaseAfterStep(Run(inputs[..|inputs| - 1]), inputs[|inputs| - 1]);
    }
  }

  lemma PhaseAfterStep(c: Conn, i: Input)
    ensures Step(c, i).phase.Active? <==>
      c.phase.Active? || (i.Text? && i.text.auth == Token(true) && Listens(c, Auth))
  {
  }

  /** The event that a running task puts into the queue if it has room. */
  function Pushes(c: Conn, i: Input): seq<Message> {
    if i.TaskPush? && i.task in c.tasks && |c.queue| < 256 then [Event(c.tasks[i.task])] else []
  }

  function Pushed(inputs: seq<Input>): seq<Message> {
    if inputs == [] then []
    else Pushed(inputs[..|inputs| - 1]) + Pushes(Run(inputs[..|inputs| - 1]), inputs[|inputs| - 1])
  }

  function EventsSent(out: seq<Message>): seq<Message> {
    if out == [] then []
    else
      var before, m := EventsSent(out[..|out| - 1]), out[|out| - 1];
      if m.Event? then before + [m] else before
  }

  lemma EventsOneMore(out: seq<Message>, m: Message)
    ensures EventsSent(out + [m]) == if m.Event? then EventsSent(out) + [m] else EventsSent(out)
  {
    assert (out + [m])[..|out|] == out;
  }

  predicate EventsAccounted(c: Conn, pushed: seq<Message>) {
    && EventsSent(c.out) <= pushed
    && (c.open ==> pushed == EventsSent(c.out) + c.queue)
  }

  /** On an open connection no event is lost, repeated or reordered: those sent and those in the queue are the ones
      the tasks pushed. What a closed one has sent is a beginning of that. */
  lemma {:induction false} EventsInOrder(inputs: seq<Input>)
    ensures EventsSent(Run(inputs).out) <= Pushed(inputs)
    ensures Run(inputs).open ==> Pushed(inputs) == EventsSent(Run(inputs).out) + Run(inputs).queue
  {
    EventsAreAccounted(inputs);
  }

  lemma {:induction false} EventsAreAccounted(inputs: seq<Input>)
    ensures EventsAccounted(Run(inputs), Pushed(inputs))
  {
    if inputs != [] {
      var before, i := inputs[..|inputs| - 1], inputs[|inputs| - 1];
      EventsAreAccounted(before);
      RunKeepsInv(before);
      EventsAfterStep(Run(before), i, Pushed(before));
    }
  }

  lemma QueueAfterStep(c: Conn, i: Input)
    ensures Step(c, i).open ==> c.open
    ensures Step(c, i).open ==>
      Step(c, i).queue == if i.Forward? && Sends(c, i).Some? then c.queue[1..] else c.queue + Pushes(c, i)
    ensures i.Forward? && Sends(c, i).Some? ==> c.queue != [] && Sends(c, i).value == c.queue[0] && Pushes(c, i) == []
    ensures Sends(c, i).Some? ==> Pushes(c, i) == []
  {
  }

  lemma OnlyForwardSendsEvents(c: Conn, i: Input)
    requires Inv(c) && Sends(c, i).Some?
    ensures Sends(c, i).value.Event? <==> i.Forward?
  {
    if i.SendReply? {
      ReplyIsDue(c);
    }
  }

  lemma OutAfterStep(c: Conn, i: Input)
    requires Inv(c)
    ensures EventsSent(Step(c, i).out) ==
      if Step(c, i).open && i.Forward? && Sends(c, i).Some? then EventsSent(c.out) + [c.queue[0]] else EventsSent(c.out)
  {
    if Sends(c, i).Some? {
      SendingStep(c, i);
      OnlyForwardSendsEvents(c, i);
      EventsOneMore(c.out, Sends(c, i).value);
    } else {
      OutStays(c, i);
    }
  }

  lemma OutStays(c: Conn, i: Input)
    requires Sends(c, i).None?
    ensures Step(c, i).out == c.out
  {
  }

  lemma EventsAfterStep(c: Conn, i: Input, pushed: seq<Message>)
    requires Inv(c) && EventsAccounted(c, pushed)
    ensures EventsAccounted(Step(c, i), pushed + Pushes(c, i))
  {
    QueueAfterStep(c, i);
    OutAfterStep(c, i);
    if c.open && i.Forward? && Sends(c, i).Some? {
      assert c.queue == [c.queue[0]] + c.queue[1..];
      Regroup(EventsSent(c.out), [c.queue[0]], c.queue[1..]);
    } else {
      Regroup(EventsSent(c.out), c.queue, Pushes(c, i));
    }
  }

  // ---------------------------------------------------------------------------
  // Which tasks run
  // ---------------------------------------------------------------------------

  /** The id under which task t was started. */
  function TaskId(parsed: seq<Command>, t: nat): nat
    requires t < Subscribes(parsed)
  {
    var before, command := parsed[..|parsed| - 1], parsed[|parsed| - 1];
    if Subscribes(before) == t then command.id else TaskId(before, t)
  }

  /** The tasks that ended by themselves, and those stopped by an unsubscribe that found its subscription live. */
  function Stopped(inputs: seq<Input>): set<nat> {
    if inputs == [] then {}
    else Stopped(inputs[..|inputs| - 1]) + StoppedBy(Run(inputs[..|inputs| - 1]), inputs[|inputs| - 1])
  }

  function StoppedBy(c: Conn, i: Input): set<nat> {
    if i.TaskEnd? then (if i.task < Subscribes(c.parsed) then {i.task} else {})
    else if Takes(c, i) then
      match i.text.command.value.request
      case Unsubscribe(Some(s)) =>
        if Live(c.parsed, s) && LastTask(c.parsed, s).Some? then {LastTask(c.parsed, s).value} else {}
      case _ => {}
    else {}
  }

  /** Task t still has a handle: it was started last under an id that is live. */
  ghost predicate HasHandle(parsed: seq<Command>, t: nat) {
    exists s :: Live(parsed, s) && LastTask(parsed, s) == Some(t)
  }

  ghost predicate TaskAgrees(c: Conn, stopped: set<nat>, t: nat) {
    && (t in c.tasks <==> t < Subscribes(c.parsed) && t !in stopped && (c.open || !HasHandle(c.parsed, t)))
    && (t in c.tasks ==> c.tasks[t] == TaskId(c.parsed, t))
  }

  lemma TaskIdOneMore(parsed: seq<Command>, command: Command, t: nat)
    requires t < Subscribes(parsed + [command])
    ensures TaskId(parsed + [command], t) == if t < Subscribes(parsed) then TaskId(parsed, t) else command.id
  {
    assert (parsed + [command])[..|parsed|] == parsed;
    SubscribesOneMore(parsed, command);
  }

  lemma TasksAfterCommand(c: Conn, command: Command)
    requires HandlesInv(c)
    ensures var c' := HandleCommand(c, command);
      && c'.open == c.open && c'.parsed == c.parsed + [command]
      && c'.tasks == match command.request
           case Subscribe => c.tasks[Subscribes(c.parsed) := command.id]
           case Unsubscribe(Some(s)) =>
             if Live(c.parsed, s) && LastTask(c.parsed, s).Some?
             then Without(c.tasks, LastTask(c.parsed, s).value) else c.tasks
           case _ => c.tasks
  {
    match command.request
    case Unsubscribe(Some(s)) =>
      assert HandleAgrees(c.subscriptions, c.parsed, s);
      LiveHasTask(c.parsed, s);
    case _ =>
  }

  lemma TaskAfterCommand(c: Conn, i: Input, stopped: set<nat>, t: nat)
    requires HandlesInv(c) && Takes(c, i) && TaskAgrees(c, stopped, t)
    requires forall u :: u in stopped ==> u < Subscribes(c.parsed)
    ensures TaskAgrees(HandleCommand(c, i.text.command.value), stopped + StoppedBy(c, i), t)
  {
    var command := i.text.command.value;
    TasksAfterCommand(c, command);
    SubscribesOneMore(c.parsed, command);
    if t < Subscribes(c.parsed + [command]) {
      TaskIdOneMore(c.parsed, command, t);
    }
  }

  lemma TaskAfterClose(c: Conn, stopped: set<nat>, t: nat)
    requires HandlesInv(c) && c.open && TaskAgrees(c, stopped, t)
    ensures TaskAgrees(Closed(c), stopped, t)
  {
    if t in c.subscriptions.Values {
      var s :| s in c.subscriptions && c.subscriptions[s] == t;
      assert HandleAgrees(c.subscriptions, c.parsed, s);
      assert Live(c.parsed, s) && LastTask(c.parsed, s) == Some(t);
    }
    if s :| Live(c.parsed, s) && LastTask(c.parsed, s) == Some(t) {
      assert HandleAgrees(c.subscriptions, c.parsed, s);
      assert c.subscriptions[s] == t;
    }
  }

  lemma OtherStepKeepsTasks(c: Conn, i: Input)
    requires !Takes(c, i) && !i.TaskEnd?
    ensures var c' := Step(c, i);
      && c'.parsed == c.parsed && (c'.open ==> c.open) && StoppedBy(c, i) == {}
      && c'.tasks == if c.open && !c'.open then Closed(c).tasks else c.tasks
  {
  }

  lemma TaskAfterStep(c: Conn, i: Input, stopped: set<nat>, t: nat)
    requires (c.open ==> HandlesInv(c)) && TaskAgrees(c, stopped, t)
    requires forall u :: u in stopped ==> u < Subscribes(c.parsed)
    ensures TaskAgrees(Step(c, i), stopped + StoppedBy(c, i), t)
  {
    if Takes(c, i) {
      TaskAfterCommand(c, i, stopped, t);
    } else if !i.TaskEnd? {
      OtherStepKeepsTasks(c, i);
      if c.open {
        TaskAfterClose(c, stopped, t);
      }
    }
  }

  lemma {:induction false} StoppedWereStarted(inputs: seq<Input>)
    ensures forall u :: u in Stopped(inputs) ==> u < Subscribes(Run(inputs).parsed)
  {
    if inputs != [] {
      var before, i := inputs[..|inputs| - 1], inputs[|inputs| - 1];
      StoppedWereStarted(before);
      ParsedAfterStep(Run(before), i);
      if Takes(Run(before), i) {
        SubscribesOneMore(Run(before).parsed, i.text.command.value);
      }
    }
  }

  lemma {:induction false} TaskFollowsRun(inputs: seq<Input>, t: nat)
    ensures TaskAgrees(Run(inputs), Stopped(inputs), t)
  {
    if inputs != [] {
      var before := inputs[..|inputs| - 1];
      TaskFollowsRun(before, t);
      RunKeepsOutcomes(before);
      StoppedWereStarted(before);
      TaskAfterStep(Run(before), inputs[|inputs| - 1], Stopped(before), t);
    }
  }

  /** Exactly these tasks run: those started by a subscribe command, under its id, that have not ended and were not
      stopped by an unsubscribe; on a closed connection, of these only those without a handle. */
  lemma RunningTasks(inputs: seq<Input>, t: nat)
    ensures var c := Run(inputs);
      && (t in c.tasks <==>
            && t < Subscribes(c.parsed) && t !in Stopped(inputs)
            && (c.open || forall s :: Live(c.parsed, s) ==> LastTask(c.parsed, s) != Some(t)))
      && (t in c.tasks ==> c.tasks[t] == TaskId(c.parsed, t))
  {
    TaskFollowsRun(inputs, t);
  }

  lemma {:induction false} StoppedStaysStopped(inputs: seq<Input>, k: nat)
    requires k <= |inputs|
    ensures Stopped(inputs[..k]) <= Stopped(inputs)
  {
    if k < |inputs| {
      StoppedStaysStopped(inputs[..|inputs| - 1], k);
      assert inputs[..|inputs| - 1][..k] == inputs[..k];
    } else {
      assert inputs[..k] == inputs;
    }
  }

  /** Once an unsubscribe has been answered with success, the task started last under its id never runs again. */
  lemma UnsubscribedTaskIsGone(inputs: seq<Input>, k: nat, s: nat)
    requires k < |inputs| && Takes(Run(inputs[..k]), inputs[k])
    requires inputs[k].text.command.value.request == Unsubscribe(Some(s)) && Live(Run(inputs[..k]).parsed, s)
    ensures var t := LastTask(Run(inputs[..k]).parsed, s);
      t.Some? && t.value !in Run(inputs).tasks
  {
    var c := Run(inputs[..k]);
    LiveHasTask(c.parsed, s);
    assert inputs[..k + 1][..k] == inputs[..k];
    assert LastTask(c.parsed, s).value in Stopped(inputs[..k + 1]);
    StoppedStaysStopped(inputs, k + 1);
    RunningTasks(inputs, LastTask(c.parsed, s).value);
  }
}
