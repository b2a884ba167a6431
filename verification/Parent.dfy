/** The executor's request loop (Parent of src/Executor/Parent.c). */
module Parent {
  import opened Tokens
  import opened ExecutorWorld
  import E = Executor
  import opened Frames
  import opened Transport

  /** Why the loop ended: the end of the input, a signal, a fatal error, or no more events. */
  datatype Exit = EndOfInput | Signalled | BadHeader | BadCode | BadRequest | BadResponse | NoAgent | Starved

  // ----- One request.

  datatype Read = GotFrame(frame: Frame) | Stop(exit: Exit)

  datatype Taken = Taken(read: Read, rest: In)

  /** What a transfer of the wrong length means. */
  function Failure(got: Got, exit: Exit): Exit {
    match got
    case Exited => Signalled
    case Waiting => Starved
    case Count(_) => exit
  }

  function TakeBody(s: In, code: nat): (r: Taken)
    requires InOk(s) && BodySize(code).Some?
    ensures InOk(r.rest)
  {
    var size := BodySize(code).value;
    if size == 0 then Taken(GotFrame(Frame(code, [])), s)
    else
      var r := ReceiveAll(s, size);
      ReceiveCounts(s, size, 0);
      if r.got != Count(size) then Taken(Stop(Failure(r.got, BadRequest)), r.rest)
      else Taken(GotFrame(Frame(code, s.stream[s.pos..r.rest.pos])), r.rest)
  }

  function TakeRequest(s: In): (r: Taken)
    requires InOk(s)
    ensures InOk(r.rest)
  {
    var r := ReceiveAll(s, 4);
    ReceiveCounts(s, 4, 0);
    if r.got == Count(0) then Taken(Stop(EndOfInput), r.rest)
    else if r.got != Count(4) then Taken(Stop(Failure(r.got, BadHeader)), r.rest)
    else
      var code := WordAt(s.stream[s.pos..r.rest.pos], 0, 4);
      if BodySize(code).None? then Taken(Stop(BadCode), r.rest) else TakeBody(r.rest, code)
  }

  /** The response, then the byte that carries descriptors: that one is not checked. */
  function Deliver(o: Out, reply: Reply, env: Env): (r: Sent)
    requires OutOk(o)
    ensures OutOk(r.rest)
  {
    var r := Send(o, ReplyBytes(reply), 0);
    if r.got == Count(|ReplyBytes(reply)|) && PassesDescriptors(reply) && env.passOk
    then Sent(r.got, r.rest.(sent := r.rest.sent + [0]))
    else r
  }

  // ----- The loop.

  /** A whole run of the loop: the frames handled, the replies to them, and the end. */
  datatype Trace = Trace(frames: seq<Frame>, replies: seq<Reply>, exit: Exit, world: World, rest: In, out: Out)

  function Cons(f: Frame, r: Reply, t: Trace): Trace {
    t.(frames := [f] + t.frames, replies := [r] + t.replies)
  }

  lemma TakesProperFrames(s: In)
    requires InOk(s)
    ensures var r := TakeRequest(s);
            && r.rest.stream == s.stream && r.rest.events == s.events
            && (r.read.GotFrame? ==> ProperFrame(r.read.frame) && r.rest.next > s.next)
  {
    ReceiveCounts(s, 4, 0);
    var r := ReceiveAll(s, 4);
    if r.got == Count(4) {
      var code := WordAt(s.stream[s.pos..r.rest.pos], 0, 4);
      if BodySize(code).Some? && BodySize(code).value > 0 {
        ReceiveCounts(r.rest, BodySize(code).value, 0);
      }
    }
  }

  /** Serve from the k-th request on, with what the environment does for each request. */
  function Loop(c: Config, w: World, s: In, o: Out, envs: nat -> Env, k: nat): Trace
    requires InOk(s) && OutOk(o)
    decreases |s.events| - s.next
  {
    var taken := TakeRequest(s);
    if taken.read.Stop? then Trace([], [], taken.read.exit, w, taken.rest, o)
    else
      TakesProperFrames(s);
      var frame := taken.read.frame;
      var handled := Handled(c, w, DecodeRequest(frame), envs(k));
      if handled.Dies? then Trace([frame], [], NoAgent, w, taken.rest, o)
      else
        var sent := Deliver(o, handled.reply, envs(k));
        if sent.got != Count(|ReplyBytes(handled.reply)|)
        then Trace([frame], [handled.reply], Failure(sent.got, BadResponse), handled.world, taken.rest, sent.rest)
        else Cons(frame, handled.reply, Loop(c, handled.world, taken.rest, sent.rest, envs, k + 1))
  }

  /** How a run ends. */
  datatype End = End(exit: Exit, world: World, rest: In, out: Out)

  function EndOf(t: Trace): End {
    End(t.exit, t.world, t.rest, t.out)
  }

  // ----- The same, imperatively.

  /** Receive a header and the body it asks for. */
  method ReadRequest(socket: Socket) returns (read: Read)
    requires InOk(socket.Incoming())
    modifies socket`pos, socket`next
    ensures Taken(read, socket.Incoming()) == TakeRequest(old(socket.Incoming()))
  {
    var header := new Byte[4];
    ghost var s := socket.Incoming();
    var got := socket.RecvNonBlock(header, 4);
    if got == Count(0) {
      return Stop(EndOfInput);
    }
    if got != Count(4) {
      return Stop(Failure(got, BadHeader));
    }
    ReceiveCounts(s, 4, 0);
    assert header[..] == header[..4];
    var code := WordAt(header[..], 0, 4);
    if BodySize(code).None? {
      return Stop(BadCode);
    }
    read := ReadBody(socket, code);
  }

  method ReadBody(socket: Socket, code: nat) returns (read: Read)
    requires InOk(socket.Incoming()) && BodySize(code).Some?
    modifies socket`pos, socket`next
    ensures Taken(read, socket.Incoming()) == TakeBody(old(socket.Incoming()), code)
  {
    var size := BodySize(code).value;
    if size == 0 {
      return GotFrame(Frame(code, []));
    }
    var body := new Byte[size];
    ghost var s := socket.Incoming();
    var got := socket.RecvNonBlock(body, size);
    if got != Count(size) {
      return Stop(Failure(got, BadRequest));
    }
    ReceiveCounts(s, size, 0);
    assert body[..] == body[..size];
    return GotFrame(Frame(code, body[..]));
  }

  method WriteReply(socket: Socket, reply: Reply, env: Env) returns (got: Got)
    requires OutOk(socket.Outgoing())
    modifies socket`sent, socket`nextSend
    ensures Sent(got, socket.Outgoing()) == Deliver(old(socket.Outgoing()), reply, env)
  {
    got := socket.SendNonBlock(ReplyBytes(reply));
    if got == Count(|ReplyBytes(reply)|) && PassesDescriptors(reply) && env.passOk {
      socket.sent := socket.sent + [0];
    }
  }

  method Parent(executor: E.Executor, socket: Socket, envs: nat -> Env) returns (exit: Exit)
    requires executor.Valid() && InOk(socket.Incoming()) && OutOk(socket.Outgoing())
    modifies executor, executor.sequence, socket
    ensures executor.Valid()
    ensures End(exit, executor.State(), socket.Incoming(), socket.Outgoing()) ==
            EndOf(Loop(executor.Settled(), old(executor.State()), old(socket.Incoming()), old(socket.Outgoing()),
                       envs, 0))
  {
    ghost var c := executor.Settled();
    ghost var end := EndOf(Loop(c, executor.State(), socket.Incoming(), socket.Outgoing(), envs, 0));
    var k := 0;
    while true
      invariant executor.Valid() && executor.Settled() == c
      invariant InOk(socket.Incoming()) && OutOk(socket.Outgoing())
      invariant end == EndOf(Loop(c, executor.State(), socket.Incoming(), socket.Outgoing(), envs, k))
      decreases |socket.arrivals| - socket.next
    {
      ghost var s := socket.Incoming();
      TakesProperFrames(s);
      var read := ReadRequest(socket);
      if read.Stop? {
        return read.exit;
      }
      var reply := executor.Handle(DecodeRequest(read.frame), envs(k));
      if reply.None? {
        return NoAgent;
      }
      var got := WriteReply(socket, reply.value, envs(k));
      if got != Count(|ReplyBytes(reply.value)|) {
        return Failure(got, BadResponse);
      }
      k := k + 1;
    }
  }
}
