/** Transfers over a socket (RecvNonBlock and SendNonBlock of src/Executor/Socket.c, RecvBlock and
    SendBlock of src/Executor/Socket.h). */
module Transport {
  import opened Tokens

  /** What a transfer comes back with: a count (or -1), the end of the process, or nothing yet
      when the schedule of events is over. */
  datatype Got = Count(n: int) | Exited | Waiting

  /** One turn of the receive loop: select times out, a signal came, or read returns up to k + 1
      bytes (none at the end of the stream), would block, or fails. */
  datatype ReadEvent = ReadTimeout | ReadSignal | Arrives(k: nat) | ReadWouldBlock | ReadError

  /** One turn of the send loop: write takes up to k bytes. */
  datatype WriteEvent = WriteTimeout | WriteSignal | Takes(k: nat) | WriteWouldBlock | WriteError

  datatype In = In(stream: seq<Byte>, pos: nat, events: seq<ReadEvent>, next: nat)

  datatype Out = Out(sent: seq<Byte>, events: seq<WriteEvent>, next: nat)

  predicate InOk(s: In) {
    s.pos <= |s.stream| && s.next <= |s.events|
  }

  predicate OutOk(o: Out) {
    o.next <= |o.events|
  }

  function Least(a: nat, b: nat): nat {
    if a <= b then a else b
  }

  // ----- Receiving.

  datatype Received = Received(got: Got, rest: In)

  /** What one turn of a loop comes to: it ends the loop, or goes on with n more bytes taken. */
  datatype Turn = Ends(got: Got) | GoesOn(n: nat)

  /** What a turn of the receive loop comes to, with some bytes there already, some still wanted
      and some left on the stream. */
  function ReadTurn(event: ReadEvent, have: nat, wanted: nat, left: nat): (turn: Turn)
    ensures turn.GoesOn? ==> turn.n <= wanted && turn.n <= left
  {
    match event
    case ReadTimeout => GoesOn(0)
    case ReadSignal => Ends(Exited)
    case ReadWouldBlock => Ends(Count(if have > 0 then have else -1))
    case ReadError => Ends(Count(-1))
    case Arrives(k) =>
      var n := Least(Least(k + 1, wanted), left);
      if n == 0 then Ends(Count(have)) else GoesOn(n)
  }

  /** Receive up to size bytes, of which some are there already. */
  function Receive(s: In, size: nat, have: nat): (r: Received)
    requires InOk(s) && have <= size
    ensures InOk(r.rest)
    decreases |s.events| - s.next
  {
    if have == size then Received(Count(size), s)
    else if s.next == |s.events| then Received(Waiting, s)
    else
      var t := s.(next := s.next + 1);
      match ReadTurn(s.events[s.next], have, size - have, |s.stream| - s.pos)
      case Ends(got) => Received(got, t)
      case GoesOn(n) => Receive(t.(pos := s.pos + n), size, have + n)
  }

  lemma ReceiveGoesOn(s: In, size: nat, have: nat, turn: Turn)
    requires InOk(s) && have < size && s.next < |s.events|
    requires turn == ReadTurn(s.events[s.next], have, size - have, |s.stream| - s.pos)
    ensures Receive(s, size, have) ==
            if turn.Ends? then Received(turn.got, s.(next := s.next + 1))
            else Receive(s.(pos := s.pos + turn.n, next := s.next + 1), size, have + turn.n)
  {}

  function ReceiveAll(s: In, size: nat): (r: Received)
    requires InOk(s)
    ensures InOk(r.rest)
  {
    if size == 0 then Received(Count(-1), s) else Receive(s, size, 0)
  }

  /** A turn that goes on: select timed out, or bytes were read. */
  predicate ReadGoesOn(event: ReadEvent) {
    event.ReadTimeout? || event.Arrives?
  }

  /** What a transfer of the wanted size comes to: a count is the number of bytes taken off the
      stream, in order; it falls short only at the end of the stream or when a read would block
      after some bytes. It is -1 only when a read fails or would block at once, the process ends
      only at a signal, and nothing has come yet only when the schedule is over. All turns but the
      last one went on. */
  predicate Counted(s: In, size: nat, have: nat, r: Received)
    requires InOk(s) && have <= size
  {
    && r.rest.stream == s.stream && r.rest.events == s.events
    && s.pos <= r.rest.pos <= s.pos + (size - have) && s.next <= r.rest.next <= |s.events|
    && (forall x | s.next <= x < r.rest.next - 1 :: ReadGoesOn(s.events[x]))
    && (have == size ==> r == Received(Count(size), s))
    && (have < size && !r.got.Waiting? ==>
          r.rest.next > s.next && EndsBy(s, size, have, r, s.events[r.rest.next - 1]))
    && (r.got.Waiting? ==>
          && r.rest.next == |s.events| && have + (r.rest.pos - s.pos) < size
          && (r.rest.next > s.next ==> ReadGoesOn(s.events[r.rest.next - 1])))
  }

  /** How the last event of a transfer that is over ends it. */
  predicate EndsBy(s: In, size: nat, have: nat, r: Received, last: ReadEvent) {
    var there := have + (r.rest.pos - s.pos);
    match last
    case ReadTimeout => false
    case ReadSignal => r.got == Exited
    case ReadError => r.got == Count(-1)
    case ReadWouldBlock => r.got == Count(if there > 0 then there else -1)
    case Arrives(_) => r.got == Count(there) && (there < size ==> r.rest.pos == |s.stream|)
  }

  lemma {:induction false} ReceiveCounts(s: In, size: nat, have: nat)
    requires InOk(s) && have <= size
    ensures Counted(s, size, have, Receive(s, size, have))
    decreases |s.events| - s.next
  {
    if have < size && s.next < |s.events| {
      var turn := ReadTurn(s.events[s.next], have, size - have, |s.stream| - s.pos);
      ReceiveGoesOn(s, size, have, turn);
      if turn.GoesOn? {
        ReceiveCounts(s.(pos := s.pos + turn.n, next := s.next + 1), size, have + turn.n);
      }
    }
  }

  // ----- Sending.

  datatype Sent = Sent(got: Got, rest: Out)

  /** Send the bytes from a position on. */
  function Send(o: Out, bytes: seq<Byte>, done: nat): (r: Sent)
    requires OutOk(o) && done <= |bytes|
    ensures OutOk(r.rest)
    decreases |o.events| - o.next
  {
    if done == |bytes| then Sent(Count(|bytes|), o)
    else if o.next == |o.events| then Sent(Waiting, o)
    else
      var t := o.(next := o.next + 1);
      match o.events[o.next]
      case WriteTimeout => Send(t, bytes, done)
      case WriteSignal => Sent(Exited, t)
      case WriteWouldBlock => Sent(Count(done), t)
      case WriteError => Sent(Count(-1), t)
      case Takes(k) =>
        var n := Least(k, |bytes| - done);
        if n == 0 then Sent(Count(done), t) else Send(t.(sent := o.sent + bytes[done..done + n]), bytes, done + n)
  }

  lemma Adjacent(bytes: seq<Byte>, i: nat, m: nat, j: nat)
    requires i <= m <= j <= |bytes|
    ensures bytes[i..m] + bytes[m..j] == bytes[i..j]
  {}

  lemma Stretches(sent: seq<Byte>, bytes: seq<Byte>, i: nat, m: nat, j: nat)
    requires i <= m <= j <= |bytes|
    ensures (sent + bytes[i..m]) + bytes[m..j] == sent + bytes[i..j]
  {}

  /** A turn that goes on: select timed out, or bytes were written. */
  predicate WriteGoesOn(event: WriteEvent) {
    event.WriteTimeout? || (event.Takes? && event.k > 0)
  }

  /** What was sent is a stretch of the bytes, in order, and the outcome says how far it goes. It is
      -1 only when a write fails, the process ends only at a signal, and nothing has come of it yet
      only when the schedule is over. All turns but the last one went on. */
  predicate SentWell(o: Out, bytes: seq<Byte>, done: nat, r: Sent, upTo: nat)
    requires OutOk(o) && done <= upTo <= |bytes|
  {
    && r.rest.events == o.events && o.next <= r.rest.next <= |o.events|
    && r.rest.sent == o.sent + bytes[done..upTo]
    && (forall x | o.next <= x < r.rest.next - 1 :: WriteGoesOn(o.events[x]))
    && (done == |bytes| ==> r.got == Count(|bytes|) && r.rest.next == o.next)
    && (done < |bytes| && !r.got.Waiting? ==>
          r.rest.next > o.next && StopsBy(|bytes|, r.got, upTo, o.events[r.rest.next - 1]))
    && (r.got.Waiting? ==>
          && r.rest.next == |o.events| && upTo < |bytes|
          && (r.rest.next > o.next ==> WriteGoesOn(o.events[r.rest.next - 1])))
  }

  /** How the last event of a transfer that is over ends it. */
  predicate StopsBy(size: nat, got: Got, upTo: nat, last: WriteEvent) {
    match last
    case WriteTimeout => false
    case WriteSignal => got == Exited && upTo < size
    case WriteError => got == Count(-1) && upTo < size
    case WriteWouldBlock => got == Count(upTo) && upTo < size
    case Takes(k) => got == Count(upTo) && (upTo < size ==> k == 0)
  }

  lemma {:induction false} SendsInOrder(o: Out, bytes: seq<Byte>, done: nat) returns (upTo: nat)
    requires OutOk(o) && done <= |bytes|
    ensures done <= upTo <= |bytes| && SentWell(o, bytes, done, Send(o, bytes, done), upTo)
    decreases |o.events| - o.next
  {
    upTo := done;
    if done < |bytes| && o.next < |o.events| {
      var t := o.(next := o.next + 1);
      match o.events[o.next]
      case WriteTimeout => upTo := SendsInOrder(t, bytes, done);
      case Takes(k) =>
        var n := Least(k, |bytes| - done);
        if n > 0 {
          upTo := SendsInOrder(t.(sent := o.sent + bytes[done..done + n]), bytes, done + n);
          Stretches(o.sent, bytes, done, done + n, upTo);
        }
      case _ =>
    }
  }

  // ----- The blocking transfers of Socket.h: interrupted calls are made again.

  function BlockingTurn(event: ReadEvent, have: nat, wanted: nat, left: nat): (turn: Turn)
    ensures turn.GoesOn? ==> turn.n <= wanted && turn.n <= left
  {
    if event.ReadSignal? || event.ReadTimeout? || event.ReadWouldBlock? then GoesOn(0)
    else ReadTurn(event, have, wanted, left)
  }

  function ReceiveBlocking(s: In, size: nat, have: nat): (r: Received)
    requires InOk(s) && have <= size
    ensures InOk(r.rest)
    decreases |s.events| - s.next
  {
    if have == size then Received(Count(size), s)
    else if s.next == |s.events| then Received(Waiting, s)
    else
      var t := s.(next := s.next + 1);
      match BlockingTurn(s.events[s.next], have, size - have, |s.stream| - s.pos)
      case Ends(got) => Received(got, t)
      case GoesOn(n) => ReceiveBlocking(t.(pos := s.pos + n), size, have + n)
  }

  lemma BlockingGoesOn(s: In, size: nat, have: nat, turn: Turn)
    requires InOk(s) && have < size && s.next < |s.events|
    requires turn == BlockingTurn(s.events[s.next], have, size - have, |s.stream| - s.pos)
    ensures ReceiveBlocking(s, size, have) ==
            if turn.Ends? then Received(turn.got, s.(next := s.next + 1))
            else ReceiveBlocking(s.(pos := s.pos + turn.n, next := s.next + 1), size, have + turn.n)
  {}

  /** A blocking transfer is ended by an error, by the end of the stream or by the last byte; all
      other turns went on. */
  predicate CountedBlocking(s: In, size: nat, have: nat, r: Received)
    requires InOk(s) && have <= size
  {
    var there := have + (r.rest.pos - s.pos);
    && r.rest.stream == s.stream && r.rest.events == s.events
    && s.pos <= r.rest.pos <= s.pos + (size - have) && s.next <= r.rest.next <= |s.events|
    && (forall x | s.next <= x < r.rest.next - 1 :: !s.events[x].ReadError?)
    && (have == size ==> r == Received(Count(size), s))
    && (have < size && !r.got.Waiting? ==>
          && r.rest.next > s.next
          && match s.events[r.rest.next - 1]
             case ReadError => r.got == Count(-1)
             case Arrives(_) => r.got == Count(there) && (there < size ==> r.rest.pos == |s.stream|)
             case _ => false)
    && (r.got.Waiting? ==>
          && r.rest.next == |s.events| && there < size
          && (r.rest.next > s.next ==> !s.events[r.rest.next - 1].ReadError?))
  }

  lemma {:induction false} BlockingCounts(s: In, size: nat, have: nat)
    requires InOk(s) && have <= size
    ensures CountedBlocking(s, size, have, ReceiveBlocking(s, size, have))
    decreases |s.events| - s.next
  {
    if have < size && s.next < |s.events| {
      var turn := BlockingTurn(s.events[s.next], have, size - have, |s.stream| - s.pos);
      BlockingGoesOn(s, size, have, turn);
      if turn.GoesOn? {
        BlockingCounts(s.(pos := s.pos + turn.n, next := s.next + 1), size, have + turn.n);
      }
    }
  }

  function SendBlocking(o: Out, bytes: seq<Byte>, done: nat): (r: Sent)
    requires OutOk(o) && done <= |bytes|
    ensures OutOk(r.rest)
    decreases |o.events| - o.next
  {
    if done == |bytes| then Sent(Count(|bytes|), o)
    else if o.next == |o.events| then Sent(Waiting, o)
    else
      var t := o.(next := o.next + 1);
      match o.events[o.next]
      case WriteError => Sent(Count(-1), t)
      case Takes(k) =>
        var n := Least(k, |bytes| - done);
        if n == 0 then Sent(Count(done), t)
        else SendBlocking(t.(sent := o.sent + bytes[done..done + n]), bytes, done + n)
      case _ => SendBlocking(t, bytes, done)
  }

  predicate SentWellBlocking(o: Out, bytes: seq<Byte>, done: nat, r: Sent, upTo: nat)
    requires OutOk(o) && done <= upTo <= |bytes|
  {
    && r.rest.events == o.events && o.next <= r.rest.next <= |o.events|
    && r.rest.sent == o.sent + bytes[done..upTo]
    && (forall x | o.next <= x < r.rest.next - 1 :: !o.events[x].WriteError? && o.events[x] != Takes(0))
    && (done == |bytes| ==> r.got == Count(|bytes|) && r.rest.next == o.next)
    && (done < |bytes| && !r.got.Waiting? ==>
          && r.rest.next > o.next
          && match o.events[r.rest.next - 1]
             case WriteError => r.got == Count(-1) && upTo < |bytes|
             case Takes(k) => r.got == Count(upTo) && (upTo < |bytes| ==> k == 0)
             case _ => false)
    && (r.got.Waiting? ==>
          && r.rest.next == |o.events| && upTo < |bytes|
          && (r.rest.next > o.next ==> var last := o.events[r.rest.next - 1]; !last.WriteError? && last != Takes(0)))
  }

  lemma {:induction false} BlockingSendsInOrder(o: Out, bytes: seq<Byte>, done: nat) returns (upTo: nat)
    requires OutOk(o) && done <= |bytes|
    ensures done <= upTo <= |bytes| && SentWellBlocking(o, bytes, done, SendBlocking(o, bytes, done), upTo)
    decreases |o.events| - o.next
  {
    upTo := done;
    if done < |bytes| && o.next < |o.events| {
      var t := o.(next := o.next + 1);
      match o.events[o.next]
      case WriteError =>
      case Takes(k) =>
        var n := Least(k, |bytes| - done);
        if n > 0 {
          upTo := BlockingSendsInOrder(t.(sent := o.sent + bytes[done..done + n]), bytes, done + n);
          Stretches(o.sent, bytes, done, done + n, upTo);
        }
      case _ => upTo := BlockingSendsInOrder(t, bytes, done);
    }
  }

  // ----- The socket.

  class Socket {
    const stream: seq<Byte>
    const arrivals: seq<ReadEvent>
    const departures: seq<WriteEvent>
    var pos: nat
    var next: nat
    var sent: seq<Byte>
    var nextSend: nat

    constructor (stream: seq<Byte>, arrivals: seq<ReadEvent>, departures: seq<WriteEvent>)
      ensures Incoming() == In(stream, 0, arrivals, 0) && Outgoing() == Out([], departures, 0)
    {
      this.stream, this.arrivals, this.departures := stream, arrivals, departures;
      pos, next, sent, nextSend := 0, 0, [], 0;
    }

    function Incoming(): In
      reads this
    {
      In(stream, pos, arrivals, next)
    }

    function Outgoing(): Out
      reads this
    {
      Out(sent, departures, nextSend)
    }

    method RecvNonBlock(buffer: array<Byte>, size: nat) returns (got: Got)
      requires InOk(Incoming()) && size <= buffer.Length
      modifies this`pos, this`next, buffer
      ensures Received(got, Incoming()) == ReceiveAll(old(Incoming()), size)
      ensures old(pos) <= pos <= |stream| && pos - old(pos) <= size
      ensures buffer[..pos - old(pos)] == stream[old(pos)..pos]
    {
      if size == 0 {
        return Count(-1);
      }
      ghost var goal, start := Receive(Incoming(), size, 0), pos;
      var r, p := size, 0;
      while r > 0
        invariant 0 <= p == size - r <= size && InOk(Incoming()) && pos == start + p
        invariant goal == Receive(Incoming(), size, p)
        invariant buffer[..p] == stream[start..pos]
        decreases |arrivals| - next
      {
        if next == |arrivals| {
          return Waiting;
        }
        var turn := ReceiveTurn(buffer, p, r, size, start, goal);
        if turn.Ends? {
          return turn.got;
        }
        r, p := r - turn.n, p + turn.n;
      }
      return Count(size);
    }

    /** One turn of the loop keeps what is promised: the bytes in the buffer, and the outcome. */
    method ReceiveTurn(buffer: array<Byte>, p: nat, r: nat, ghost size: nat, ghost start: nat, ghost goal: Received)
      returns (turn: Turn)
      requires InOk(Incoming()) && next < |arrivals| && r > 0 && p + r <= buffer.Length && start + p == pos
      requires size == p + r && goal == Receive(Incoming(), size, p) && buffer[..p] == stream[start..pos]
      modifies this`pos, this`next, buffer
      ensures InOk(Incoming()) && next == old(next) + 1
      ensures turn.Ends? ==> goal == Received(turn.got, Incoming()) && pos == start + p
      ensures turn.Ends? ==> buffer[..p] == stream[start..pos]
      ensures turn.GoesOn? ==> turn.n <= r && pos == start + p + turn.n
      ensures turn.GoesOn? ==>
                goal == Receive(Incoming(), size, p + turn.n) && buffer[..p + turn.n] == stream[start..pos]
    {
      ghost var before := Incoming();
      turn := TakeTurn(buffer, p, r);
      ReceiveGoesOn(before, size, p, turn);
      if turn.GoesOn? {
        assert Incoming() == before.(pos := before.pos + turn.n, next := before.next + 1);
        Adjacent(stream, start, before.pos, pos);
      }
    }

    /** One turn of the loop. */
    method TakeTurn(buffer: array<Byte>, at: nat, wanted: nat) returns (turn: Turn)
      requires pos <= |stream| && next < |arrivals| && at + wanted <= buffer.Length
      modifies this`pos, this`next, buffer
      ensures turn == ReadTurn(arrivals[old(next)], at, wanted, |stream| - old(pos))
      ensures next == old(next) + 1 && pos == if turn.GoesOn? then old(pos) + turn.n else old(pos)
      ensures turn.GoesOn? ==> buffer[..at + turn.n] == old(buffer[..at]) + stream[old(pos)..pos]
      ensures turn.Ends? ==> buffer[..at] == old(buffer[..at])
    {
      var event := arrivals[next];
      next := next + 1;
      match event {
        case ReadTimeout =>
          return GoesOn(0);
        case ReadSignal =>
          return Ends(Exited);
        case ReadWouldBlock =>
          return Ends(Count(if at > 0 then at else -1));
        case ReadError =>
          return Ends(Count(-1));
        case Arrives(k) =>
          var n := Take(buffer, at, wanted, k);
          return if n == 0 then Ends(Count(at)) else GoesOn(n);
      }
    }

    /** The bytes that have arrived, as far as they are wanted, go into the buffer. */
    method Take(buffer: array<Byte>, at: nat, wanted: nat, k: nat) returns (n: nat)
      requires pos <= |stream| && at + wanted <= buffer.Length
      modifies this`pos, buffer
      ensures n == Least(Least(k + 1, wanted), |stream| - old(pos)) && pos == old(pos) + n
      ensures buffer[..at + n] == old(buffer[..at]) + stream[old(pos)..pos]
    {
      n := Least(Least(k + 1, wanted), |stream| - pos);
      var i := 0;
      while i < n
        invariant 0 <= i <= n && pos == old(pos) + i
        invariant buffer[..at + i] == old(buffer[..at]) + stream[old(pos)..pos]
      {
        buffer[at + i] := stream[pos];
        pos, i := pos + 1, i + 1;
      }
    }

    method SendNonBlock(bytes: seq<Byte>) returns (got: Got)
      requires OutOk(Outgoing())
      modifies this`sent, this`nextSend
      ensures Sent(got, Outgoing()) == Send(old(Outgoing()), bytes, 0)
    {
      var r := |bytes|;
      while r > 0
        invariant 0 <= r <= |bytes| && OutOk(Outgoing())
        invariant Send(old(Outgoing()), bytes, 0) == Send(Outgoing(), bytes, |bytes| - r)
        decreases |departures| - nextSend
      {
        if nextSend == |departures| {
          return Waiting;
        }
        var event := departures[nextSend];
        nextSend := nextSend + 1;
        match event {
          case WriteTimeout =>
            continue;
          case WriteSignal =>
            return Exited;
          case WriteWouldBlock =>
            return Count(|bytes| - r);
          case WriteError =>
            return Count(-1);
          case Takes(k) =>
            var n := Least(k, r);
            if n == 0 {
              return Count(|bytes| - r);
            }
            sent := sent + bytes[|bytes| - r..|bytes| - r + n];
            r := r - n;
        }
      }
      return Count(|bytes|);
    }

    method RecvBlock(buffer: array<Byte>, size: nat) returns (got: Got)
      requires InOk(Incoming()) && size <= buffer.Length
      modifies this`pos, this`next, buffer
      ensures Received(got, Incoming()) ==
              if size == 0 then Received(Count(-1), old(Incoming())) else ReceiveBlocking(old(Incoming()), size, 0)
      ensures old(pos) <= pos <= |stream| && pos - old(pos) <= size
      ensures buffer[..pos - old(pos)] == stream[old(pos)..pos]
    {
      if size == 0 {
        return Count(-1);
      }
      ghost var goal, start := ReceiveBlocking(Incoming(), size, 0), pos;
      var r, p := size, 0;
      while r > 0
        invariant 0 <= p == size - r <= size && InOk(Incoming()) && pos == start + p
        invariant goal == ReceiveBlocking(Incoming(), size, p)
        invariant buffer[..p] == stream[start..pos]
        decreases |arrivals| - next
      {
        if next == |arrivals| {
          return Waiting;
        }
        var turn := ReceiveBlockingTurn(buffer, p, r, size, start, goal);
        if turn.Ends? {
          return turn.got;
        }
        r, p := r - turn.n, p + turn.n;
      }
      return Count(size);
    }

    /** One turn of the loop keeps what is promised: the bytes in the buffer, and the outcome. */
    method ReceiveBlockingTurn(buffer: array<Byte>, p: nat, r: nat, ghost size: nat, ghost start: nat,
                               ghost goal: Received)
      returns (turn: Turn)
      requires InOk(Incoming()) && next < |arrivals| && r > 0 && p + r <= buffer.Length && start + p == pos
      requires size == p + r && goal == ReceiveBlocking(Incoming(), size, p) && buffer[..p] == stream[start..pos]
      modifies this`pos, this`next, buffer
      ensures InOk(Incoming()) && next == old(next) + 1
      ensures turn.Ends? ==> goal == Received(turn.got, Incoming()) && pos == start + p
      ensures turn.Ends? ==> buffer[..p] == stream[start..pos]
      ensures turn.GoesOn? ==> turn.n <= r && pos == start + p + turn.n
      ensures turn.GoesOn? ==>
                goal == ReceiveBlocking(Incoming(), size, p + turn.n) && buffer[..p + turn.n] == stream[start..pos]
    {
      ghost var before := Incoming();
      turn := TakeBlockingTurn(buffer, p, r);
      BlockingGoesOn(before, size, p, turn);
      if turn.GoesOn? {
        assert Incoming() == before.(pos := before.pos + turn.n, next := before.next + 1);
        Adjacent(stream, start, before.pos, pos);
      }
    }

    /** One turn of the loop: an interrupted read is made again. */
    method TakeBlockingTurn(buffer: array<Byte>, at: nat, wanted: nat) returns (turn: Turn)
      requires pos <= |stream| && next < |arrivals| && at + wanted <= buffer.Length
      modifies this`pos, this`next, buffer
      ensures turn == BlockingTurn(arrivals[old(next)], at, wanted, |stream| - old(pos))
      ensures next == old(next) + 1 && pos == if turn.GoesOn? then old(pos) + turn.n else old(pos)
      ensures turn.GoesOn? ==> buffer[..at + turn.n] == old(buffer[..at]) + stream[old(pos)..pos]
      ensures turn.Ends? ==> buffer[..at] == old(buffer[..at])
    {
      var event := arrivals[next];
      next := next + 1;
      match event {
        case ReadError =>
          return Ends(Count(-1));
        case Arrives(k) =>
          var n := Take(buffer, at, wanted, k);
          return if n == 0 then Ends(Count(at)) else GoesOn(n);
        case _ =>
          return GoesOn(0);
      }
    }

    method SendBlock(bytes: seq<Byte>) returns (got: Got)
      requires OutOk(Outgoing())
      modifies this`sent, this`nextSend
      ensures Sent(got, Outgoing()) == SendBlocking(old(Outgoing()), bytes, 0)
    {
      var r := |bytes|;
      while r > 0
        invariant 0 <= r <= |bytes| && OutOk(Outgoing())
        invariant SendBlocking(old(Outgoing()), bytes, 0) == SendBlocking(Outgoing(), bytes, |bytes| - r)
        decreases |departures| - nextSend
      {
        if nextSend == |departures| {
          return Waiting;
        }
        var event := departures[nextSend];
        nextSend := nextSend + 1;
        match event {
          case WriteError =>
            return Count(-1);
          case Takes(k) =>
            var n := Least(k, r);
            if n == 0 {
              return Count(|bytes| - r);
            }
            sent := sent + bytes[|bytes| - r..|bytes| - r + n];
            r := r - n;
          case _ =>
            continue;
        }
      }
      return Count(|bytes|);
    }
  }
}
