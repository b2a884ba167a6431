/** Idle turns do not matter to a transfer, and one that is not disturbed is completed (src/Executor/Socket.c,
    src/Executor/Socket.h). */
module Schedules {
  import opened Tokens
  import opened Transport

  // ----- Schedules without the turns in which nothing happens.

  /** Nothing happens: select timed out or, for a blocking transfer, the call was interrupted and
      is made again. */
  predicate Idle(event: ReadEvent, blocking: bool) {
    event.ReadTimeout? || (blocking && (event.ReadSignal? || event.ReadWouldBlock?))
  }

  function Busy(events: seq<ReadEvent>, i: nat, blocking: bool): seq<ReadEvent>
    requires i <= |events|
    decreases |events| - i
  {
    if i == |events| then []
    else if Idle(events[i], blocking) then Busy(events, i + 1, blocking)
    else [events[i]] + Busy(events, i + 1, blocking)
  }

  /** The two differ in idle turns only. */
  predicate SameIn(s: In, t: In, blocking: bool)
    requires InOk(s) && InOk(t)
  {
    s.stream == t.stream && s.pos == t.pos && Busy(s.events, s.next, blocking) == Busy(t.events, t.next, blocking)
  }

  lemma BusyFirst(events: seq<ReadEvent>, i: nat, blocking: bool)
    requires i < |events| && !Idle(events[i], blocking)
    ensures Busy(events, i, blocking) != [] && Busy(events, i, blocking)[0] == events[i]
    ensures Busy(events, i, blocking)[1..] == Busy(events, i + 1, blocking)
  {}

  /** The same event comes next in both. */
  lemma SameNext(s: In, t: In, blocking: bool)
    requires InOk(s) && InOk(t) && SameIn(s, t, blocking)
    requires s.next < |s.events| ==> !Idle(s.events[s.next], blocking)
    requires t.next < |t.events| ==> !Idle(t.events[t.next], blocking)
    ensures s.next < |s.events| <==> t.next < |t.events|
    ensures s.next < |s.events| ==>
              && s.events[s.next] == t.events[t.next]
              && Busy(s.events, s.next + 1, blocking) == Busy(t.events, t.next + 1, blocking)
  {
    if s.next < |s.events| {
      BusyFirst(s.events, s.next, blocking);
    }
    if t.next < |t.events| {
      BusyFirst(t.events, t.next, blocking);
    }
  }

  predicate SameReceived(r: Received, q: Received, blocking: bool)
    requires InOk(r.rest) && InOk(q.rest)
  {
    r.got == q.got && SameIn(r.rest, q.rest, blocking)
  }

  function After(s: In, n: nat): In {
    s.(pos := s.pos + n, next := s.next + 1)
  }

  /** After the same turn both still differ in idle turns only. */
  lemma TurnAlike(s: In, t: In, turn: Turn, blocking: bool)
    requires InOk(s) && InOk(t) && s.stream == t.stream && s.pos == t.pos
    requires s.next < |s.events| && t.next < |t.events|
    requires Busy(s.events, s.next + 1, blocking) == Busy(t.events, t.next + 1, blocking)
    ensures SameIn(s.(next := s.next + 1), t.(next := t.next + 1), blocking)
    ensures turn.GoesOn? && turn.n <= |s.stream| - s.pos ==> SameIn(After(s, turn.n), After(t, turn.n), blocking)
  {}

  lemma ReceiveIdles(s: In, size: nat, have: nat)
    requires InOk(s) && have < size && s.next < |s.events| && Idle(s.events[s.next], false)
    ensures Receive(s, size, have) == Receive(After(s, 0), size, have)
  {
    ReceiveGoesOn(s, size, have, GoesOn(0));
  }

  /** With the same event next both come to the same turn. */
  lemma ReceiveTogether(s: In, t: In, size: nat, have: nat) returns (turn: Turn)
    requires InOk(s) && InOk(t) && SameIn(s, t, false) && have < size && s.next < |s.events|
    requires !Idle(s.events[s.next], false) && (t.next < |t.events| ==> !Idle(t.events[t.next], false))
    ensures t.next < |t.events|
    ensures turn == ReadTurn(s.events[s.next], have, size - have, |s.stream| - s.pos)
    ensures turn == ReadTurn(t.events[t.next], have, size - have, |t.stream| - t.pos)
    ensures SameIn(s.(next := s.next + 1), t.(next := t.next + 1), false)
    ensures turn.GoesOn? ==> turn.n <= |s.stream| - s.pos && SameIn(After(s, turn.n), After(t, turn.n), false)
  {
    SameNext(s, t, false);
    turn := ReadTurn(s.events[s.next], have, size - have, |s.stream| - s.pos);
    TurnAlike(s, t, turn, false);
  }

  /** Time-outs change neither what a transfer comes to nor the bytes it takes. */
  lemma {:induction false} TimeoutsAreHarmless(s: In, t: In, size: nat, have: nat)
    requires InOk(s) && InOk(t) && SameIn(s, t, false) && have <= size
    ensures SameReceived(Receive(s, size, have), Receive(t, size, have), false)
    decreases (|s.events| - s.next) + (|t.events| - t.next)
  {
    if have < size {
      if s.next < |s.events| && Idle(s.events[s.next], false) {
        ReceiveIdles(s, size, have);
        TimeoutsAreHarmless(After(s, 0), t, size, have);
      } else if t.next < |t.events| && Idle(t.events[t.next], false) {
        ReceiveIdles(t, size, have);
        TimeoutsAreHarmless(s, After(t, 0), size, have);
      } else if s.next < |s.events| {
        var turn := ReceiveTogether(s, t, size, have);
        ReceiveGoesOn(s, size, have, turn);
        ReceiveGoesOn(t, size, have, turn);
        if turn.GoesOn? {
          TimeoutsAreHarmless(After(s, turn.n), After(t, turn.n), size, have + turn.n);
        }
      } else {
        SameNext(s, t, false);
      }
    }
  }

  lemma BlockingIdles(s: In, size: nat, have: nat)
    requires InOk(s) && have < size && s.next < |s.events| && Idle(s.events[s.next], true)
    ensures ReceiveBlocking(s, size, have) == ReceiveBlocking(After(s, 0), size, have)
  {
    BlockingGoesOn(s, size, have, GoesOn(0));
  }

  /** With the same event next both come to the same turn. */
  lemma BlockingTogether(s: In, t: In, size: nat, have: nat) returns (turn: Turn)
    requires InOk(s) && InOk(t) && SameIn(s, t, true) && have < size && s.next < |s.events|
    requires !Idle(s.events[s.next], true) && (t.next < |t.events| ==> !Idle(t.events[t.next], true))
    ensures t.next < |t.events|
    ensures turn == BlockingTurn(s.events[s.next], have, size - have, |s.stream| - s.pos)
    ensures turn == BlockingTurn(t.events[t.next], have, size - have, |t.stream| - t.pos)
    ensures SameIn(s.(next := s.next + 1), t.(next := t.next + 1), true)
    ensures turn.GoesOn? ==> turn.n <= |s.stream| - s.pos && SameIn(After(s, turn.n), After(t, turn.n), true)
  {
    SameNext(s, t, true);
    turn := BlockingTurn(s.events[s.next], have, size - have, |s.stream| - s.pos);
    TurnAlike(s, t, turn, true);
  }

  /** Neither do interruptions of a blocking transfer. */
  lemma {:induction false} InterruptionsAreHarmless(s: In, t: In, size: nat, have: nat)
    requires InOk(s) && InOk(t) && SameIn(s, t, true) && have <= size
    ensures SameReceived(ReceiveBlocking(s, size, have), ReceiveBlocking(t, size, have), true)
    decreases (|s.events| - s.next) + (|t.events| - t.next)
  {
    if have < size {
      if s.next < |s.events| && Idle(s.events[s.next], true) {
        BlockingIdles(s, size, have);
        InterruptionsAreHarmless(After(s, 0), t, size, have);
      } else if t.next < |t.events| && Idle(t.events[t.next], true) {
        BlockingIdles(t, size, have);
        InterruptionsAreHarmless(s, After(t, 0), size, have);
      } else if s.next < |s.events| {
        var turn := BlockingTogether(s, t, size, have);
        BlockingGoesOn(s, size, have, turn);
        BlockingGoesOn(t, size, have, turn);
        if turn.GoesOn? {
          InterruptionsAreHarmless(After(s, turn.n), After(t, turn.n), size, have + turn.n);
        }
      } else {
        SameNext(s, t, true);
      }
    }
  }

  // ----- The same for sending.

  predicate IdleWrite(event: WriteEvent, blocking: bool) {
    event.WriteTimeout? || (blocking && (event.WriteSignal? || event.WriteWouldBlock?))
  }

  function BusyWrites(events: seq<WriteEvent>, i: nat, blocking: bool): seq<WriteEvent>
    requires i <= |events|
    decreases |events| - i
  {
    if i == |events| then []
    else if IdleWrite(events[i], blocking) then BusyWrites(events, i + 1, blocking)
    else [events[i]] + BusyWrites(events, i + 1, blocking)
  }

  predicate SameOut(o: Out, p: Out, blocking: bool)
    requires OutOk(o) && OutOk(p)
  {
    o.sent == p.sent && BusyWrites(o.events, o.next, blocking) == BusyWrites(p.events, p.next, blocking)
  }

  lemma BusyWriteFirst(events: seq<WriteEvent>, i: nat, blocking: bool)
    requires i < |events| && !IdleWrite(events[i], blocking)
    ensures BusyWrites(events, i, blocking) != [] && BusyWrites(events, i, blocking)[0] == events[i]
    ensures BusyWrites(events, i, blocking)[1..] == BusyWrites(events, i + 1, blocking)
  {}

  lemma SameNextWrite(o: Out, p: Out, blocking: bool)
    requires OutOk(o) && OutOk(p) && SameOut(o, p, blocking)
    requires o.next < |o.events| ==> !IdleWrite(o.events[o.next], blocking)
    requires p.next < |p.events| ==> !IdleWrite(p.events[p.next], blocking)
    ensures o.next < |o.events| <==> p.next < |p.events|
    ensures o.next < |o.events| ==>
              && o.events[o.next] == p.events[p.next]
              && BusyWrites(o.events, o.next + 1, blocking) == BusyWrites(p.events, p.next + 1, blocking)
  {
    if o.next < |o.events| {
      BusyWriteFirst(o.events, o.next, blocking);
    }
    if p.next < |p.events| {
      BusyWriteFirst(p.events, p.next, blocking);
    }
  }

  predicate SameSent(r: Sent, q: Sent, blocking: bool)
    requires OutOk(r.rest) && OutOk(q.rest)
  {
    r.got == q.got && SameOut(r.rest, q.rest, blocking)
  }

  function AfterWrite(o: Out, more: seq<Byte>): Out {
    o.(sent := o.sent + more, next := o.next + 1)
  }

  lemma {:induction false} WriteTimeoutsAreHarmless(o: Out, p: Out, bytes: seq<Byte>, done: nat)
    requires OutOk(o) && OutOk(p) && SameOut(o, p, false) && done <= |bytes|
    ensures SameSent(Send(o, bytes, done), Send(p, bytes, done), false)
    decreases (|o.events| - o.next) + (|p.events| - p.next)
  {
    if done < |bytes| {
      if o.next < |o.events| && IdleWrite(o.events[o.next], false) {
        WriteTimeoutsAreHarmless(o.(next := o.next + 1), p, bytes, done);
      } else if p.next < |p.events| && IdleWrite(p.events[p.next], false) {
        WriteTimeoutsAreHarmless(o, p.(next := p.next + 1), bytes, done);
      } else {
        SameNextWrite(o, p, false);
        if o.next < |o.events| && o.events[o.next].Takes? {
          var n := Least(o.events[o.next].k, |bytes| - done);
          if n > 0 {
            var more := bytes[done..done + n];
            WriteTimeoutsAreHarmless(AfterWrite(o, more), AfterWrite(p, more), bytes, done + n);
          }
        }
      }
    }
  }

  lemma {:induction false} WriteInterruptionsAreHarmless(o: Out, p: Out, bytes: seq<Byte>, done: nat)
    requires OutOk(o) && OutOk(p) && SameOut(o, p, true) && done <= |bytes|
    ensures SameSent(SendBlocking(o, bytes, done), SendBlocking(p, bytes, done), true)
    decreases (|o.events| - o.next) + (|p.events| - p.next)
  {
    if done < |bytes| {
      if o.next < |o.events| && IdleWrite(o.events[o.next], true) {
        WriteInterruptionsAreHarmless(o.(next := o.next + 1), p, bytes, done);
      } else if p.next < |p.events| && IdleWrite(p.events[p.next], true) {
        WriteInterruptionsAreHarmless(o, p.(next := p.next + 1), bytes, done);
      } else {
        SameNextWrite(o, p, true);
        if o.next < |o.events| && o.events[o.next].Takes? {
          var n := Least(o.events[o.next].k, |bytes| - done);
          if n > 0 {
            var more := bytes[done..done + n];
            WriteInterruptionsAreHarmless(AfterWrite(o, more), AfterWrite(p, more), bytes, done + n);
          }
        }
      }
    }
  }

  // ----- Transfers in calm are completed.

  function Arrivals(events: seq<ReadEvent>, i: nat): nat
    requires i <= |events|
    decreases |events| - i
  {
    if i == |events| then 0 else (if events[i].Arrives? then 1 else 0) + Arrivals(events, i + 1)
  }

  /** Nothing but time-outs and arrivals is still to come, and more arrivals than bytes. */
  predicate Calm(s: In)
    requires InOk(s)
  {
    && (forall x | s.next <= x < |s.events| :: ReadGoesOn(s.events[x]))
    && Arrivals(s.events, s.next) > |s.stream| - s.pos
  }

  lemma StaysCalm(s: In, n: nat)
    requires InOk(s) && Calm(s) && n <= |s.stream| - s.pos
    requires s.next < |s.events| && (s.events[s.next].Arrives? ==> n > 0)
    ensures Calm(After(s, n))
  {}

  /** A transfer in calm gets all it wants, or all that is left. */
  lemma {:induction false} AllArrives(s: In, size: nat, have: nat)
    requires InOk(s) && Calm(s) && have < size
    ensures var r, n := Receive(s, size, have), Least(size - have, |s.stream| - s.pos);
            && r.got == Count(have + n) && r.rest.pos == s.pos + n
            && (n == size - have ==> Calm(r.rest))
    decreases |s.events| - s.next
  {
    var turn := ReadTurn(s.events[s.next], have, size - have, |s.stream| - s.pos);
    ReceiveGoesOn(s, size, have, turn);
    if turn.GoesOn? {
      StaysCalm(s, turn.n);
      if have + turn.n < size {
        AllArrives(After(s, turn.n), size, have + turn.n);
      }
    }
  }

  function Writes(events: seq<WriteEvent>, i: nat): nat
    requires i <= |events|
    decreases |events| - i
  {
    if i == |events| then 0 else (if events[i].Takes? then 1 else 0) + Writes(events, i + 1)
  }

  /** Nothing but time-outs and writes is still to come, and enough writes for so many bytes. */
  predicate Open(o: Out, size: nat)
    requires OutOk(o)
  {
    && (forall x | o.next <= x < |o.events| :: WriteGoesOn(o.events[x]))
    && Writes(o.events, o.next) >= size
  }

  lemma {:induction false} AllIsSent(o: Out, bytes: seq<Byte>, done: nat, more: nat)
    requires OutOk(o) && done <= |bytes| && Open(o, |bytes| - done + more)
    ensures var r := Send(o, bytes, done);
            r.got == Count(|bytes|) && Open(r.rest, more)
    decreases |o.events| - o.next
  {
    if done < |bytes| {
      var t := o.(next := o.next + 1);
      if o.events[o.next].WriteTimeout? {
        AllIsSent(t, bytes, done, more);
      } else {
        var n := Least(o.events[o.next].k, |bytes| - done);
        AllIsSent(AfterWrite(o, bytes[done..done + n]), bytes, done + n, more);
      }
    }
  }
}
