/** What the request loop does when nothing disturbs its transfers, and that time-outs never do
    (Parent of src/Executor/Parent.c). */
module ParentService {
  import opened CStrings
  import opened ExecutorMacros
  import opened ExecutorWorld
  import opened PolicyDecisions
  import opened ExecutorSafety
  import opened Tokens
  import opened Frames
  import opened Transport
  import opened Schedules
  import opened Parent
  import opened ParentRuns

  // ----- Time-outs.

  predicate SameTaken(r: Taken, q: Taken)
    requires InOk(r.rest) && InOk(q.rest)
  {
    r.read == q.read && SameIn(r.rest, q.rest, false)
  }

  lemma SameBody(s: In, t: In, code: nat)
    requires InOk(s) && InOk(t) && SameIn(s, t, false) && BodySize(code).Some?
    ensures SameTaken(TakeBody(s, code), TakeBody(t, code))
  {
    var size := BodySize(code).value;
    if size > 0 {
      TimeoutsAreHarmless(s, t, size, 0);
      ReceiveCounts(s, size, 0);
      ReceiveCounts(t, size, 0);
    }
  }

  lemma SameRequest(s: In, t: In)
    requires InOk(s) && InOk(t) && SameIn(s, t, false)
    ensures SameTaken(TakeRequest(s), TakeRequest(t))
  {
    TimeoutsAreHarmless(s, t, 4, 0);
    ReceiveCounts(s, 4, 0);
    ReceiveCounts(t, 4, 0);
    var r, q := ReceiveAll(s, 4), ReceiveAll(t, 4);
    if r.got == Count(4) {
      var code := WordAt(s.stream[s.pos..r.rest.pos], 0, 4);
      if BodySize(code).Some? {
        SameBody(r.rest, q.rest, code);
      }
    }
  }

  lemma SameDelivery(o: Out, p: Out, reply: Reply, env: Env)
    requires OutOk(o) && OutOk(p) && SameOut(o, p, false)
    ensures SameSent(Deliver(o, reply, env), Deliver(p, reply, env), false)
  {
    WriteTimeoutsAreHarmless(o, p, ReplyBytes(reply), 0);
  }

  predicate SameTrace(t: Trace, u: Trace) {
    && t.frames == u.frames && t.replies == u.replies && t.exit == u.exit && t.world == u.world
    && InOk(t.rest) && InOk(u.rest) && SameIn(t.rest, u.rest, false)
    && OutOk(t.out) && OutOk(u.out) && SameOut(t.out, u.out, false)
  }

  /** Two runs of the loop whose schedules differ in time-outs only handle the same frames, give the
      same replies, end in the same way and in the same state, and have read and sent the same. */
  lemma {:induction false} TimeoutsDoNotMatter(c: Config, w: World, s: In, t: In, o: Out, p: Out,
                                               envs: nat -> Env, k: nat)
    requires InOk(s) && InOk(t) && SameIn(s, t, false) && OutOk(o) && OutOk(p) && SameOut(o, p, false)
    ensures SameTrace(Loop(c, w, s, o, envs, k), Loop(c, w, t, p, envs, k))
    decreases |s.events| - s.next
  {
    var taken := TakeRequest(s);
    SameRequest(s, t);
    TakesProperFrames(s);
    TakesProperFrames(t);
    if taken.read.GotFrame? {
      var handled := Handled(c, w, DecodeRequest(taken.read.frame), envs(k));
      if handled.Lives? {
        SameDelivery(o, p, handled.reply, envs(k));
        var sent, alike := Deliver(o, handled.reply, envs(k)), Deliver(p, handled.reply, envs(k));
        TimeoutsDoNotMatter(c, handled.world, taken.rest, TakeRequest(t).rest, sent.rest, alike.rest, envs, k + 1);
      }
    }
  }

  // ----- Calm runs.

  /** The longest reply. */
  const MAX_REPLY := 4 + BUFFER_SIZE

  /** Room for so many replies. */
  function Room(n: nat): nat {
    if n == 0 then 0 else MAX_REPLY + Room(n - 1)
  }

  lemma ReplyIsShort(r: Reply)
    ensures |ReplyBytes(r)| <= MAX_REPLY
  {}

  /** An undisturbed read of a whole frame. */
  lemma FrameArrives(s: In)
    requires InOk(s) && Calm(s) && FrameSize(s.stream, s.pos) > 0
    ensures TakeRequest(s).read.GotFrame? && Calm(TakeRequest(s).rest)
  {
    AllArrives(s, 4, 0);
    ReceiveCounts(s, 4, 0);
    var r := ReceiveAll(s, 4);
    var size := BodySize(WordAt(s.stream[s.pos..r.rest.pos], 0, 4)).value;
    if size > 0 {
      AllArrives(r.rest, size, 0);
    }
  }

  /** Without a whole frame an undisturbed read stops, and says whether there was a part of one. */
  lemma NoFrameArrives(s: In)
    requires InOk(s) && Calm(s) && FrameSize(s.stream, s.pos) == 0
    ensures TakeRequest(s).read.Stop? && (TakeRequest(s).read.exit == EndOfInput <==> s.pos == |s.stream|)
  {
    AllArrives(s, 4, 0);
    ReceiveCounts(s, 4, 0);
    var r := ReceiveAll(s, 4);
    if r.got == Count(4) {
      var code := WordAt(s.stream[s.pos..r.rest.pos], 0, 4);
      if BodySize(code).Some? {
        AllArrives(r.rest, BodySize(code).value, 0);
      }
    }
  }

  lemma ReplyIsSent(o: Out, r: Reply, env: Env, more: nat)
    requires OutOk(o) && Open(o, MAX_REPLY + more)
    ensures Deliver(o, r, env).got == Count(|ReplyBytes(r)|) && Open(Deliver(o, r, env).rest, more)
  {
    ReplyIsShort(r);
    AllIsSent(o, ReplyBytes(r), 0, more);
  }

  /** The loop has handled every whole frame, has replied to each, and was left for the end of the
      input exactly if the frames are all there is. */
  predicate Complete(t: Trace, s: In)
    requires InOk(s)
  {
    && t.frames == CutFrames(s.stream, s.pos) && |t.replies| == |t.frames|
    && (t.exit == EndOfInput <==> s.stream[s.pos..|s.stream|] == FramesBytes(t.frames))
  }

  lemma BytesCons(stream: seq<Byte>, i: nat, m: nat, f: Frame, frames: seq<Frame>)
    requires i <= m <= |stream| && stream[i..m] == FrameBytes(f)
    ensures stream[i..|stream|] == FramesBytes([f] + frames) <==> stream[m..|stream|] == FramesBytes(frames)
  {
    FramesBytesCons(f, frames);
    SliceJoin(stream, i, m, |stream|);
    var bytes, tail, more := FrameBytes(f), stream[m..|stream|], FramesBytes(frames);
    assert (bytes + tail)[|bytes|..] == tail && (bytes + more)[|bytes|..] == more;
  }

  lemma CompleteCons(f: Frame, r: Reply, t: Trace, s: In, rest: In)
    requires InOk(s) && InOk(rest) && TakeRequest(s) == Taken(GotFrame(f), rest) && Complete(t, rest)
    ensures Complete(Cons(f, r, t), s)
  {
    TakenIsCut(s);
    CutStarts(s.stream, s.pos, rest.pos);
    FrameBytesAt(s.stream, s.pos);
    BytesCons(s.stream, s.pos, rest.pos, f, t.frames);
  }

  /** Where the loop stands after serving one frame. */
  datatype Next = Next(frame: Frame, reply: Reply, world: World, input: In, out: Out)

  /** No request makes the executor end. */
  ghost predicate NeverDies(c: Config) {
    forall w, request, env :: Handled(c, w, request, env).Lives?
  }

  /** The next frame is read, handled and replied to. */
  ghost predicate Serves(c: Config, w: World, s: In, o: Out, env: Env, n: Next)
    requires InOk(s) && OutOk(o)
  {
    && TakeRequest(s) == Taken(GotFrame(n.frame), n.input) && ProperFrame(n.frame)
    && Handled(c, w, DecodeRequest(n.frame), env) == Lives(n.world, n.reply)
    && Deliver(o, n.reply, env) == Sent(Count(|ReplyBytes(n.reply)|), n.out)
    && InOk(n.input) && OutOk(n.out) && |n.input.events| - n.input.next < |s.events| - s.next
  }

  lemma FirstIsServed(c: Config, w: World, s: In, o: Out, env: Env, more: nat) returns (n: Next)
    requires NeverDies(c) && InOk(s) && Calm(s) && FrameSize(s.stream, s.pos) > 0
    requires OutOk(o) && Open(o, MAX_REPLY + more)
    ensures Serves(c, w, s, o, env, n) && Calm(n.input) && Open(n.out, more)
    ensures n.input.stream == s.stream && n.input.pos == s.pos + FrameSize(s.stream, s.pos)
  {
    FrameArrives(s);
    TakesProperFrames(s);
    TakenIsCut(s);
    var taken := TakeRequest(s);
    var handled := Handled(c, w, DecodeRequest(taken.read.frame), env);
    ReplyIsSent(o, handled.reply, env, more);
    n := Next(taken.read.frame, handled.reply, handled.world, taken.rest, Deliver(o, handled.reply, env).rest);
  }

  lemma LoopGoesOn(c: Config, w: World, s: In, o: Out, envs: nat -> Env, k: nat, n: Next)
    requires InOk(s) && OutOk(o) && Serves(c, w, s, o, envs(k), n)
    ensures Loop(c, w, s, o, envs, k) == Cons(n.frame, n.reply, Loop(c, n.world, n.input, n.out, envs, k + 1))
  {}

  lemma OneFrameLess(s: In, rest: In, left: nat)
    requires InOk(s) && FrameSize(s.stream, s.pos) > 0 && left == |CutFrames(s.stream, s.pos)|
    requires rest.stream == s.stream && rest.pos == s.pos + FrameSize(s.stream, s.pos)
    ensures left > 0 && |CutFrames(rest.stream, rest.pos)| == left - 1
  {
    CutStarts(s.stream, s.pos, rest.pos);
  }

  lemma SomeFrameLeft(s: In)
    requires InOk(s) && FrameSize(s.stream, s.pos) > 0
    ensures CutFrames(s.stream, s.pos) != []
  {
    CutStarts(s.stream, s.pos, s.pos + FrameSize(s.stream, s.pos));
  }

  /** One round of the loop: a frame is served, or there is none and the loop is left. */
  lemma OneRound(c: Config, w: World, s: In, o: Out, env: Env, left: nat) returns (served: bool, n: Next)
    requires NeverDies(c) && InOk(s) && Calm(s) && left == |CutFrames(s.stream, s.pos)|
    requires OutOk(o) && Open(o, Room(left))
    ensures served ==>
              && Serves(c, w, s, o, env, n) && Calm(n.input) && left > 0 && Open(n.out, Room(left - 1))
              && |CutFrames(n.input.stream, n.input.pos)| == left - 1
    ensures !served ==>
              var taken := TakeRequest(s);
              taken.read.Stop? && Complete(Trace([], [], taken.read.exit, w, taken.rest, o), s)
  {
    served := FrameSize(s.stream, s.pos) > 0;
    if served {
      SomeFrameLeft(s);
      n := FirstIsServed(c, w, s, o, env, Room(left - 1));
      OneFrameLess(s, n.input, left);
    } else {
      NoFrameArrives(s);
      n := *;
    }
  }

  lemma {:induction false} ServedFrom(c: Config, w: World, s: In, o: Out, envs: nat -> Env, k: nat, left: nat)
    requires NeverDies(c) && InOk(s) && Calm(s) && left == |CutFrames(s.stream, s.pos)|
    requires OutOk(o) && Open(o, Room(left))
    ensures Complete(Loop(c, w, s, o, envs, k), s)
    decreases left
  {
    var served, n := OneRound(c, w, s, o, envs(k), left);
    if served {
      ServedFrom(c, n.world, n.input, n.out, envs, k + 1, left - 1);
      LoopGoesOn(c, w, s, o, envs, k, n);
      CompleteCons(n.frame, n.reply, Loop(c, n.world, n.input, n.out, envs, k + 1), s, n.input);
    }
  }

  /** After start-up, with nothing but time-outs and arrivals to come, enough of them, and room for
      the replies, the loop handles every whole frame of the stream, and replies to each; it is
      left for the end of the input if and only if the stream is made of whole frames. */
  lemma EveryFrameIsServed(settings: Settings, w: World, s: In, o: Out, envs: nat -> Env, k: nat)
    requires Resolved(settings) && InOk(s) && Calm(s)
    requires OutOk(o) && Open(o, Room(|CutFrames(s.stream, s.pos)|))
    ensures Complete(Loop(Started(settings), w, s, o, envs, k), s)
  {
    forall w, request, env ensures Handled(Started(settings), w, request, env).Lives? {
      AgentsAreThere(settings, w, request, env);
    }
    ServedFrom(Started(settings), w, s, o, envs, k, |CutFrames(s.stream, s.pos)|);
  }

  /** Every request was handled as it was sent, and replied to, and then the input was over. */
  predicate ServedAll(t: Trace, requests: seq<Request>) {
    && t.exit == EndOfInput && |t.replies| == |t.frames| == |requests|
    && forall i | 0 <= i < |requests| ::
         ProperFrame(t.frames[i]) && DecodeRequest(t.frames[i]) == Shortened(requests[i])
  }

  /** So a client whose transfers go through has all its requests handled and all its replies, and
      the loop ends when the client is done. */
  lemma EveryRequestIsServed(settings: Settings, w: World, requests: seq<Request>, s: In, o: Out, envs: nat -> Env)
    requires Resolved(settings) && InOk(s) && Calm(s) && OutOk(o) && Open(o, Room(|requests|))
    requires (forall r | r in requests :: Sendable(r)) && s.pos == 0 && s.stream == FramesBytes(ClientFrames(requests))
    ensures ServedAll(Loop(Started(settings), w, s, o, envs, 0), requests)
  {
    assert s.stream[0..] == s.stream && s.stream[0..|s.stream|] == s.stream;
    ClientFramesProper(requests);
    CutOfFrames(s.stream, 0, ClientFrames(requests));
    EveryFrameIsServed(settings, w, s, o, envs, 0);
    ClientIsServed(Started(settings), w, requests, s, o, envs);
  }

  lemma ClientFramesProper(requests: seq<Request>)
    requires forall r | r in requests :: Sendable(r)
    ensures forall f | f in ClientFrames(requests) :: ProperFrame(f)
  {
    forall i | 0 <= i < |requests| ensures ProperFrame(ClientFrames(requests)[i]) {
      assert requests[i] in requests;
      RequestRoundTrip(requests[i]);
    }
  }
}
