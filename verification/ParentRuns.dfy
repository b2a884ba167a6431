/** What the request loop does with any stream of bytes, however it arrives (Parent of
    src/Executor/Parent.c). */
module ParentRuns {
  import opened CStrings
  import opened Tokens
  import opened PolicyDecisions
  import opened ExecutorMacros
  import opened ChallengePaths
  import opened ExecutorWorld
  import opened ExecutorSafety
  import opened Frames
  import opened Transport
  import opened Parent

  // ----- The reference: a stream cut into frames.

  function FramesBytes(frames: seq<Frame>): seq<Byte> {
    if frames == [] then [] else FrameBytes(frames[0]) + FramesBytes(frames[1..])
  }

  /** The size of the whole frame at a position, header included, or zero. */
  function FrameSize(stream: seq<Byte>, i: nat): (n: nat)
    requires i <= |stream|
    ensures i + n <= |stream| && (n > 0 ==> n >= 4)
  {
    if i + 4 > |stream| then 0
    else
      var size := BodySize(WordAt(stream[i..i + 4], 0, 4));
      if size.Some? && i + 4 + size.value <= |stream| then 4 + size.value else 0
  }

  function FrameAt(stream: seq<Byte>, i: nat): Frame
    requires i <= |stream| && FrameSize(stream, i) > 0
  {
    Frame(WordAt(stream[i..i + 4], 0, 4), stream[i + 4..i + FrameSize(stream, i)])
  }

  /** As many whole frames as the stream holds from a position on. */
  function CutFrames(stream: seq<Byte>, i: nat): seq<Frame>
    requires i <= |stream|
    decreases |stream| - i
  {
    if FrameSize(stream, i) == 0 then []
    else [FrameAt(stream, i)] + CutFrames(stream, i + FrameSize(stream, i))
  }

  // ----- What a frame at a position looks like.

  lemma WordStep(first: Byte, rest: nat)
    ensures (first + 256 * rest) % 256 == first && (first + 256 * rest) / 256 == rest
  {}

  lemma {:induction false} WordUndone(b: seq<Byte>, i: nat, k: nat)
    requires i + k <= |b|
    ensures WordBytes(WordAt(b, i, k), k) == b[i..i + k]
    decreases k
  {
    if k > 0 {
      WordUndone(b, i + 1, k - 1);
      WordStep(b[i], WordAt(b, i + 1, k - 1));
      assert b[i..i + k] == [b[i]] + b[i + 1..i + 1 + (k - 1)];
    }
  }

  lemma FrameBytesAt(stream: seq<Byte>, i: nat)
    requires i <= |stream| && FrameSize(stream, i) > 0
    ensures FrameBytes(FrameAt(stream, i)) == stream[i..i + FrameSize(stream, i)]
    ensures ProperFrame(FrameAt(stream, i))
  {
    var head := stream[i..i + 4];
    WordUndone(head, 0, 4);
    assert head[0..4] == head;
    assert stream[i..i + FrameSize(stream, i)] == head + stream[i + 4..i + FrameSize(stream, i)];
  }

  lemma FramesBytesCons(f: Frame, frames: seq<Frame>)
    ensures FramesBytes([f] + frames) == FrameBytes(f) + FramesBytes(frames)
  {
    assert ([f] + frames)[1..] == frames;
  }

  lemma SliceJoin(stream: seq<Byte>, i: nat, m: nat, j: nat)
    requires i <= m <= j <= |stream|
    ensures stream[i..j] == stream[i..m] + stream[m..j]
  {}

  /** The bytes of a frame before those of others. */
  lemma OneMoreFrame(stream: seq<Byte>, i: nat, m: nat, j: nat, f: Frame, frames: seq<Frame>)
    requires i <= m <= j <= |stream| && stream[i..m] == FrameBytes(f) && stream[m..j] == FramesBytes(frames)
    ensures stream[i..j] == FramesBytes([f] + frames)
  {
    FramesBytesCons(f, frames);
    SliceJoin(stream, i, m, j);
  }

  lemma CutStarts(stream: seq<Byte>, i: nat, m: nat)
    requires i <= |stream| && FrameSize(stream, i) > 0 && m == i + FrameSize(stream, i)
    ensures CutFrames(stream, i) == [FrameAt(stream, i)] + CutFrames(stream, m)
  {}

  // ----- The frames handled are the first ones of the cut.

  lemma TakenIsCut(s: In)
    requires InOk(s) && TakeRequest(s).read.GotFrame?
    ensures var r := TakeRequest(s);
            && r.rest.stream == s.stream
            && FrameSize(s.stream, s.pos) > 0 && r.rest.pos == s.pos + FrameSize(s.stream, s.pos)
            && r.read.frame == FrameAt(s.stream, s.pos)
  {
    ReceiveCounts(s, 4, 0);
    var r := ReceiveAll(s, 4);
    var size := BodySize(WordAt(s.stream[s.pos..r.rest.pos], 0, 4)).value;
    if size > 0 {
      ReceiveCounts(r.rest, size, 0);
    }
  }

  /** The loop stops at the end of the input only between frames. */
  lemma EndIsBetweenFrames(s: In)
    requires InOk(s) && TakeRequest(s).read == Stop(EndOfInput)
    ensures s.pos == |s.stream|
  {
    ReceiveCounts(s, 4, 0);
  }

  lemma FailureIsNoEnd(got: Got, exit: Exit)
    requires exit != EndOfInput
    ensures Failure(got, exit) != EndOfInput
  {}

  /** The frames handled are the first ones of the cut; at the end of the input, all of them, and
      the stream is their bytes and nothing more. */
  predicate IsCut(t: Trace, s: In)
    requires InOk(s)
  {
    && t.rest.stream == s.stream && t.frames <= CutFrames(s.stream, s.pos)
    && (t.exit == EndOfInput ==>
          && t.frames == CutFrames(s.stream, s.pos) && t.rest.pos == |s.stream|
          && s.stream[s.pos..|s.stream|] == FramesBytes(t.frames))
  }

  lemma IsCutCons(f: Frame, r: Reply, t: Trace, s: In, rest: In)
    requires InOk(s) && InOk(rest) && TakeRequest(s) == Taken(GotFrame(f), rest) && IsCut(t, rest)
    ensures IsCut(Cons(f, r, t), s)
  {
    TakenIsCut(s);
    CutStarts(s.stream, s.pos, rest.pos);
    if t.exit == EndOfInput {
      FrameBytesAt(s.stream, s.pos);
      OneMoreFrame(s.stream, s.pos, rest.pos, |s.stream|, f, t.frames);
    }
  }

  lemma IsCutLast(f: Frame, replies: seq<Reply>, exit: Exit, w: World, s: In, rest: In, o: Out)
    requires InOk(s) && InOk(rest) && TakeRequest(s) == Taken(GotFrame(f), rest) && exit != EndOfInput
    ensures IsCut(Trace([f], replies, exit, w, rest, o), s)
  {
    TakenIsCut(s);
  }

  lemma IsCutStop(w: World, s: In, o: Out)
    requires InOk(s) && TakeRequest(s).read.Stop?
    ensures IsCut(Trace([], [], TakeRequest(s).read.exit, w, TakeRequest(s).rest, o), s)
  {
    TakesProperFrames(s);
    if TakeRequest(s).read.exit == EndOfInput {
      EndIsBetweenFrames(s);
      ReceiveCounts(s, 4, 0);
    }
  }

  /** For every stream and every schedule of arrivals, time-outs and failures, the frames handled
      are the first ones of the stream's cut; the loop is left for the end of the input only between
      frames, so that they are all of them and the stream holds nothing else. */
  lemma {:induction false} HandledIsCut(c: Config, w: World, s: In, o: Out, envs: nat -> Env, k: nat)
    requires InOk(s) && OutOk(o)
    ensures IsCut(Loop(c, w, s, o, envs, k), s)
    decreases |s.events| - s.next
  {
    var taken := TakeRequest(s);
    TakesProperFrames(s);
    if taken.read.Stop? {
      IsCutStop(w, s, o);
    } else {
      var frame := taken.read.frame;
      var handled := Handled(c, w, DecodeRequest(frame), envs(k));
      if handled.Dies? {
        IsCutLast(frame, [], NoAgent, w, s, taken.rest, o);
      } else {
        var sent := Deliver(o, handled.reply, envs(k));
        if sent.got == Count(|ReplyBytes(handled.reply)|) {
          HandledIsCut(c, handled.world, taken.rest, sent.rest, envs, k + 1);
          IsCutCons(frame, handled.reply, Loop(c, handled.world, taken.rest, sent.rest, envs, k + 1), s, taken.rest);
        } else {
          FailureIsNoEnd(sent.got, BadResponse);
          IsCutLast(frame, [handled.reply], Failure(sent.got, BadResponse), handled.world, s, taken.rest, sent.rest);
        }
      }
    }
  }

  // ----- The cut is the only one.

  /** The bytes of the cut are the stream, up to a rest that holds no whole frame. */
  lemma {:induction false} CutKeepsBytes(stream: seq<Byte>, i: nat) returns (j: nat)
    requires i <= |stream|
    ensures i <= j <= |stream| && stream[i..j] == FramesBytes(CutFrames(stream, i)) && FrameSize(stream, j) == 0
    decreases |stream| - i
  {
    j := i;
    if FrameSize(stream, i) > 0 {
      var m := i + FrameSize(stream, i);
      j := CutKeepsBytes(stream, m);
      CutStarts(stream, i, m);
      FrameBytesAt(stream, i);
      OneMoreFrame(stream, i, m, j, FrameAt(stream, i), CutFrames(stream, m));
    }
  }

  lemma SmallCode(f: Frame)
    requires ProperFrame(f)
    ensures f.code < Power256(4)
  {
    SmallWord();
  }

  lemma FrameFound(stream: seq<Byte>, i: nat, f: Frame)
    requires ProperFrame(f) && i + 4 + |f.body| <= |stream| && stream[i..i + 4 + |f.body|] == FrameBytes(f)
    ensures FrameSize(stream, i) == 4 + |f.body| && FrameAt(stream, i) == f
  {
    var whole := stream[i..i + 4 + |f.body|];
    assert stream[i..i + 4] == whole[..4] == WordBytes(f.code, 4);
    assert stream[i + 4..i + 4 + |f.body|] == whole[4..] == f.body;
    SmallCode(f);
    var head := stream[i..i + 4];
    assert head[0..4] == head;
    WordRoundTrip(f.code, 4, head, 0);
  }

  lemma FirstFrame(stream: seq<Byte>, i: nat, f: Frame, rest: seq<Byte>)
    requires i <= |stream| && stream[i..] == FrameBytes(f) + rest && ProperFrame(f)
    ensures FrameSize(stream, i) == 4 + |f.body| && FrameAt(stream, i) == f
    ensures stream[i + FrameSize(stream, i)..] == rest
  {
    var m := i + 4 + |f.body|;
    assert stream[i..m] == stream[i..][..4 + |f.body|] == FrameBytes(f);
    assert stream[m..] == stream[i..][4 + |f.body|..] == rest;
    FrameFound(stream, i, f);
  }

  /** A stream made of proper frames is cut into those. */
  lemma {:induction false} CutOfFrames(stream: seq<Byte>, i: nat, frames: seq<Frame>)
    requires i <= |stream| && stream[i..] == FramesBytes(frames)
    requires forall f | f in frames :: ProperFrame(f)
    ensures CutFrames(stream, i) == frames
    decreases |frames|
  {
    if frames != [] {
      assert frames[0] in frames && frames == [frames[0]] + frames[1..];
      FirstFrame(stream, i, frames[0], FramesBytes(frames[1..]));
      CutOfFrames(stream, i + FrameSize(stream, i), frames[1..]);
    }
  }

  // ----- From the client's requests to the requests handled.

  function ClientFrames(requests: seq<Request>): (frames: seq<Frame>)
    ensures |frames| == |requests|
    ensures forall i | 0 <= i < |requests| :: frames[i] == EncodeRequest(requests[i])
  {
    seq(|requests|, i requires 0 <= i < |requests| => EncodeRequest(requests[i]))
  }

  /** Whatever the client's transfers and the executor's are cut into, the executor handles the
      client's requests, in order, with strings no longer than its buffers; if it ends at the end
      of the input, it has handled all of them. */
  lemma ClientIsServed(c: Config, w: World, requests: seq<Request>, s: In, o: Out, envs: nat -> Env)
    requires (forall r | r in requests :: Sendable(r)) && OutOk(o)
    requires InOk(s) && s.pos == 0 && s.stream == FramesBytes(ClientFrames(requests))
    ensures var t := Loop(c, w, s, o, envs, 0);
            && |t.frames| <= |requests| && (t.exit == EndOfInput ==> |t.frames| == |requests|)
            && (forall i | 0 <= i < |t.frames| ::
                  ProperFrame(t.frames[i]) && DecodeRequest(t.frames[i]) == Shortened(requests[i]))
  {
    var frames, t := ClientFrames(requests), Loop(c, w, s, o, envs, 0);
    assert s.stream[0..] == s.stream;
    CutOfFrames(s.stream, 0, frames);
    HandledIsCut(c, w, s, o, envs, 0);
    forall i | 0 <= i < |t.frames|
      ensures ProperFrame(t.frames[i]) && DecodeRequest(t.frames[i]) == Shortened(requests[i])
    {
      assert t.frames[i] == frames[i] && requests[i] in requests;
      RequestRoundTrip(requests[i]);
    }
  }

  // ----- One reply to each request, in order.

  /** What a reply puts on the socket: the response and, with descriptors, one more byte. */
  function Delivered(r: Reply, env: Env): seq<Byte> {
    ReplyBytes(r) + (if PassesDescriptors(r) && env.passOk then [0] else [])
  }

  function RepliesBytes(replies: seq<Reply>, envs: nat -> Env, k: nat): seq<Byte>
    decreases |replies|
  {
    if replies == [] then [] else Delivered(replies[0], envs(k)) + RepliesBytes(replies[1..], envs, k + 1)
  }

  lemma DeliverySends(o: Out, r: Reply, env: Env) returns (upTo: nat)
    requires OutOk(o)
    ensures var sent := Deliver(o, r, env);
            && upTo <= |ReplyBytes(r)|
            && (sent.got == Count(|ReplyBytes(r)|) ==> sent.rest.sent == o.sent + Delivered(r, env))
            && (sent.got != Count(|ReplyBytes(r)|) ==> sent.rest.sent == o.sent + ReplyBytes(r)[..upTo])
  {
    upTo := SendsInOrder(o, ReplyBytes(r), 0);
    assert ReplyBytes(r)[0..upTo] == ReplyBytes(r)[..upTo];
    assert upTo == |ReplyBytes(r)| ==> ReplyBytes(r)[..upTo] == ReplyBytes(r);
  }

  /** The loop was left while it was reading, not while it was replying. */
  predicate EndedReading(exit: Exit) {
    exit == EndOfInput || exit == BadHeader || exit == BadCode || exit == BadRequest
  }

  predicate InOrder(t: Trace, o: Out, envs: nat -> Env, k: nat) {
    && |t.replies| <= |t.frames| <= |t.replies| + 1
    && (t.out.sent == o.sent + RepliesBytes(t.replies, envs, k)
        || (t.replies != [] && |t.frames| == |t.replies| && !EndedReading(t.exit)
            && o.sent + RepliesBytes(t.replies[..|t.replies| - 1], envs, k) <= t.out.sent
            && t.out.sent <= o.sent + RepliesBytes(t.replies, envs, k)))
    && (EndedReading(t.exit) ==> |t.replies| == |t.frames|)
    && (t.exit == NoAgent ==> |t.frames| == |t.replies| + 1)
  }

  lemma FailureIsNoRead(got: Got)
    ensures !EndedReading(Failure(got, BadResponse)) && Failure(got, BadResponse) != NoAgent
  {}

  lemma RepliesFirst(r: Reply, replies: seq<Reply>, envs: nat -> Env, k: nat)
    ensures RepliesBytes([r] + replies, envs, k) == Delivered(r, envs(k)) + RepliesBytes(replies, envs, k + 1)
  {
    assert ([r] + replies)[1..] == replies;
  }

  lemma Associate(a: seq<Byte>, b: seq<Byte>, c: seq<Byte>)
    ensures a + (b + c) == (a + b) + c
  {}

  lemma RepliesCons(r: Reply, replies: seq<Reply>, o: Out, next: Out, envs: nat -> Env, k: nat)
    requires next.sent == o.sent + Delivered(r, envs(k))
    ensures o.sent + RepliesBytes([r] + replies, envs, k) == next.sent + RepliesBytes(replies, envs, k + 1)
  {
    RepliesFirst(r, replies, envs, k);
    Associate(o.sent, Delivered(r, envs(k)), RepliesBytes(replies, envs, k + 1));
  }

  lemma InOrderCons(f: Frame, r: Reply, t: Trace, o: Out, next: Out, envs: nat -> Env, k: nat)
    requires InOrder(t, next, envs, k + 1) && next.sent == o.sent + Delivered(r, envs(k))
    ensures InOrder(Cons(f, r, t), o, envs, k)
  {
    RepliesCons(r, t.replies, o, next, envs, k);
    if t.replies != [] {
      var most := t.replies[..|t.replies| - 1];
      RepliesCons(r, most, o, next, envs, k);
      assert ([r] + t.replies)[..|t.replies|] == [r] + most;
    }
  }

  lemma InOrderLast(f: Frame, r: Reply, exit: Exit, w: World, s: In, o: Out, next: Out,
                    envs: nat -> Env, k: nat, upTo: nat)
    requires upTo <= |ReplyBytes(r)| && next.sent == o.sent + ReplyBytes(r)[..upTo]
    requires !EndedReading(exit) && exit != NoAgent
    ensures InOrder(Trace([f], [r], exit, w, s, next), o, envs, k)
  {
    assert [r][1..] == [] && [r][..0] == [];
    assert RepliesBytes([r], envs, k) == Delivered(r, envs(k)) + [];
    assert ReplyBytes(r)[..upTo] <= Delivered(r, envs(k));
    assert o.sent + RepliesBytes([], envs, k) == o.sent;
  }

  /** Each handled request gets its reply, whole and in the order of the requests; only the last
      reply may be cut short, when the loop ends because it cannot be written, and only a request
      that ends the executor for lack of an agent program gets none. */
  lemma {:induction false} OneReplyEach(c: Config, w: World, s: In, o: Out, envs: nat -> Env, k: nat)
    requires InOk(s) && OutOk(o)
    ensures InOrder(Loop(c, w, s, o, envs, k), o, envs, k)
    decreases |s.events| - s.next
  {
    var taken := TakeRequest(s);
    TakesProperFrames(s);
    assert o.sent + RepliesBytes([], envs, k) == o.sent;
    if taken.read.GotFrame? {
      var frame := taken.read.frame;
      var handled := Handled(c, w, DecodeRequest(frame), envs(k));
      if handled.Lives? {
        var sent := Deliver(o, handled.reply, envs(k));
        var upTo := DeliverySends(o, handled.reply, envs(k));
        if sent.got == Count(|ReplyBytes(handled.reply)|) {
          OneReplyEach(c, handled.world, taken.rest, sent.rest, envs, k + 1);
          var rest := Loop(c, handled.world, taken.rest, sent.rest, envs, k + 1);
          InOrderCons(frame, handled.reply, rest, o, sent.rest, envs, k);
        } else {
          FailureIsNoRead(sent.got);
          InOrderLast(frame, handled.reply, Failure(sent.got, BadResponse), handled.world, taken.rest, o, sent.rest,
                      envs, k, upTo);
        }
      }
    } else {
      StopsReading(s);
    }
  }

  lemma StopsReading(s: In)
    requires InOk(s) && TakeRequest(s).read.Stop?
    ensures TakeRequest(s).read.exit != NoAgent
  {}

  // ----- The state after the loop.

  function StepsOf(frames: seq<Frame>, envs: nat -> Env, k: nat): seq<Step>
    requires forall f | f in frames :: ProperFrame(f)
    decreases |frames|
  {
    if frames == [] then []
    else [Step.Serve(DecodeRequest(frames[0]), envs(k))] + StepsOf(frames[1..], envs, k + 1)
  }

  lemma {:induction false} StepsPlaceNothing(frames: seq<Frame>, envs: nat -> Env, k: nat)
    requires forall f | f in frames :: ProperFrame(f)
    ensures forall step | step in StepsOf(frames, envs, k) :: step.Serve?
    decreases |frames|
  {
    if frames != [] {
      StepsPlaceNothing(frames[1..], envs, k + 1);
    }
  }

  /** The replies that a run of requests calls for. */
  function Answers(c: Config, w: World, steps: seq<Step>): seq<Reply>
    decreases |steps|
  {
    if steps == [] || Stops(c, w, steps[0]) then []
    else
      var rest := Answers(c, After(c, w, steps[0]), steps[1..]);
      if Answer(c, w, steps[0]).Some? then [Answer(c, w, steps[0]).value] + rest else rest
  }

  lemma FinalCons(c: Config, w: World, step: Step, steps: seq<Step>)
    ensures Final(c, w, [step] + steps) == if Stops(c, w, step) then w else Final(c, After(c, w, step), steps)
    ensures Stops(c, w, step) ==> Answers(c, w, [step] + steps) == []
    ensures Answer(c, w, step).Some? ==>
              Answers(c, w, [step] + steps) == [Answer(c, w, step).value] + Answers(c, After(c, w, step), steps)
  {
    assert ([step] + steps)[1..] == steps;
  }

  /** The loop is a run of the executor: its state at the end is the one after the requests of
      the frames it handled, and its replies are the answers to them. */
  lemma {:induction false} LoopIsRun(c: Config, w: World, s: In, o: Out, envs: nat -> Env, k: nat)
    requires InOk(s) && OutOk(o)
    ensures var t := Loop(c, w, s, o, envs, k);
            && (forall f | f in t.frames :: ProperFrame(f))
            && t.world == Final(c, w, StepsOf(t.frames, envs, k))
            && t.replies == Answers(c, w, StepsOf(t.frames, envs, k))
    decreases |s.events| - s.next
  {
    var taken := TakeRequest(s);
    TakesProperFrames(s);
    if taken.read.GotFrame? {
      var frame := taken.read.frame;
      var step := Step.Serve(DecodeRequest(frame), envs(k));
      var handled := Handled(c, w, DecodeRequest(frame), envs(k));
      FinalCons(c, w, step, []);
      assert StepsOf([frame], envs, k) == [step] by {
        assert [frame][1..] == [];
      }
      if handled.Lives? {
        var sent := Deliver(o, handled.reply, envs(k));
        if sent.got == Count(|ReplyBytes(handled.reply)|) {
          LoopIsRun(c, handled.world, taken.rest, sent.rest, envs, k + 1);
          var rest := Loop(c, handled.world, taken.rest, sent.rest, envs, k + 1);
          assert ([frame] + rest.frames)[1..] == rest.frames;
          FinalCons(c, w, step, StepsOf(rest.frames, envs, k + 1));
        }
      }
    }
  }

  /** From the bytes on the socket to the files: no stream of requests makes the executor write
      anything but the files the policy lists and the files of challenges, and when the loop ends
      it holds the descriptors it started with, but for the pipe. */
  lemma StreamIsHarmless(s: Settings, w: World, input: In, o: Out, envs: nat -> Env, path: CString)
    requires Resolved(s) && AllLiteral(PathsOf(s)) && |s.localAuthDir| + |STEM| <= MAX_LENGTH
    requires InOk(input) && OutOk(o)
    ensures var end := Loop(Started(s), w, input, o, envs, 0).world;
            && (!Undisturbed(w, end, path) ==> Listed(PathsOf(s), path) || s.localAuthDir + STEM <= path)
            && (end.fds == w.fds || end.fds == w.fds - {w.pipe})
            && end.notices - w.notices == end.closes - w.closes <= 1
  {
    var t := Loop(Started(s), w, input, o, envs, 0);
    LoopIsRun(Started(s), w, input, o, envs, 0);
    var steps := StepsOf(t.frames, envs, 0);
    StepsPlaceNothing(t.frames, envs, 0);
    RunKeepsDescriptors(Started(s), w, steps);
    if !Undisturbed(w, t.world, path) {
      assert forall i | 0 <= i < |steps| :: steps[i].Serve?;
      WrittenFiles(s, w, steps, path);
    }
  }

  /** After start-up no request is fatal: the loop never ends for lack of an agent program. */
  lemma {:induction false} NoRequestIsFatal(s: Settings, w: World, input: In, o: Out, envs: nat -> Env, k: nat)
    requires Resolved(s) && InOk(input) && OutOk(o)
    ensures Loop(Started(s), w, input, o, envs, k).exit != NoAgent
    decreases |input.events| - input.next
  {
    var taken := TakeRequest(input);
    TakesProperFrames(input);
    if taken.read.GotFrame? {
      var request := DecodeRequest(taken.read.frame);
      AgentsAreThere(s, w, request, envs(k));
      var handled := Handled(Started(s), w, request, envs(k));
      var sent := Deliver(o, handled.reply, envs(k));
      FailureIsNoRead(sent.got);
      if sent.got == Count(|ReplyBytes(handled.reply)|) {
        NoRequestIsFatal(s, handled.world, taken.rest, sent.rest, envs, k + 1);
      }
    } else {
      StopsReading(input);
    }
  }
}
