/** What a successful local authentication shows, and why a challenge file serves one client
    (src/Executor/LocalAuth.c). */
module ExecutorTokens {
  import opened Wrappers
  import opened CStrings
  import opened ChallengePaths
  import opened Tokens
  import opened ExecutorWorld
  import opened ExecutorSafety
  import opened ExecutorChallenges

  // ----- The token in the file.

  /** Some step of the run asks for the challenge file of this name and draws these bytes. */
  predicate Drawn(c: Config, w: World, steps: seq<Step>, path: CString, data: Seed)
    decreases |steps|
  {
    steps != [] && !Stops(c, w, steps[0]) &&
    (|| (ChallengeOf(c, w, steps[0]) == Some(path) && steps[0].env.random == data)
     || Drawn(c, After(c, w, steps[0]), steps[1..], path, data))
  }

  predicate LeftAlone(steps: seq<Step>, path: CString) {
    forall i | 0 <= i < |steps| :: steps[i].Place? ==> steps[i].path != path
  }

  /** A challenge leaves the file as it was, removes it, or leaves the start of its token in it. */
  lemma ChallengeWrites(c: Config, w: World, step: Step, path: CString)
    requires ChallengeOf(c, w, step) == Some(path)
    ensures var files := After(c, w, step).files;
            path in files ==>
              (path in w.files && files[path] == w.files[path]) || files[path] <= HexText(step.env.random)
  {}

  /** A file that no other process writes and that the policy does not let be written holds the
      start of a token drawn for it. */
  lemma {:induction false} FileHoldsToken(c: Config, w: World, steps: seq<Step>, path: CString) returns (data: Seed)
    requires !Writable(c, path) && LeftAlone(steps, path)
    requires path in Final(c, w, steps).files
    ensures var text := Final(c, w, steps).files[path];
            || (path in w.files && text == w.files[path])
            || (Drawn(c, w, steps, path, data) && text <= HexText(data))
    decreases |steps|
  {
    data := Zeros();
    if steps != [] && !Stops(c, w, steps[0]) {
      var next := After(c, w, steps[0]);
      data := FileHoldsToken(c, next, steps[1..], path);
      if !Drawn(c, next, steps[1..], path, data) || !(Final(c, w, steps).files[path] <= HexText(data)) {
        if ChallengeOf(c, w, steps[0]) == Some(path) {
          ChallengeWrites(c, w, steps[0], path);
          data := steps[0].env.random;
        } else {
          StepUndisturbed(c, w, steps[0], path);
        }
      }
    }
  }

  lemma PassesMeans(c: Config, w: World, last: Step, path: CString)
    requires Passes(c, w, last, path)
    ensures Full(w, path)
    ensures Text(w.files[path][..TOKEN_LENGTH]) == last.request.response
  {}

  lemma WholeToken(text: string, data: Seed)
    requires text <= HexText(data) && |text| >= TOKEN_LENGTH
    ensures Text(text[..TOKEN_LENGTH]) == HexText(data)
  {
    assert text[..TOKEN_LENGTH] == HexText(data);
    WholeText(HexText(data));
  }

  /** A client is authenticated only by answering with a whole token drawn for the file it
      names, from which the random bytes can be read back. */
  lemma SuccessShowsToken(c: Config, w: World, steps: seq<Step>, last: Step, path: CString) returns (data: Seed)
    requires !Full(w, path) && !Writable(c, path) && LeftAlone(steps, path)
    requires Passes(c, Final(c, w, steps), last, path)
    ensures Drawn(c, w, steps, path, data)
    ensures last.request.response == HexText(data) && HexBytes(last.request.response) == Some(data)
  {
    PassesMeans(c, Final(c, w, steps), last, path);
    data := FileHoldsToken(c, w, steps, path);
    WholeToken(Final(c, w, steps).files[path], data);
    HexRoundTrip(data);
  }

  lemma MadeHoldsToken(c: Config, w: World, first: Step, path: CString)
    requires Makes(c, w, first, path)
    ensures first.Serve? && path in After(c, w, first).files
    ensures After(c, w, first).files[path] == HexText(first.env.random)
  {}

  lemma TokenAccepted(c: Config, w: World, path: CString, data: Seed, env: Env)
    requires path in w.files && w.files[path] == HexText(data) && Usable(env.first, w.fds) && env.readOk
    ensures Passes(c, w, Serve(AuthenticateLocal(path, HexText(data)), env), path)
  {
    WholeToken(w.files[path], data);
  }

  /** A challenge is told exactly if the user is known and the file of the next number can be made
      new: what was there goes, a whole token is written and the file is given to the user. */
  lemma ChallengeToldExactly(c: Config, w: World, user: CString, env: Env)
    ensures var path := ChallengePath(c.dir, user, w.next, env.usec / 1000);
            var told := env.knownUser && (path in w.files ==> env.unlinkOk) && Usable(env.first, w.fds)
                        && env.written >= TOKEN_LENGTH && env.chownOk;
            var step := Serve(ChallengeLocal(user), env);
            && Answer(c, w, step) == Some(if told then Challenge(0, path) else Challenge(-1, ""))
            && (told ==> After(c, w, step).files == w.files[path := HexText(env.random)])
            && After(c, w, step).next == (if env.knownUser then (w.next + 1) % WRAP else w.next)
  {}

  /** A challenge that is not told leaves no file of its name, if files can be removed. If they
      cannot, an old file stays, or the new one does with as much of the token as was written. */
  lemma FailedChallengeLeaves(c: Config, w: World, user: CString, env: Env)
    requires Answer(c, w, Serve(ChallengeLocal(user), env)) == Some(Challenge(-1, ""))
    ensures var path := ChallengePath(c.dir, user, w.next, env.usec / 1000);
            var files := After(c, w, Serve(ChallengeLocal(user), env)).files;
            if !env.knownUser || (path in w.files && !env.unlinkOk) then files == w.files
            else if env.cleanupOk || !Usable(env.first, w.fds) then files == w.files - {path}
            else exists n: nat | n <= TOKEN_LENGTH :: files == w.files[path := HexText(env.random)[..n]]
  {
    var token := HexText(env.random);
    var n := if env.written < TOKEN_LENGTH then env.written else TOKEN_LENGTH;
    assert token[..TOKEN_LENGTH] == token;
    var path := ChallengePath(c.dir, user, w.next, env.usec / 1000);
    if !env.knownUser || (path in w.files && !env.unlinkOk) || env.cleanupOk || !Usable(env.first, w.fds) {
    } else {
      assert After(c, w, Serve(ChallengeLocal(user), env)).files == w.files[path := token[..n]];
    }
  }

  /** An answer is accepted exactly if the file can be read and its first forty characters are the
      answer, both as C strings. */
  lemma AcceptedExactly(c: Config, w: World, path: CString, response: CString, env: Env)
    ensures Answer(c, w, Serve(AuthenticateLocal(path, response), env)) == Some(Status(
              if path in w.files && Usable(env.first, w.fds) && env.readOk && |w.files[path]| >= TOKEN_LENGTH
                 && Text(w.files[path][..TOKEN_LENGTH]) == response
              then 0 else -1))
  {}

  /** A client that answers with the token of its challenge is authenticated, if the file is still
      there as it was made and the system lets it be read. */
  lemma AnswerIsAccepted(c: Config, w: World, first: Step, steps: seq<Step>, path: CString, env: Env)
    requires Makes(c, w, first, path)
    requires var made := After(c, w, first); var after := Final(c, made, steps);
             && path in made.files && path in after.files && after.files[path] == made.files[path]
             && Usable(env.first, after.fds) && env.readOk
    ensures Passes(c, Final(c, After(c, w, first), steps),
                   Serve(AuthenticateLocal(path, HexText(first.env.random)), env), path)
  {
    MadeHoldsToken(c, w, first, path);
    TokenAccepted(c, Final(c, After(c, w, first), steps), path, first.env.random, env);
  }

  // ----- Until the sequence number wraps.

  /** How many sequence numbers the run takes. */
  function Attempts(steps: seq<Step>): nat {
    if steps == [] then 0
    else One(steps[0].Serve? && steps[0].request.ChallengeLocal? && steps[0].env.knownUser) + Attempts(steps[1..])
  }

  predicate BeforeWrap(w: World, steps: seq<Step>) {
    w.next + Attempts(steps) <= WRAP
  }

  lemma NextNumber(c: Config, w: World, step: Step)
    requires w.next < WRAP
    ensures After(c, w, step).next == if ChallengeOf(c, w, step).Some? then (w.next + 1) % WRAP else w.next
  {}

  /** A name that was not cut is not used again before the sequence number wraps. */
  lemma {:induction false} NotMadeAgain(c: Config, w: World, steps: seq<Step>, path: CString,
                                        user: CString, number: nat, ms: nat)
    requires path == ChallengePath(c.dir, user, number, ms) && |path| < MAX_LENGTH
    requires Attempts(steps) == 0 || (number < w.next && BeforeWrap(w, steps))
    ensures Count(c, w, steps, path).made == 0
    decreases |steps|
  {
    if steps != [] && !Stops(c, w, steps[0]) {
      var step, next := steps[0], After(c, w, steps[0]);
      if ChallengeOf(c, w, step).Some? {
        NextNumber(c, w, step);
        if ChallengeOf(c, w, step) == Some(path) {
          PathsTellApart(c.dir, user, number, ms, step.request.user, w.next, step.env.usec / 1000);
        }
      } else if Attempts(steps) > 0 {
        NextNumber(c, w, step);
      }
      if Makes(c, w, step, path) {
        MakesItsOwn(c, w, step, path);
      }
      NotMadeAgain(c, next, steps[1..], path, user, number, ms);
    }
  }

  lemma MakesItsOwn(c: Config, w: World, step: Step, path: CString)
    requires Makes(c, w, step, path)
    ensures ChallengeOf(c, w, step) == Some(path)
  {}

  lemma {:induction false} MadeOnce(c: Config, w: World, steps: seq<Step>, path: CString)
    requires |path| < MAX_LENGTH && BeforeWrap(w, steps)
    ensures Count(c, w, steps, path).made <= 1
    decreases |steps|
  {
    if steps != [] && !Stops(c, w, steps[0]) {
      var step, next := steps[0], After(c, w, steps[0]);
      if Makes(c, w, step, path) {
        MakesItsOwn(c, w, step, path);
        NextNumber(c, w, step);
        NotMadeAgain(c, next, steps[1..], path, step.request.user, w.next, step.env.usec / 1000);
      } else {
        if Attempts(steps) > 0 {
          NextNumber(c, w, step);
        }
        NextBeforeWrap(c, w, steps);
        MadeOnce(c, next, steps[1..], path);
      }
    }
  }

  lemma NextBeforeWrap(c: Config, w: World, steps: seq<Step>)
    requires steps != [] && BeforeWrap(w, steps)
    ensures BeforeWrap(After(c, w, steps[0]), steps[1..])
  {}

  /** Without leaks, and before the sequence number wraps, a challenge file whose name was not
      cut is tried at most once with a chance, and authenticates at most one client. */
  lemma PassedOnce(c: Config, w: World, steps: seq<Step>, path: CString)
    requires !Full(w, path) && OnlyLeaks(c, w, steps, path, {})
    requires |path| < MAX_LENGTH && BeforeWrap(w, steps)
    ensures var n := Count(c, w, steps, path); n.passed <= n.tried <= 1
  {
    OneTime(c, w, steps, path);
    MadeOnce(c, w, steps, path);
  }
}
