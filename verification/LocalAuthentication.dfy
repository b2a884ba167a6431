/** Local authentication once the executor has started: which challenge files the policy leaves
    alone, and what follows for clients (src/Executor/LocalAuth.c, src/Executor/main.c). */
module LocalAuthentication {
  import opened Wrappers
  import opened CStrings
  import opened PolicyDecisions
  import opened ExecutorMacros
  import opened ChallengePaths
  import opened Tokens
  import opened ExecutorWorld
  import opened ExecutorSafety
  import opened ExecutorChallenges
  import opened ExecutorTokens

  /** What every challenge name starts with. */
  function NameStart(s: Settings): CString {
    s.localAuthDir + STEM
  }

  /** The two are prefixes of a common path. */
  predicate Comparable(x: CString, y: CString) {
    x <= y || y <= x
  }

  /** No configured file and no backup of one has the name of a challenge, and no store holds one. */
  predicate NamesApart(start: CString, p: Paths) {
    && !(start <= p.current + ".bak") && !(start <= p.planned + ".bak") && !(start <= p.password + ".bak")
    && !Comparable(start, p.trust + "/") && !Comparable(start, p.crl + "/")
  }

  lemma NotInStore(start: CString, store: CString, path: CString)
    requires start <= path && !Comparable(start, store)
    ensures !(store <= path)
  {}

  /** Exactly then no challenge name may be written. */
  lemma ApartExactly(start: CString, p: Paths)
    ensures NamesApart(start, p) <==> forall path: CString | start <= path :: !Listed(p, path)
  {
    if NamesApart(start, p) {
      forall path: CString | start <= path ensures !Listed(p, path) {
        NotInStore(start, p.trust + "/", path);
        NotInStore(start, p.crl + "/", path);
      }
    } else {
      var path := Overlap(start, p);
    }
  }

  lemma Overlap(start: CString, p: Paths) returns (path: CString)
    requires !NamesApart(start, p)
    ensures start <= path && Listed(p, path)
  {
    if start <= p.trust + "/" {
      path := p.trust + "/";
    } else if start <= p.crl + "/" {
      path := p.crl + "/";
    } else if p.trust + "/" <= start || p.crl + "/" <= start {
      path := start;
    } else {
      path := if start <= p.current + ".bak" then p.current + ".bak"
              else if start <= p.planned + ".bak" then p.planned + ".bak"
              else p.password + ".bak";
    }
  }

  /** The path has the name of a challenge, and the settings keep such names apart. */
  predicate Protected(s: Settings, path: CString) {
    Resolved(s) && AllLiteral(PathsOf(s)) && NamesApart(NameStart(s), PathsOf(s)) && NameStart(s) <= path
  }

  lemma ChallengesNotWritable(s: Settings, path: CString)
    requires Protected(s, path)
    ensures !Writable(Started(s), path)
  {
    ApartExactly(NameStart(s), PathsOf(s));
    WritableExactly(s, path);
  }

  /** No request makes the policy put a token where a challenge is. */
  lemma PolicyDoesNotLeak(s: Settings, w: World, step: Step, path: CString)
    requires Protected(s, path)
    ensures LeakOf(Started(s), w, step, path) != Some(ByPolicy)
  {
    ChallengesNotWritable(s, path);
  }

  /** Whenever the executor wants the file of this name gone, it goes: when a challenge of this
      name is answered, and when one could not be given to its user. */
  predicate Tidy(c: Config, w: World, steps: seq<Step>, path: CString)
    decreases |steps|
  {
    steps == [] || Stops(c, w, steps[0]) ||
    (&& (Answers(steps[0], path) ==> steps[0].env.unlinkOk)
     && (ChallengeOf(c, w, steps[0]) == Some(path) ==> steps[0].env.chownOk || steps[0].env.cleanupOk)
     && Tidy(c, After(c, w, steps[0]), steps[1..], path))
  }

  lemma {:induction false} NothingLeaks(s: Settings, w: World, steps: seq<Step>, path: CString)
    requires Protected(s, path) && LeftAlone(steps, path) && Tidy(Started(s), w, steps, path)
    ensures OnlyLeaks(Started(s), w, steps, path, {})
    decreases |steps|
  {
    if steps != [] && !Stops(Started(s), w, steps[0]) {
      var rest := steps[1..];
      assert forall i | 0 <= i < |rest| :: rest[i] == steps[i + 1];
      PolicyDoesNotLeak(s, w, steps[0], path);
      assert LeakOf(Started(s), w, steps[0], path).None?;
      NothingLeaks(s, After(Started(s), w, steps[0]), rest, path);
    }
  }

  /** After start-up, unless another process writes the file or its removal fails, a challenge file
      never gives more clients a chance, whether they answer rightly or not, than were told about it,
      whatever the server asks for; and none twice, if its name was not cut and the sequence number
      has not wrapped. */
  lemma OneTimeAfterStartUp(s: Settings, w: World, steps: seq<Step>, path: CString)
    requires Protected(s, path) && !Full(w, path)
    requires LeftAlone(steps, path) && Tidy(Started(s), w, steps, path)
    ensures var n := Count(Started(s), w, steps, path);
            n.passed <= n.tried <= n.made && (|path| < MAX_LENGTH && BeforeWrap(w, steps) ==> n.tried <= 1)
  {
    NothingLeaks(s, w, steps, path);
    OneTime(Started(s), w, steps, path);
    if |path| < MAX_LENGTH && BeforeWrap(w, steps) {
      PassedOnce(Started(s), w, steps, path);
    }
  }

  /** After start-up, unless another process writes the file, whoever is authenticated by a file
      with the name of a challenge has answered with a token drawn for that file. */
  lemma SuccessAfterStartUp(s: Settings, w: World, steps: seq<Step>, last: Step, path: CString) returns (data: Seed)
    requires Protected(s, path)
    requires !Full(w, path) && LeftAlone(steps, path)
    requires Passes(Started(s), Final(Started(s), w, steps), last, path)
    ensures Drawn(Started(s), w, steps, path, data)
    ensures last.request.response == HexText(data) && HexBytes(last.request.response) == Some(data)
  {
    ChallengesNotWritable(s, path);
    data := SuccessShowsToken(Started(s), w, steps, last, path);
  }

  /** All of this holds of the paths that clients are told. */
  lemma ToldPathsAreProtected(s: Settings, w: World, step: Step, path: CString)
    requires Resolved(s) && AllLiteral(PathsOf(s)) && NamesApart(NameStart(s), PathsOf(s))
    requires |s.localAuthDir| + |STEM| <= MAX_LENGTH && Makes(Started(s), w, step, path)
    ensures Protected(s, path)
  {
    MakesItsOwn(Started(s), w, step, path);
    ChallengeStarts(s.localAuthDir, step.request.user, w.next, step.env.usec / 1000);
  }
}
