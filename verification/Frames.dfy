/** Requests and replies as bytes (src/Executor/Messages.h; the client's side is in
    src/Pegasus/Common/Executor.cpp). */
module Frames {
  import opened Wrappers
  import opened CStrings
  import opened Tokens
  import opened Messages
  import opened ExecutorWorld

  // ----- Words, the least significant byte first.

  function WordBytes(n: nat, k: nat): (b: seq<Byte>)
    ensures |b| == k
  {
    if k == 0 then [] else [n % 256] + WordBytes(n / 256, k - 1)
  }

  function WordAt(b: seq<Byte>, i: nat, k: nat): nat
    requires i + k <= |b|
    decreases k
  {
    if k == 0 then 0 else b[i] + 256 * WordAt(b, i + 1, k - 1)
  }

  function Power256(k: nat): nat {
    if k == 0 then 1 else 256 * Power256(k - 1)
  }

  lemma {:induction false} WordRoundTrip(n: nat, k: nat, b: seq<Byte>, i: nat)
    requires n < Power256(k) && i + k <= |b| && b[i..i + k] == WordBytes(n, k)
    ensures WordAt(b, i, k) == n
    decreases k
  {
    if k > 0 {
      assert b[i] == b[i..i + k][0];
      assert b[i + 1..i + k] == b[i..i + k][1..];
      WordRoundTrip(n / 256, k - 1, b, i + 1);
    }
  }

  // A 32-bit word.
  const WORD := 0x1_0000_0000

  function IntBytes(n: int): (b: seq<Byte>)
    ensures |b| == 4
  {
    WordBytes(n % WORD, 4)
  }

  /** A 32-bit word read as a signed integer. */
  function IntAt(b: seq<Byte>, i: nat): int
    requires i + 4 <= |b|
  {
    var n := WordAt(b, i, 4);
    if n < WORD / 2 then n else n - WORD
  }

  lemma IntRoundTrip(n: int, b: seq<Byte>, i: nat)
    requires -WORD / 2 <= n < WORD / 2 && i + 4 <= |b| && b[i..i + 4] == IntBytes(n)
    ensures IntAt(b, i) == n
  {
    SmallWord();
    WordRoundTrip(n % WORD, 4, b, i);
  }

  // ----- Text fields: a string in a buffer filled up with nulls.

  function CharsOf(b: seq<Byte>): (s: string)
    ensures |s| == |b| && forall i | 0 <= i < |b| :: s[i] == b[i] as char
  {
    seq(|b|, i requires 0 <= i < |b| => b[i] as char)
  }

  /** Every character is one byte. */
  predicate ByteString(s: string) {
    forall i | 0 <= i < |s| :: s[i] as int < 256
  }

  function BytesOf(s: string): (b: seq<Byte>)
    ensures |b| == |s| && forall i | 0 <= i < |s| :: b[i] == s[i] as int % 256
  {
    seq(|s|, i requires 0 <= i < |s| => s[i] as int % 256)
  }

  function Padding(k: nat): (b: seq<Byte>)
    ensures |b| == k && forall i | 0 <= i < k :: b[i] == 0
  {
    seq(k, _ => 0)
  }

  function PutField(s: CString): (b: seq<Byte>)
    ensures |b| == BUFFER_SIZE
  {
    BytesOf(Cut(s, MAX_LENGTH)) + Padding(BUFFER_SIZE - |Cut(s, MAX_LENGTH)|)
  }

  function Field(body: seq<Byte>, i: nat): CString
    requires i + BUFFER_SIZE <= |body|
  {
    Text(CharsOf(body[i..i + BUFFER_SIZE]))
  }

  /** A field is read back as it was put, cut to what a buffer holds. */
  lemma FieldRoundTrip(s: CString, body: seq<Byte>, i: nat)
    requires ByteString(s) && i + BUFFER_SIZE <= |body| && body[i..i + BUFFER_SIZE] == PutField(s)
    ensures Field(body, i) == Cut(s, MAX_LENGTH)
  {
    var held, chars := Cut(s, MAX_LENGTH), CharsOf(PutField(s));
    forall k | 0 <= k < |held| ensures chars[k] == held[k] {
      assert PutField(s)[k] == BytesOf(held)[k];
    }
    assert chars[|held|] == NUL;
    TextIs(chars, |held|);
    assert chars[..|held|] == held;
  }

  // ----- Frames: a code and a body whose size the code fixes.

  datatype Frame = Frame(code: nat, body: seq<Byte>)

  function BodySize(code: nat): Option<nat> {
    if code == PING || code == DAEMONIZE_EXECUTOR then Some(0)
    else if code == OPEN_FILE then Some(BUFFER_SIZE + 4)
    else if code == START_PROVIDER_AGENT then Some(2 + 2 * BUFFER_SIZE)
    else if code == RENAME_FILE || code == AUTHENTICATE_LOCAL then Some(2 * BUFFER_SIZE)
    else if code == AUTHENTICATE_PASSWORD then Some(2 * BUFFER_SIZE + 1)
    else if code == REMOVE_FILE || code == VALIDATE_USER || code == CHALLENGE_LOCAL || code == UPDATE_LOG_LEVEL
    then Some(BUFFER_SIZE)
    else None
  }

  predicate ProperFrame(f: Frame) {
    BodySize(f.code) == Some(|f.body|)
  }

  function FrameBytes(f: Frame): seq<Byte> {
    WordBytes(f.code, 4) + f.body
  }

  /** The executor's reading of a frame. */
  function DecodeRequest(f: Frame): Request
    requires ProperFrame(f)
  {
    if f.code == PING then Ping
    else if f.code == OPEN_FILE then OpenFile(Field(f.body, 0), f.body[BUFFER_SIZE] as char)
    else if f.code == START_PROVIDER_AGENT then
      StartProviderAgent(WordAt(f.body, 0, 2), Field(f.body, 2), Field(f.body, 2 + BUFFER_SIZE))
    else if f.code == DAEMONIZE_EXECUTOR then DaemonizeExecutor
    else if f.code == REMOVE_FILE then RemoveFile(Field(f.body, 0))
    else if f.code == RENAME_FILE then RenameFile(Field(f.body, 0), Field(f.body, BUFFER_SIZE))
    else if f.code == AUTHENTICATE_PASSWORD then
      AuthenticatePassword(Field(f.body, 0), Field(f.body, BUFFER_SIZE), f.body[2 * BUFFER_SIZE] != 0)
    else if f.code == VALIDATE_USER then ValidateUser(Field(f.body, 0))
    else if f.code == CHALLENGE_LOCAL then ChallengeLocal(Field(f.body, 0))
    else if f.code == AUTHENTICATE_LOCAL then AuthenticateLocal(Field(f.body, 0), Field(f.body, BUFFER_SIZE))
    else UpdateLogLevel(Field(f.body, 0))
  }

  /** Strings of bytes, a mode of one byte and a bitness of two. */
  predicate Sendable(r: Request) {
    match r
    case OpenFile(path, mode) => ByteString(path) && mode as int < 256
    case StartProviderAgent(bitness, mod, user) => bitness < 0x1_0000 && ByteString(mod) && ByteString(user)
    case RemoveFile(path) => ByteString(path)
    case RenameFile(oldPath, newPath) => ByteString(oldPath) && ByteString(newPath)
    case AuthenticatePassword(user, password, _) => ByteString(user) && ByteString(password)
    case ValidateUser(user) => ByteString(user)
    case ChallengeLocal(user) => ByteString(user)
    case AuthenticateLocal(challenge, response) => ByteString(challenge) && ByteString(response)
    case UpdateLogLevel(level) => ByteString(level)
    case _ => true
  }

  /** The client's writing of a request. */
  function EncodeRequest(r: Request): (f: Frame)
    ensures ProperFrame(f)
  {
    match r
    case Ping => Frame(PING, [])
    case OpenFile(path, mode) => Frame(OPEN_FILE, PutField(path) + WordBytes(mode as int, 4))
    case StartProviderAgent(bitness, mod, user) =>
      Frame(START_PROVIDER_AGENT, WordBytes(bitness, 2) + (PutField(mod) + PutField(user)))
    case DaemonizeExecutor => Frame(DAEMONIZE_EXECUTOR, [])
    case RemoveFile(path) => Frame(REMOVE_FILE, PutField(path))
    case RenameFile(oldPath, newPath) => Frame(RENAME_FILE, PutField(oldPath) + PutField(newPath))
    case AuthenticatePassword(user, password, remote) =>
      Frame(AUTHENTICATE_PASSWORD, PutField(user) + (PutField(password) + [if remote then 1 else 0]))
    case ValidateUser(user) => Frame(VALIDATE_USER, PutField(user))
    case ChallengeLocal(user) => Frame(CHALLENGE_LOCAL, PutField(user))
    case AuthenticateLocal(challenge, response) =>
      Frame(AUTHENTICATE_LOCAL, PutField(challenge) + PutField(response))
    case UpdateLogLevel(level) => Frame(UPDATE_LOG_LEVEL, PutField(level))
  }

  function Kept(s: CString): CString {
    Cut(s, MAX_LENGTH)
  }

  /** The request with every string cut to what a buffer holds. */
  function Shortened(r: Request): Request {
    match r
    case OpenFile(path, mode) => OpenFile(Kept(path), mode)
    case StartProviderAgent(bitness, mod, user) => StartProviderAgent(bitness, Kept(mod), Kept(user))
    case RemoveFile(path) => RemoveFile(Kept(path))
    case RenameFile(oldPath, newPath) => RenameFile(Kept(oldPath), Kept(newPath))
    case AuthenticatePassword(user, password, remote) => AuthenticatePassword(Kept(user), Kept(password), remote)
    case ValidateUser(user) => ValidateUser(Kept(user))
    case ChallengeLocal(user) => ChallengeLocal(Kept(user))
    case AuthenticateLocal(challenge, response) => AuthenticateLocal(Kept(challenge), Kept(response))
    case UpdateLogLevel(level) => UpdateLogLevel(Kept(level))
    case _ => r
  }

  lemma OneField(s: CString)
    requires ByteString(s)
    ensures Field(PutField(s), 0) == Kept(s)
  {
    FieldRoundTrip(s, PutField(s), 0);
  }

  lemma TwoFields(s: CString, t: CString, before: seq<Byte>, after: seq<Byte>)
    requires ByteString(s) && ByteString(t)
    ensures var body := before + (PutField(s) + (PutField(t) + after));
            Field(body, |before|) == Kept(s) && Field(body, |before| + BUFFER_SIZE) == Kept(t)
  {
    var body := before + (PutField(s) + (PutField(t) + after));
    var i := |before|;
    assert body[i..i + BUFFER_SIZE] == PutField(s);
    assert body[i + BUFFER_SIZE..i + BUFFER_SIZE + BUFFER_SIZE] == PutField(t);
    FieldRoundTrip(s, body, i);
    FieldRoundTrip(t, body, i + BUFFER_SIZE);
  }

  lemma OpenRoundTrip(path: CString, mode: char)
    requires ByteString(path) && mode as int < 256
    ensures DecodeRequest(EncodeRequest(OpenFile(path, mode))) == OpenFile(Kept(path), mode)
  {
    var body := PutField(path) + WordBytes(mode as int, 4);
    assert body[0..BUFFER_SIZE] == PutField(path);
    FieldRoundTrip(path, body, 0);
    assert body[BUFFER_SIZE] == WordBytes(mode as int, 4)[0] == mode as int;
  }

  lemma AgentRoundTrip(bitness: nat, mod: CString, user: CString)
    requires bitness < 0x1_0000 && ByteString(mod) && ByteString(user)
    ensures DecodeRequest(EncodeRequest(StartProviderAgent(bitness, mod, user))) ==
            StartProviderAgent(bitness, Kept(mod), Kept(user))
  {
    var body := WordBytes(bitness, 2) + (PutField(mod) + PutField(user));
    assert body == WordBytes(bitness, 2) + (PutField(mod) + (PutField(user) + []));
    TwoFields(mod, user, WordBytes(bitness, 2), []);
    assert body[0..2] == WordBytes(bitness, 2);
    assert Power256(2) == 256 * Power256(1) == 0x1_0000;
    WordRoundTrip(bitness, 2, body, 0);
  }

  lemma PairOfFields(s: CString, t: CString)
    requires ByteString(s) && ByteString(t)
    ensures var body := PutField(s) + PutField(t); Field(body, 0) == Kept(s) && Field(body, BUFFER_SIZE) == Kept(t)
  {
    TwoFields(s, t, [], []);
    assert PutField(s) + PutField(t) == [] + (PutField(s) + (PutField(t) + []));
  }

  lemma PairRoundTrip(r: Request)
    requires Sendable(r) && (r.RenameFile? || r.AuthenticateLocal?)
    ensures DecodeRequest(EncodeRequest(r)) == Shortened(r)
  {
    match r
    case RenameFile(oldPath, newPath) => PairOfFields(oldPath, newPath);
    case AuthenticateLocal(challenge, response) => PairOfFields(challenge, response);
  }

  lemma SingleRoundTrip(r: Request)
    requires Sendable(r) && (r.RemoveFile? || r.ValidateUser? || r.ChallengeLocal? || r.UpdateLogLevel?)
    ensures DecodeRequest(EncodeRequest(r)) == Shortened(r)
  {
    match r
    case RemoveFile(path) => OneField(path);
    case ValidateUser(user) => OneField(user);
    case ChallengeLocal(user) => OneField(user);
    case UpdateLogLevel(level) => OneField(level);
  }

  lemma PasswordFields(user: CString, password: CString, flag: Byte)
    requires ByteString(user) && ByteString(password)
    ensures var body := PutField(user) + (PutField(password) + [flag]);
            && Field(body, 0) == Kept(user) && Field(body, BUFFER_SIZE) == Kept(password)
            && body[2 * BUFFER_SIZE] == flag
  {
    TwoFields(user, password, [], [flag]);
    var body := PutField(user) + (PutField(password) + [flag]);
    assert body == [] + body;
  }

  lemma PasswordRoundTrip(user: CString, password: CString, remote: bool)
    requires ByteString(user) && ByteString(password)
    ensures DecodeRequest(EncodeRequest(AuthenticatePassword(user, password, remote))) ==
            AuthenticatePassword(Kept(user), Kept(password), remote)
  {
    PasswordFields(user, password, if remote then 1 else 0);
  }

  /** The executor reads the request that the client wrote, its strings cut to the buffers. */
  lemma RequestRoundTrip(r: Request)
    requires Sendable(r)
    ensures DecodeRequest(EncodeRequest(r)) == Shortened(r)
  {
    match r
    case Ping =>
    case DaemonizeExecutor =>
    case OpenFile(path, mode) => OpenRoundTrip(path, mode);
    case StartProviderAgent(bitness, mod, user) => AgentRoundTrip(bitness, mod, user);
    case AuthenticatePassword(user, password, remote) => PasswordRoundTrip(user, password, remote);
    case RenameFile(_, _) => PairRoundTrip(r);
    case AuthenticateLocal(_, _) => PairRoundTrip(r);
    case _ => SingleRoundTrip(r);
  }

  // ----- Replies.

  // EXECUTOR_PING_MAGIC.
  const MAGIC := 0x9E5EACB6

  /** The response to a request. */
  function ReplyBytes(r: Reply): seq<Byte> {
    match r
    case Pong => WordBytes(MAGIC, 4)
    case Status(status) => IntBytes(status)
    case FileOpened(_) => IntBytes(0)
    case AgentStatus(status, pid) => IntBytes(status) + IntBytes(pid)
    case Challenge(status, path) => IntBytes(status) + PutField(path)
  }

  predicate Fits(n: int) {
    -WORD / 2 <= n < WORD / 2
  }

  /** The client reads the status, the process and the name of the challenge that the executor
      wrote. */
  lemma ReplyRoundTrip(r: Reply)
    ensures r.Pong? ==> |ReplyBytes(r)| == 4 && WordAt(ReplyBytes(r), 0, 4) == MAGIC
    ensures r.FileOpened? ==> |ReplyBytes(r)| == 4 && IntAt(ReplyBytes(r), 0) == 0
    ensures r.Status? && Fits(r.status) ==> |ReplyBytes(r)| == 4 && IntAt(ReplyBytes(r), 0) == r.status
    ensures r.AgentStatus? && Fits(r.status) && Fits(r.pid) ==>
              |ReplyBytes(r)| == 8 && IntAt(ReplyBytes(r), 0) == r.status && IntAt(ReplyBytes(r), 4) == r.pid
    ensures r.Challenge? && Fits(r.status) && ByteString(r.path) ==>
              && |ReplyBytes(r)| == 4 + BUFFER_SIZE
              && IntAt(ReplyBytes(r), 0) == r.status && Field(ReplyBytes(r), 4) == Kept(r.path)
  {
    var b := ReplyBytes(r);
    match r
    case Pong =>
      SmallWord();
      assert b[0..4] == WordBytes(MAGIC, 4);
      WordRoundTrip(MAGIC, 4, b, 0);
    case FileOpened(_) => StatusRead(b, 0, []);
    case Status(status) =>
      if Fits(status) {
        StatusRead(b, status, []);
      }
    case AgentStatus(status, pid) =>
      if Fits(status) && Fits(pid) {
        StatusRead(b, status, IntBytes(pid));
        assert b[4..8] == IntBytes(pid);
        IntRoundTrip(pid, b, 4);
      }
    case Challenge(status, path) =>
      if Fits(status) && ByteString(path) {
        StatusRead(b, status, PutField(path));
        assert b[4..4 + BUFFER_SIZE] == PutField(path);
        FieldRoundTrip(path, b, 4);
      }
  }

  lemma SmallWord()
    ensures Power256(4) == WORD
  {
    assert Power256(4) == 256 * Power256(3) == 0x1_0000 * Power256(2) == 0x100_0000 * Power256(1);
  }

  lemma StatusRead(b: seq<Byte>, status: int, rest: seq<Byte>)
    requires b == IntBytes(status) + rest && Fits(status)
    ensures IntAt(b, 0) == status
  {
    assert b[0..4] == IntBytes(status);
    IntRoundTrip(status, b, 0);
  }

  /** Descriptors follow an opened file and a started agent. */
  predicate PassesDescriptors(r: Reply) {
    r.FileOpened? || (r.AgentStatus? && r.status == 0)
  }
}
