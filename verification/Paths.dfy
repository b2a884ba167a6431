/** The directory part of a path (DirName of src/Executor/Path.c). */
module Paths {
  import opened CStrings

  // ----- The dirname utility (chapter 4, Utilities, of the Shell and Utilities volume of POSIX.1-2017).

  const SLASH := '/'

  predicate AllSlashes(s: string) {
    forall i | 0 <= i < |s| :: s[i] == SLASH
  }

  function StripSlashes(s: string): (t: string)
    ensures t <= s && (t != "" ==> t[|t| - 1] != SLASH)
  {
    if s != "" && s[|s| - 1] == SLASH then StripSlashes(s[..|s| - 1]) else s
  }

  /** The string without what follows its last slash. */
  function StripName(s: string): (t: string)
    ensures t <= s
  {
    if s != "" && s[|s| - 1] != SLASH then StripName(s[..|s| - 1]) else s
  }

  /** The last steps of the utility: the name goes, then the slashes before it. */
  function DropName(s: string): string {
    if SLASH !in s then "."
    else
      var dir := StripSlashes(StripName(s));
      if dir == "" then "/" else dir
  }

  /** The steps of the utility; two leading slashes are not treated in a way of their own. */
  function DirNameOf(s: string): string {
    if s == "" then "."
    else if AllSlashes(s) then "/"
    else DropName(StripSlashes(s))
  }

  // ----- What the program does.

  /** Trailing slashes go, but never the first character. */
  function KeepFirst(s: string): (t: string)
    ensures t <= s && (s != "" ==> t != "")
  {
    if |s| > 1 && s[|s| - 1] == SLASH then KeepFirst(s[..|s| - 1]) else s
  }

  /** The position of the last slash, or -1. */
  function LastSlash(s: string): (p: int)
    ensures -1 <= p < |s|
    ensures p >= 0 ==> s[p] == SLASH
    ensures forall k | p < k < |s| :: s[k] != SLASH
  {
    if s == "" then -1 else if s[|s| - 1] == SLASH then |s| - 1 else LastSlash(s[..|s| - 1])
  }

  /** The buffer holds the string. */
  ghost predicate Holds(buffer: array<char>, s: CString)
    reads buffer
  {
    |s| < buffer.Length && buffer[..|s|] == s && buffer[|s|] == NUL
  }

  lemma HeldText(buffer: array<char>, s: CString)
    requires Holds(buffer, s)
    ensures Text(buffer[..]) == s
  {
    TextIs(buffer[..], |s|);
    assert buffer[..][..|s|] == s;
  }

  lemma TextHeld(buffer: array<char>, s: CString)
    requires Text(buffer[..]) == s && |s| < buffer.Length
    ensures Holds(buffer, s)
  {}

  method StrRChr(buffer: array<char>, ghost s: CString) returns (p: int)
    requires Holds(buffer, s)
    ensures p == LastSlash(s)
  {
    p := -1;
    var i := 0;
    while buffer[i] != NUL
      invariant 0 <= i <= |s|
      invariant p == LastSlash(s[..i])
      decreases |s| - i
    {
      assert s[..i + 1][..i] == s[..i];
      if buffer[i] == SLASH {
        p := i;
      }
      i := i + 1;
    }
    assert s[..i] == s;
  }

  /** Overwrite slashes from position p backwards, but not the first character. */
  method EraseSlashes(buffer: array<char>, p: int, ghost s: CString)
    requires 0 <= p < |s| && Holds(buffer, s) && s[p] == SLASH
    requires p == 0 ==> |s| == 1
    modifies buffer
    ensures Holds(buffer, KeepFirst(s[..p + 1]))
  {
    var q := p;
    while q != 0 && buffer[q] == SLASH
      invariant 0 <= q <= p
      invariant buffer[..q + 1] == s[..q + 1]
      invariant q < p ==> buffer[q + 1] == NUL
      invariant q == p ==> Holds(buffer, s)
      invariant KeepFirst(s[..p + 1]) == KeepFirst(s[..q + 1])
    {
      assert s[..q + 1][..q] == s[..q];
      buffer[q] := NUL;
      q := q - 1;
    }
    assert KeepFirst(s[..q + 1]) == s[..q + 1];
  }

  function Component(s: string): string {
    if LastSlash(s) < 0 then "." else KeepFirst(s[..LastSlash(s) + 1])
  }

  function Directory(s: string): string {
    if LastSlash(s) < 0 then "."
    else Component(if s[|s| - 1] == SLASH then KeepFirst(s) else s)
  }

  method PutDot(buffer: array<char>)
    requires buffer.Length == BUFFER_SIZE
    modifies buffer
    ensures Text(buffer[..]) == "."
  {
    var _ := Strlcpy(buffer, ".", BUFFER_SIZE);
  }

  method RemoveComponent(buffer: array<char>, ghost s: CString)
    requires buffer.Length == BUFFER_SIZE && Holds(buffer, s)
    modifies buffer
    ensures Text(buffer[..]) == Component(s)
  {
    var p := StrRChr(buffer, s);
    if p >= 0 {
      ghost var held := s;
      if p == 0 {
        buffer[1] := NUL;
        held := s[..1];
        assert held[..1] == held;
      }
      EraseSlashes(buffer, p, held);
      HeldText(buffer, KeepFirst(held[..p + 1]));
    } else {
      PutDot(buffer);
    }
  }

  /** Erase the slashes a path ends in, but not its first character. */
  method RemoveTrailing(buffer: array<char>, p: int, ghost s: CString)
    requires Holds(buffer, s) && 0 <= p == |s| - 1 && s[p] == SLASH
    modifies buffer
    ensures Holds(buffer, KeepFirst(s))
  {
    assert s[..p + 1] == s;
    EraseSlashes(buffer, p, s);
  }

  method RemoveLast(buffer: array<char>, p: int, ghost s: CString)
    requires buffer.Length == BUFFER_SIZE && Holds(buffer, s) && p == LastSlash(s) >= 0
    modifies buffer
    ensures Text(buffer[..]) == Directory(s)
  {
    if buffer[p + 1] == NUL {
      assert p + 1 == |s|;
      RemoveTrailing(buffer, p, s);
      RemoveComponent(buffer, KeepFirst(s));
    } else {
      assert p + 1 < |s|;
      RemoveComponent(buffer, s);
    }
  }

  method DirName(path1: CString, path2: array<char>)
    requires path2.Length == BUFFER_SIZE
    modifies path2
    ensures Text(path2[..]) == DirNameOf(Cut(path1, MAX_LENGTH))
  {
    var _ := Strlcpy(path2, path1, BUFFER_SIZE);
    ghost var s: CString := Cut(path1, MAX_LENGTH);
    TextHeld(path2, s);
    DirectoryIsDirName(s);
    var p := StrRChr(path2, s);
    if path2[0] == NUL || p < 0 {
      PutDot(path2);
    } else {
      RemoveLast(path2, p, s);
    }
  }

  // ----- The program does what the utility does.

  lemma {:induction false} KeepFirstIsStrip(s: string)
    requires s != ""
    ensures KeepFirst(s) == if AllSlashes(s) then "/" else StripSlashes(s)
  {
    if |s| == 1 {
      assert s[..0] == "" && s == [s[0]];
    } else if s[|s| - 1] == SLASH {
      KeepFirstIsStrip(s[..|s| - 1]);
    }
  }

  lemma {:induction false} StripNameIsCut(s: string)
    ensures StripName(s) == s[..LastSlash(s) + 1]
  {
    if s != "" && s[|s| - 1] != SLASH {
      StripNameIsCut(s[..|s| - 1]);
    }
  }

  lemma {:induction false} StripsToNothing(s: string)
    ensures StripSlashes(s) == "" <==> AllSlashes(s)
  {
    if s != "" && s[|s| - 1] == SLASH {
      StripsToNothing(s[..|s| - 1]);
    }
  }

  lemma ComponentIsDropName(s: string)
    ensures Component(s) == DropName(s)
  {
    if LastSlash(s) >= 0 {
      StripNameIsCut(s);
      KeepFirstIsStrip(StripName(s));
      StripsToNothing(StripName(s));
    }
  }

  lemma DirectoryIsDirName(s: string)
    ensures Directory(s) == DirNameOf(s)
  {
    if LastSlash(s) >= 0 {
      var trimmed := if s[|s| - 1] == SLASH then KeepFirst(s) else s;
      KeepFirstIsStrip(s);
      ComponentIsDropName(trimmed);
      RootStays();
    }
  }

  lemma RootStays()
    ensures DropName("/") == "/"
  {
    assert "/"[..0] == "";
  }

  // ----- Going up.

  predicate Absolute(s: string) {
    s != "" && s[0] == SLASH
  }

  /** The result ends in a slash only if it is the root, and is absolute exactly when the path is. */
  lemma DirNameEnds(s: string)
    ensures DirNameOf(s) != "" && (DirNameOf(s)[|DirNameOf(s)| - 1] == SLASH ==> DirNameOf(s) == "/")
    ensures Absolute(DirNameOf(s)) <==> Absolute(s)
  {
    if s != "" && !AllSlashes(s) {
      var trimmed := StripSlashes(s);
      StripsToNothing(s);
      if SLASH in trimmed {
        StripNameIsCut(trimmed);
        StripsToNothing(StripName(trimmed));
        assert LastSlash(trimmed) >= 0;
      }
    }
  }

  predicate Top(s: string) {
    s == "/" || s == "."
  }

  /** One step up shortens the path, or arrives. */
  lemma DirNameShortens(s: string)
    ensures Top(DirNameOf(s)) || |DirNameOf(s)| < |s|
  {
    if s != "" && !AllSlashes(s) {
      var trimmed := StripSlashes(s);
      StripsToNothing(s);
      StripNameIsCut(trimmed);
    }
  }

  lemma TopStays(s: string)
    requires Top(s)
    ensures DirNameOf(s) == s
  {
    if s == "." {
      assert StripSlashes(s) == ".";
    }
  }

  function Climb(s: string, steps: nat): string
    decreases steps
  {
    if steps == 0 then s else Climb(DirNameOf(s), steps - 1)
  }

  lemma {:induction false} TopStaysForever(s: string, steps: nat)
    requires Top(s)
    ensures Climb(s, steps) == s
  {
    if steps > 0 {
      TopStays(s);
      TopStaysForever(s, steps - 1);
    }
  }

  /** Going up ends, after no more steps than the path has characters and one: at the root for
      an absolute path, at the current directory for any other. */
  lemma {:induction false} ClimbArrives(s: string, steps: nat)
    requires steps > |s|
    ensures Climb(s, steps) == if Absolute(s) then "/" else "."
    decreases |s|
  {
    DirNameShortens(s);
    DirNameEnds(s);
    var dir := DirNameOf(s);
    if Top(dir) {
      TopStaysForever(dir, steps - 1);
    } else {
      ClimbArrives(dir, steps - 1);
    }
  }
}
