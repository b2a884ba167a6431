/** Null-terminated strings in fixed buffers (src/Executor/Strlcpy.h, src/Executor/Strlcat.h). */
module CStrings {

  const NUL: char := '\0'

  // EXECUTOR_BUFFER_SIZE of src/Executor/Defines.h, and the longest string it can hold.
  const BUFFER_SIZE := 4096
  const MAX_LENGTH := BUFFER_SIZE - 1

  /** The text of a C string, without its terminator. */
  type CString = s: string | NUL !in s

  /** The position of the first null from i on, or of the end of the buffer. */
  function Terminator(buffer: string, i: nat): (n: nat)
    requires i <= |buffer|
    ensures i <= n <= |buffer|
    ensures forall k | i <= k < n :: buffer[k] != NUL
    ensures n < |buffer| ==> buffer[n] == NUL
    decreases |buffer| - i
  {
    if i == |buffer| || buffer[i] == NUL then i else Terminator(buffer, i + 1)
  }

  /** The string held by a buffer: everything before the first null, or the whole buffer. */
  function Text(buffer: string): CString {
    buffer[..Terminator(buffer, 0)]
  }

  lemma TextIs(buffer: string, n: nat)
    requires n < |buffer| && buffer[n] == NUL
    requires forall k | 0 <= k < n :: buffer[k] != NUL
    ensures Text(buffer) == buffer[..n]
  {
    assert Terminator(buffer, 0) == n;
  }

  /** What is left of a string that may be no longer than n. */
  function Cut(s: string, n: nat): string {
    if |s| <= n then s else s[..n]
  }

  /** Bounded appends compose: cutting after every append or once at the end is the same. */
  lemma {:induction false} CutAppend(s: string, t: string, n: nat)
    ensures Cut(Cut(s, n) + t, n) == Cut(s + t, n)
  {
    if |s| > n {
      assert (s[..n] + t)[..n] == s[..n] == (s + t)[..n];
    }
  }

  method Strlcpy(dest: array<char>, src: CString, size: nat) returns (length: nat)
    requires size <= dest.Length
    modifies dest
    ensures length == |src|
    ensures size > 0 ==> Text(dest[..]) == Cut(src, size - 1)
    ensures forall k | 0 <= k < dest.Length && (size == 0 || k > |Cut(src, size - 1)|) :: dest[k] == old(dest[k])
  {
    var i := 0;
    while i < |src| && i + 1 < size
      invariant 0 <= i <= |src| && (i > 0 ==> i < size)
      invariant dest[..i] == src[..i]
      invariant forall k | i <= k < dest.Length :: dest[k] == old(dest[k])
    {
      dest[i] := src[i];
      i := i + 1;
    }
    if size > 0 {
      dest[i] := NUL;
      assert dest[..][..i] == src[..i] == Cut(src, size - 1);
      TextIs(dest[..], i);
    }
    while i < |src|
      invariant i <= |src|
    {
      i := i + 1;
    }
    return i;
  }

  method Strlcat(dest: array<char>, src: CString, size: nat) returns (length: nat)
    requires size <= dest.Length
    modifies dest
    ensures length == |Text(old(dest[..size]))| + |src|
    ensures |Text(old(dest[..size]))| == size ==> dest[..] == old(dest[..])
    ensures |Text(old(dest[..size]))| < size ==>
              && Text(dest[..]) == Cut(Text(old(dest[..size])) + src, size - 1)
              && (forall k | |Text(dest[..])| < k < dest.Length :: dest[k] == old(dest[k]))
  {
    ghost var held := Text(dest[..size]);
    var i := 0;
    while i < size && dest[i] != NUL
      invariant 0 <= i <= |held|
    {
      i := i + 1;
    }
    if i == size {
      return size + |src|;
    }
    var j := 0;
    while j < |src| && i + 1 < size
      invariant 0 <= j <= |src| && i == |held| + j < size
      invariant dest[..i] == held + src[..j]
      invariant forall k | i <= k < dest.Length :: dest[k] == old(dest[k])
    {
      dest[i] := src[j];
      i, j := i + 1, j + 1;
    }
    dest[i] := NUL;
    assert dest[..][..i] == held + src[..j] == Cut(held + src, size - 1);
    TextIs(dest[..], i);
    while j < |src|
      invariant j <= |src| && i == |held| + j
    {
      i, j := i + 1, j + 1;
    }
    return i;
  }

  /** Append to a buffer that holds all that fits of the text done so far. */
  method Append(dest: array<char>, text: CString, ghost done: string)
    requires dest.Length == BUFFER_SIZE && Text(dest[..]) == Cut(done, MAX_LENGTH)
    modifies dest
    ensures Text(dest[..]) == Cut(done + text, MAX_LENGTH)
  {
    assert dest[..BUFFER_SIZE] == dest[..];
    var _ := Strlcat(dest, text, BUFFER_SIZE);
    CutAppend(done, text, MAX_LENGTH);
  }
}
