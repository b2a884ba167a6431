/** Passing the executor's socket to the server on its command line (Child of
    src/Executor/Child.c, _extractExecutorSockOpt of src/Server/cimserver.cpp). */
module Argv {
  import opened Wrappers
  import opened CStrings
  import opened Decimal

  const OPTION: CString := "--executor-socket"

  /** An argument vector: pointers to strings, ended by a null pointer. */
  predicate Vector(argv: seq<Option<CString>>, args: seq<CString>) {
    && |args| < |argv| && argv[|args|] == None
    && forall i | 0 <= i < |args| :: argv[i] == Some(args[i])
  }

  // ----- Building the vector of the server.

  function Command(program: CString, sock: nat, args: seq<CString>): seq<CString>
    requires args != []
  {
    [program, OPTION, Numeral(sock)] + args[1..]
  }

  lemma NumeralIsText(n: nat)
    ensures NUL !in Numeral(n)
  {}

  method BuildArgv(argv: array<Option<CString>>, argc: nat, program: CString, sock: nat, ghost args: seq<CString>)
    returns (execArgv: array<Option<CString>>)
    requires argc == |args| >= 1 && Vector(argv[..], args)
    ensures fresh(execArgv) && Vector(execArgv[..], Command(program, sock, args))
    ensures execArgv.Length == argc + 3
  {
    execArgv := new Option<CString>[argc + 3](_ => None);
    var k := 0;
    while k < argc
      invariant 0 <= k <= argc
      invariant forall i | 3 <= i < 3 + k :: execArgv[i] == argv[i - 2]
    {
      execArgv[3 + k] := argv[1 + k];
      k := k + 1;
    }
    NumeralIsText(sock);
    var sockStr: CString := Numeral(sock);
    execArgv[0] := Some(program);
    execArgv[1] := Some(OPTION);
    execArgv[2] := Some(sockStr);
    ghost var command := Command(program, sock, args);
    forall i | 0 <= i < |command| ensures execArgv[i] == Some(command[i]) {
      if i >= 3 {
        assert command[i] == args[i - 2] && argv[..][i - 2] == Some(args[i - 2]);
      }
    }
    assert argv[..][argc] == None;
  }

  // ----- Reading a number (strtoul with base ten; unsigned long has 64 bits).

  const ULONG := 0x1_0000_0000_0000_0000

  // The largest signed 32-bit integer.
  const MAX_INT := 2147483647

  predicate IsSpace(c: char) {
    c == ' ' || '\t' <= c <= '\r'
  }

  function SpaceEnd(s: string, i: nat): (j: nat)
    requires i <= |s|
    ensures i <= j <= |s|
    decreases |s| - i
  {
    if i < |s| && IsSpace(s[i]) then SpaceEnd(s, i + 1) else i
  }

  function DigitsEnd(s: string, i: nat): (j: nat)
    requires i <= |s|
    ensures i <= j <= |s| && AllDigits(s[i..j])
    ensures j < |s| ==> !IsDigit(s[j])
    decreases |s| - i
  {
    if i < |s| && IsDigit(s[i]) then
      var j := DigitsEnd(s, i + 1);
      assert s[i..j] == [s[i]] + s[i + 1..j];
      j
    else i
  }

  datatype Read = Read(value: nat, stop: nat)

  /** The value read and the position where reading stopped. */
  function Strtoul(s: string): Read {
    var i := SpaceEnd(s, 0);
    var signed := i < |s| && (s[i] == '+' || s[i] == '-');
    var start := if signed then i + 1 else i;
    var stop := DigitsEnd(s, start);
    if stop == start then Read(0, 0)
    else
      var n := Value(s[start..stop]);
      if n >= ULONG then Read(ULONG - 1, stop)
      else Read(if signed && s[i] == '-' then (ULONG - n) % ULONG else n, stop)
  }

  /** A socket number: all of the text is read, and the value fits. */
  function Socket(s: string): Option<nat> {
    var r := Strtoul(s);
    if r.stop != |s| || r.value > MAX_INT then None else Some(r.value)
  }

  // ----- Which texts are socket numbers.

  predicate AllSpaces(s: string) {
    forall i | 0 <= i < |s| :: IsSpace(s[i])
  }

  /** White space, a sign or none, and digits. */
  predicate Spelled(s: string, spaces: string, sign: string, digits: string) {
    && s == spaces + sign + digits && AllSpaces(spaces) && (sign == "" || sign == "+" || sign == "-")
    && digits != "" && AllDigits(digits)
  }

  /** The number that digits with a sign stand for, if it can be a socket. A number with a minus
      sign is taken off the word size. */
  function Signed(sign: string, digits: string): Option<nat>
    requires AllDigits(digits)
  {
    var n := Value(digits);
    if sign == "-" && n > 0 then (if ULONG - MAX_INT <= n < ULONG then Some(ULONG - n) else None)
    else if n <= MAX_INT then Some(n)
    else None
  }

  lemma {:induction false} SpacesRead(s: string, i: nat, j: nat)
    requires i <= j <= |s| && AllSpaces(s[..j]) && (j < |s| ==> !IsSpace(s[j]))
    ensures SpaceEnd(s, i) == j
    decreases j - i
  {
    if i < j {
      assert IsSpace(s[..j][i]);
      SpacesRead(s, i + 1, j);
    }
  }

  lemma {:induction false} DigitsRead(s: string, i: nat)
    requires i <= |s| && AllDigits(s[i..])
    ensures DigitsEnd(s, i) == |s|
    decreases |s| - i
  {
    if i < |s| {
      assert IsDigit(s[i..][0]);
      assert s[i + 1..] == s[i..][1..];
      DigitsRead(s, i + 1);
    }
  }

  /** A spelled number is a socket exactly if it fits. */
  lemma SpelledSocket(s: string, spaces: string, sign: string, digits: string)
    requires Spelled(s, spaces, sign, digits)
    ensures Socket(s) == Signed(sign, digits)
  {
    var i, start := SpelledParts(s, spaces, sign, digits);
    SpacesRead(s, 0, i);
    DigitsRead(s, start);
  }

  /** Where the parts of a spelled number are. */
  lemma SpelledParts(s: string, spaces: string, sign: string, digits: string) returns (i: nat, start: nat)
    requires Spelled(s, spaces, sign, digits)
    ensures i <= start < |s| && s[..i] == spaces && s[start..] == digits && s[start..|s|] == digits
    ensures start == (if sign == "" then i else i + 1) && (sign != "" ==> s[i] == sign[0]) && IsDigit(s[start])
  {
    i, start := |spaces|, |spaces| + |sign|;
    assert IsDigit(digits[0]) && s[start] == digits[0];
  }

  /** The last of the spaces before a number. */
  lemma {:induction false} SpacesBefore(s: string, i: nat)
    requires i <= |s| && AllSpaces(s[..i])
    ensures AllSpaces(s[..SpaceEnd(s, i)])
    decreases |s| - i
  {
    if i < |s| && IsSpace(s[i]) {
      assert s[..i + 1] == s[..i] + [s[i]];
      SpacesBefore(s, i + 1);
    }
  }

  lemma Rejoined(s: string, i: nat, j: nat)
    requires i <= j <= |s|
    ensures s == s[..i] + s[i..j] + s[j..] && s[j..] == s[j..|s|]
  {
    assert s[..i] + s[i..j] == s[..j];
  }

  lemma SocketIsSpelled(s: string) returns (spaces: string, sign: string, digits: string)
    requires s != "" && Socket(s).Some?
    ensures Spelled(s, spaces, sign, digits)
  {
    var i := SpaceEnd(s, 0);
    var start := if i < |s| && (s[i] == '+' || s[i] == '-') then i + 1 else i;
    assert DigitsEnd(s, start) == |s|;
    SpacesBefore(s, 0);
    Rejoined(s, i, start);
    spaces, sign, digits := s[..i], s[i..start], s[start..];
  }

  /** The texts taken as socket numbers: the empty one, and white space, a sign or none, and
      digits that fit, with nothing after them. */
  lemma SocketExactly(s: string)
    ensures Socket(s).Some? <==>
            s == "" || exists spaces, sign, digits :: Spelled(s, spaces, sign, digits) && Signed(sign, digits).Some?
    ensures forall spaces, sign, digits | Spelled(s, spaces, sign, digits) :: Socket(s) == Signed(sign, digits)
    ensures Socket("") == Some(0)
  {
    if s != "" && Socket(s).Some? {
      var spaces, sign, digits := SocketIsSpelled(s);
      SpelledSocket(s, spaces, sign, digits);
    }
    forall spaces, sign, digits | Spelled(s, spaces, sign, digits) ensures Socket(s) == Signed(sign, digits) {
      SpelledSocket(s, spaces, sign, digits);
    }
  }

  /** A number that was printed is read back. */
  lemma SocketRoundTrip(n: nat)
    requires n <= MAX_INT
    ensures Socket(Numeral(n)) == Some(n)
  {
    SpelledSocket(Numeral(n), "", "", Numeral(n));
    ValueOfNumeral(n);
  }

  // ----- Taking the option out of the vector.

  datatype Outcome = MissingOption | MissingArgument | BadArgument | Took(sock: nat)

  /** The outcome, and the arguments that are left. */
  datatype Extracted = Extracted(outcome: Outcome, args: seq<CString>)

  /** The first position from i on that holds the option, or the end. */
  function FindOption(args: seq<CString>, i: nat): (j: nat)
    requires i <= |args|
    ensures i <= j <= |args|
    ensures forall k | i <= k < j :: args[k] != OPTION
    ensures j < |args| ==> args[j] == OPTION
    decreases |args| - i
  {
    if i == |args| || args[i] == OPTION then i else FindOption(args, i + 1)
  }

  lemma FindsFirst(args: seq<CString>, i: nat, j: nat)
    requires i <= j < |args| && args[j] == OPTION && forall k | i <= k < j :: args[k] != OPTION
    ensures FindOption(args, i) == j
  {
    var first := FindOption(args, i);
    if first < j {
      assert false;
    }
  }

  function Extract(args: seq<CString>): Extracted
    requires args != []
  {
    var i := FindOption(args, 1);
    if i == |args| then Extracted(MissingOption, args)
    else if i + 1 == |args| then Extracted(MissingArgument, args)
    else if Socket(args[i + 1]).None? then Extracted(BadArgument, args)
    else Extracted(Took(Socket(args[i + 1]).value), args[..i] + args[i + 2..])
  }

  /** Close the gap of two pointers at i; the null pointer at the end moves as well. */
  method RemoveTwo(argv: array<Option<CString>>, argc: nat, i: nat, ghost args: seq<CString>)
    requires i + 2 <= argc == |args| && Vector(argv[..], args)
    modifies argv
    ensures Vector(argv[..], args[..i] + args[i + 2..])
  {
    ghost var was := argv[..];
    var k := i;
    while k + 2 <= argc
      invariant i <= k <= argc - 1
      invariant forall m | 0 <= m < i :: argv[m] == was[m]
      invariant forall m | i <= m < k :: argv[m] == was[m + 2]
      invariant forall m | k <= m < argv.Length :: argv[m] == was[m]
    {
      argv[k] := argv[k + 2];
      k := k + 1;
    }
    ghost var left := args[..i] + args[i + 2..];
    forall m | 0 <= m < |left| ensures argv[m] == Some(left[m]) {
      assert left[m] == if m < i then args[m] else args[m + 2];
    }
  }

  method ExtractExecutorSockOpt(argv: array<Option<CString>>, argc: nat, ghost args: seq<CString>)
    returns (outcome: Outcome, newArgc: nat)
    requires argc == |args| >= 1 && Vector(argv[..], args)
    modifies argv
    ensures outcome == Extract(args).outcome
    ensures newArgc == |Extract(args).args| && Vector(argv[..], Extract(args).args)
  {
    var i := 1;
    newArgc := argc;
    while i < argc
      invariant 1 <= i <= argc && argv[..] == old(argv[..])
      invariant FindOption(args, 1) == FindOption(args, i)
    {
      assert argv[..][i] == Some(args[i]);
      if argv[i] == Some(OPTION) {
        if i + 1 == argc {
          return MissingArgument, argc;
        }
        assert argv[..][i + 1] == Some(args[i + 1]);
        var x := Strtoul(argv[i + 1].value);
        if x.stop != |argv[i + 1].value| || x.value > MAX_INT {
          return BadArgument, argc;
        }
        RemoveTwo(argv, argc, i, args);
        return Took(x.value), argc - 2;
      }
      i := i + 1;
    }
    return MissingOption, argc;
  }

  /** Without the option nothing is taken. */
  lemma MissingExactly(args: seq<CString>)
    requires args != []
    ensures Extract(args).outcome == MissingOption <==> OPTION !in args[1..]
    ensures OPTION !in args[1..] ==> Extract(args).args == args
  {
    var i := FindOption(args, 1);
    if i < |args| {
      assert args[1..][i - 1] == OPTION;
    }
  }

  /** The option counts where it stands first, wherever that is: it needs an argument, which must
      be a socket number, and the two are taken out from between what is before and after them. */
  lemma ExtractExactly(before: seq<CString>, after: seq<CString>)
    requires before != [] && OPTION !in before[1..]
    ensures var args := before + [OPTION] + after;
            Extract(args) ==
            if after == [] then Extracted(MissingArgument, args)
            else if Socket(after[0]).None? then Extracted(BadArgument, args)
            else Extracted(Took(Socket(after[0]).value), before + after[1..])
  {
    var args, i := before + [OPTION] + after, |before|;
    forall k | 1 <= k < i ensures args[k] != OPTION {
      assert args[k] == before[1..][k - 1];
    }
    FindsFirst(args, 1, i);
    if after != [] {
      assert args[i + 1] == after[0] && args[..i] == before && args[i + 2..] == after[1..];
    }
  }

  /** Whatever the arguments are, the server takes back the socket and finds its arguments as the
      executor had them, after the name of the program. */
  lemma CommandRoundTrip(program: CString, sock: nat, args: seq<CString>)
    requires args != [] && sock <= MAX_INT
    ensures Extract(Command(program, sock, args)) ==
            Extracted(Took(sock), [program] + args[1..])
  {
    var command := Command(program, sock, args);
    assert command[1] == OPTION && FindOption(command, 1) == 1;
    SocketRoundTrip(sock);
    assert command[..1] == [program] && command[3..] == args[1..];
  }
}
