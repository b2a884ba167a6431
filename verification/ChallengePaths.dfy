/** Names of local authentication files (BuildLocalAuthFilePath of src/Executor/LocalAuth.c). */
module ChallengePaths {
  import opened CStrings
  import opened Decimal

  // The sequence number is a 32-bit unsigned integer.
  const WRAP := 0x1_0000_0000

  const STEM: CString := "/cimclient_"

  /** The end of a name: the sequence number and the milliseconds. */
  function Ending(seqNo: nat, ms: nat): (s: CString) {
    "_" + (Numeral(seqNo) + ("_" + Numeral(ms)))
  }

  function FullPath(dir: CString, user: CString, seqNo: nat, ms: nat): CString {
    dir + STEM + user + Ending(seqNo, ms)
  }

  /** The name as the buffer holds it. */
  function ChallengePath(dir: CString, user: CString, seqNo: nat, ms: nat): CString {
    Cut(FullPath(dir, user, seqNo, ms), MAX_LENGTH)
  }

  class Sequence {
    var next: nat

    constructor ()
      ensures next == 1
    {
      next := 1;
    }

    method BuildLocalAuthFilePath(dir: CString, user: CString, usec: nat, path: array<char>)
      requires next < WRAP && path.Length == BUFFER_SIZE
      modifies this, path
      ensures next == (old(next) + 1) % WRAP
      ensures Text(path[..]) == ChallengePath(dir, user, old(next), usec / 1000)
    {
      var number := next;
      next := (next + 1) % WRAP;
      var ending := Ending(number, usec / 1000);
      var _ := Strlcpy(path, dir, BUFFER_SIZE);
      Append(path, STEM, dir);
      Append(path, user, dir + STEM);
      Append(path, ending, dir + STEM + user);
    }
  }

  // ----- Different challenges, different names.

  lemma MarkIsLast(s: string, a: string, b: string, k: nat, mark: char)
    requires s == a + ([mark] + b) && mark !in b && k < |s| && s[k] == mark
    ensures k <= |a|
  {}

  /** A text is cut in one way only before a part that does not hold the separator. */
  lemma LastPart(a: string, b: string, c: string, d: string, mark: char)
    requires a + ([mark] + b) == c + ([mark] + d) && mark !in b && mark !in d
    ensures a == c && b == d
  {
    var s := a + ([mark] + b);
    MarkIsLast(s, a, b, |c|, mark);
    MarkIsLast(s, c, d, |a|, mark);
    assert a == s[..|a|] && c == s[..|c|];
    assert b == s[|a| + 1..] && d == s[|c| + 1..];
  }

  lemma DigitsHoldNoMark(s: string)
    requires AllDigits(s)
    ensures '_' !in s
  {}

  lemma EndingSplits(head: string, seqNo: nat, ms: nat)
    ensures head + Ending(seqNo, ms) == (head + ("_" + Numeral(seqNo))) + ("_" + Numeral(ms))
  {}

  /** A name that was not cut tells the user, the sequence number and the time apart, whatever
      underscores and digits the user's name holds. */
  lemma PathsTellApart(dir: CString, user1: CString, seq1: nat, ms1: nat, user2: CString, seq2: nat, ms2: nat)
    requires |FullPath(dir, user1, seq1, ms1)| <= MAX_LENGTH && |FullPath(dir, user2, seq2, ms2)| <= MAX_LENGTH
    requires ChallengePath(dir, user1, seq1, ms1) == ChallengePath(dir, user2, seq2, ms2)
    ensures user1 == user2 && seq1 == seq2 && ms1 == ms2
  {
    var head1, head2 := dir + STEM + user1, dir + STEM + user2;
    EndingSplits(head1, seq1, ms1);
    EndingSplits(head2, seq2, ms2);
    DigitsHoldNoMark(Numeral(ms1));
    DigitsHoldNoMark(Numeral(ms2));
    LastPart(head1 + ("_" + Numeral(seq1)), Numeral(ms1), head2 + ("_" + Numeral(seq2)), Numeral(ms2), '_');
    DigitsHoldNoMark(Numeral(seq1));
    DigitsHoldNoMark(Numeral(seq2));
    LastPart(head1, Numeral(seq1), head2, Numeral(seq2), '_');
    NumeralsDiffer(ms1, ms2);
    NumeralsDiffer(seq1, seq2);
    assert user1 == head1[|dir + STEM|..] && user2 == head2[|dir + STEM|..];
  }

  // ----- How long a user's name may be.

  /** Room for an underscore and the ten digits of the largest sequence number. */
  predicate Roomy(dir: CString, user: CString) {
    |dir| + |STEM| + |user| + 11 <= MAX_LENGTH
  }

  ghost predicate NeverShared(dir: CString, user: CString) {
    forall seq1, ms1, seq2, ms2 | 0 <= seq1 < WRAP && 0 <= seq2 < WRAP && 0 <= ms1 < 1000 && 0 <= ms2 < 1000 ::
      ChallengePath(dir, user, seq1, ms1) == ChallengePath(dir, user, seq2, ms2) ==> seq1 == seq2
  }

  /** The digits a text starts with. */
  function LeadingDigits(s: string): string {
    if s == "" || !IsDigit(s[0]) then "" else [s[0]] + LeadingDigits(s[1..])
  }

  lemma {:induction false} LeadingIs(digits: string, rest: string)
    requires AllDigits(digits) && (rest == "" || !IsDigit(rest[0]))
    ensures LeadingDigits(digits + rest) == digits
  {
    if digits == "" {
      assert digits + rest == rest;
    } else {
      assert (digits + rest)[1..] == digits[1..] + rest;
      LeadingIs(digits[1..], rest);
    }
  }

  lemma SequenceFits(n: nat)
    requires n < WRAP
    ensures |Numeral(n)| <= 10
  {
    assert Power10(10) == 10 * Power10(9) == 100 * Power10(8) == 1000 * Power10(7);
    assert Power10(7) == 10 * Power10(6) == 100 * Power10(5) == 1000 * Power10(4);
    assert Power10(4) == 10 * Power10(3) == 100 * Power10(2) == 1000 * Power10(1) == 10000;
    NumeralLength(n, 10);
  }

  lemma CutPrefix(s: string, t: string)
    requires |s| <= MAX_LENGTH
    ensures s <= Cut(s + t, MAX_LENGTH)
    ensures |Cut(s + t, MAX_LENGTH)| > |s| ==> t != "" && Cut(s + t, MAX_LENGTH)[|s|] == t[0]
  {}

  lemma CutAfterNumber(head: string, seqNo: nat, ms: nat) returns (path: string)
    requires |head| + 1 + |Numeral(seqNo)| <= MAX_LENGTH
    ensures path == Cut(head + Ending(seqNo, ms), MAX_LENGTH) && head + ("_" + Numeral(seqNo)) <= path
    ensures var k := |head| + 1 + |Numeral(seqNo)|; |path| > k ==> path[k] == '_'
  {
    EndingSplits(head, seqNo, ms);
    CutPrefix(head + ("_" + Numeral(seqNo)), "_" + Numeral(ms));
    path := Cut(head + Ending(seqNo, ms), MAX_LENGTH);
  }

  /** The sequence number can be read off a name that has room for it. */
  lemma NumberReadable(dir: CString, user: CString, seqNo: nat, ms: nat)
    requires Roomy(dir, user) && seqNo < WRAP
    ensures var head := dir + STEM + user; var path := ChallengePath(dir, user, seqNo, ms);
            && |path| > |head| && LeadingDigits(path[|head| + 1..]) == Numeral(seqNo)
  {
    var head := dir + STEM + user;
    SequenceFits(seqNo);
    var path := CutAfterNumber(head, seqNo, ms);
    NumberAfter(path, head, Numeral(seqNo));
  }

  lemma NumberAfter(path: string, head: string, digits: string)
    requires AllDigits(digits) && head + ("_" + digits) <= path
    requires |path| > |head| + 1 + |digits| ==> path[|head| + 1 + |digits|] == '_'
    ensures LeadingDigits(path[|head| + 1..]) == digits
  {
    var rest := path[|head| + 1 + |digits|..];
    assert path[..|head| + 1 + |digits|] == head + ("_" + digits);
    assert path[|head| + 1..] == digits + rest;
    LeadingIs(digits, rest);
  }

  lemma LastDigit(head: string, n: nat, d: nat)
    requires n >= 1 && d < 10
    ensures head + Ending(10 * n + d, 0) == (head + ("_" + Numeral(n))) + ([Digit(d)] + "_0")
  {
    ZeroMilliseconds(10 * n + d);
    OneMoreDigit(n, d);
    Regroup(head, "_", Numeral(n), [Digit(d)], "_0");
  }

  lemma OneMoreDigit(n: nat, d: nat)
    requires n >= 1 && d < 10
    ensures Numeral(10 * n + d) == Numeral(n) + [Digit(d)]
  {}

  lemma ZeroMilliseconds(seqNo: nat)
    ensures Ending(seqNo, 0) == "_" + (Numeral(seqNo) + "_0")
  {
    assert Numeral(0) == "0" && "_" + "0" == "_0";
  }

  lemma Regroup(head: string, mark: string, s: string, t: string, rest: string)
    ensures head + (mark + ((s + t) + rest)) == (head + (mark + s)) + (t + rest)
  {}

  /** Two ten-digit numbers that differ in their last digit. */
  lemma LastDigitDiffers(dir: CString, user: CString)
    requires !Roomy(dir, user)
    ensures ChallengePath(dir, user, 1000000000, 0) == ChallengePath(dir, user, 1000000001, 0)
  {
    var head := dir + STEM + user;
    TenDigits();
    var common := head + ("_" + Numeral(100000000));
    LastDigit(head, 100000000, 0);
    LastDigit(head, 100000000, 1);
    CutWithin(common, [Digit(0)] + "_0", FullPath(dir, user, 1000000000, 0));
    CutWithin(common, [Digit(1)] + "_0", FullPath(dir, user, 1000000001, 0));
  }

  lemma TenDigits()
    ensures |Numeral(100000000)| == 9
  {
    assert Power10(9) == 10 * Power10(8) == 100 * Power10(7) == 1000 * Power10(6);
    assert Power10(6) == 10 * Power10(5) == 100 * Power10(4) == 1000 * Power10(3);
    assert Power10(3) == 10 * Power10(2) == 100 * Power10(1) == 1000;
    NumeralLength(100000000, 9);
    NumeralLength(100000000, 8);
  }

  lemma CutWithin(s: string, t: string, whole: string)
    requires |s| >= MAX_LENGTH && whole == s + t
    ensures Cut(whole, MAX_LENGTH) == s[..MAX_LENGTH]
  {}

  /** For one user, no two sequence numbers ever share a name exactly when the buffer has room
      for the longest sequence number. */
  lemma NeverSharedExactlyWhen(dir: CString, user: CString)
    ensures NeverShared(dir, user) <==> Roomy(dir, user)
  {
    if Roomy(dir, user) {
      forall seq1, ms1, seq2, ms2 | 0 <= seq1 < WRAP && 0 <= seq2 < WRAP && 0 <= ms1 < 1000 && 0 <= ms2 < 1000
        && ChallengePath(dir, user, seq1, ms1) == ChallengePath(dir, user, seq2, ms2)
        ensures seq1 == seq2
      {
        NumberReadable(dir, user, seq1, ms1);
        NumberReadable(dir, user, seq2, ms2);
        NumeralsDiffer(seq1, seq2);
      }
    } else {
      LastDigitDiffers(dir, user);
    }
  }

  // ----- Names of different users.

  predicate InRange(seqNo: nat, ms: nat) {
    seqNo < WRAP && ms < 1000
  }

  ghost predicate Shares(dir: CString, user1: CString, user2: CString) {
    exists seq1, ms1, seq2, ms2 | InRange(seq1, ms1) && InRange(seq2, ms2) ::
      ChallengePath(dir, user1, seq1, ms1) == ChallengePath(dir, user2, seq2, ms2)
  }

  /** The start of an underscore, a sequence number, an underscore and milliseconds. */
  predicate StartsEnding(r: string) {
    r != "" && r[0] == '_' &&
    var digits := LeadingDigits(r[1..]);
    if |r| == 1 + |digits| then digits == "" || IsNumeral(digits, WRAP)
    else
      && IsNumeral(digits, WRAP) && |r| > 1 + |digits| && r[1 + |digits|] == '_'
      && (|r| == 2 + |digits| || IsNumeral(r[2 + |digits|..], 1000))
  }

  lemma EndingStarts(r: string, seqNo: nat, ms: nat)
    requires InRange(seqNo, ms) && r != "" && r <= Ending(seqNo, ms)
    ensures StartsEnding(r)
  {
    var number, rest := Numeral(seqNo), Numeral(ms);
    NumeralIsNumeral(seqNo, WRAP);
    NumeralIsNumeral(ms, 1000);
    if |r| <= 1 + |number| {
      var digits := number[..|r| - 1];
      assert r[1..] == digits == digits + "";
      LeadingIs(digits, "");
      if digits != "" {
        PrefixIsNumeral(number, |digits|, WRAP);
      }
    } else {
      var m := |r| - 2 - |number|;
      assert r[1..] == number + ("_" + rest[..m]);
      LeadingIs(number, "_" + rest[..m]);
      assert r[2 + |number|..] == rest[..m];
      if m > 0 {
        PrefixIsNumeral(rest, m, 1000);
      }
    }
  }

  lemma LeadingIsStart(s: string)
    ensures LeadingDigits(s) <= s && AllDigits(LeadingDigits(s))
  {}

  lemma StartOfEnding(r: string) returns (seqNo: nat, ms: nat)
    requires StartsEnding(r)
    ensures InRange(seqNo, ms) && r <= Ending(seqNo, ms)
  {
    var digits := LeadingDigits(r[1..]);
    LeadingIsStart(r[1..]);
    assert r == "_" + r[1..];
    seqNo := StartOfNumber(digits);
    ms := 0;
    if |r| == 1 + |digits| {
      SameStart(r, digits, Numeral(seqNo), "_" + Numeral(ms));
    } else {
      var rest := r[2 + |digits|..];
      assert r[1..] == digits + ("_" + rest);
      ms := StartOfMilliseconds(rest);
      assert Numeral(seqNo) == digits;
      NextStart(r, digits, rest, Numeral(ms));
    }
  }

  lemma SameStart(r: string, digits: string, number: string, rest: string)
    requires r == "_" + digits && digits <= number
    ensures r <= "_" + (number + rest)
  {}

  lemma NextStart(r: string, number: string, rest: string, ms: string)
    requires r == "_" + (number + ("_" + rest)) && rest <= ms
    ensures r <= "_" + (number + ("_" + ms))
  {}

  lemma StartOfNumber(digits: string) returns (seqNo: nat)
    requires digits == "" || IsNumeral(digits, WRAP)
    ensures seqNo < WRAP && digits <= Numeral(seqNo) && (digits != "" ==> digits == Numeral(seqNo))
  {
    seqNo := 0;
    if digits != "" {
      seqNo := Value(digits);
      NumeralOfValue(digits, WRAP);
    }
  }

  lemma StartOfMilliseconds(rest: string) returns (ms: nat)
    requires rest == "" || IsNumeral(rest, 1000)
    ensures ms < 1000 && rest <= Numeral(ms)
  {
    ms := 0;
    if rest != "" {
      ms := Value(rest);
      NumeralOfValue(rest, 1000);
    }
  }

  /** The longer name fills the buffer, and what fits of it is what fits of the other one, or that
      name followed by the start of an ending. */
  predicate Covered(dir: CString, user1: CString, user2: CString) {
    var head1, head2 := dir + STEM + user1, dir + STEM + user2;
    |head2| >= MAX_LENGTH &&
    var cut := Cut(head2, MAX_LENGTH);
    if |head1| >= MAX_LENGTH then Cut(head1, MAX_LENGTH) == cut
    else head1 <= cut && StartsEnding(cut[|head1|..])
  }

  /** The longer name is the shorter one with an underscore and a sequence number, and leaves no
      room for another underscore, three digits of milliseconds and a terminator. */
  predicate Continued(dir: CString, user1: CString, user2: CString) {
    && |dir + STEM + user2| < MAX_LENGTH <= |dir + STEM + user2| + 4
    && user1 <= user2 && |user1| < |user2| && user2[|user1|] == '_' && IsNumeral(user2[|user1| + 1..], WRAP)
  }

  lemma CutThere(head: string, cut: string, ending: string)
    requires |cut| == MAX_LENGTH && head <= cut && cut[|head|..] <= ending
    ensures Cut(head + ending, MAX_LENGTH) == cut
  {}

  lemma CoveredName(dir: CString, user1: CString, user2: CString) returns (seqNo: nat, ms: nat)
    requires Covered(dir, user1, user2)
    ensures InRange(seqNo, ms)
    ensures ChallengePath(dir, user1, seqNo, ms) == Cut(dir + STEM + user2, MAX_LENGTH)
  {
    var head1, cut := dir + STEM + user1, Cut(dir + STEM + user2, MAX_LENGTH);
    seqNo, ms := 0, 0;
    if |head1| >= MAX_LENGTH {
      CutWithin(head1, Ending(0, 0), FullPath(dir, user1, 0, 0));
    } else {
      seqNo, ms := StartOfEnding(cut[|head1|..]);
      CutThere(head1, cut, Ending(seqNo, ms));
    }
  }

  lemma CoveredShares(dir: CString, user1: CString, user2: CString)
    requires Covered(dir, user1, user2)
    ensures Shares(dir, user1, user2)
  {
    var seqNo, ms := CoveredName(dir, user1, user2);
    CutWithin(dir + STEM + user2, Ending(0, 0), FullPath(dir, user2, 0, 0));
    assert ChallengePath(dir, user1, seqNo, ms) == ChallengePath(dir, user2, 0, 0) && InRange(0, 0);
  }

  lemma Hundred()
    ensures Numeral(100) == "100" && Numeral(0) == "0"
  {
    assert Numeral(10) == "10";
  }

  lemma ContinuedShares(dir: CString, user1: CString, user2: CString)
    requires Continued(dir, user1, user2)
    ensures Shares(dir, user1, user2)
  {
    var digits := user2[|user1| + 1..];
    var seqNo := Value(digits);
    NumeralOfValue(digits, WRAP);
    assert user2 == user1 + ("_" + digits);
    HundredShares(dir, user1, user2, seqNo);
  }

  lemma HundredShares(dir: CString, user1: CString, user2: CString, seqNo: nat)
    requires seqNo < WRAP && user2 == user1 + ("_" + Numeral(seqNo)) && |dir + STEM + user2| + 4 >= MAX_LENGTH
    requires |dir + STEM + user2| < MAX_LENGTH
    ensures Shares(dir, user1, user2)
  {
    var head := dir + STEM + user2;
    Hundred();
    assert FullPath(dir, user1, seqNo, 100) == head + "_100";
    assert FullPath(dir, user2, 100, 0) == (head + "_100") + "_0";
    assert ChallengePath(dir, user1, seqNo, 100) == (head + "_100")[..MAX_LENGTH] == ChallengePath(dir, user2, 100, 0);
    assert InRange(seqNo, 100) && InRange(100, 0);
  }

  lemma SharedIsCovered(dir: CString, user1: CString, seq1: nat, ms1: nat, user2: CString, seq2: nat, ms2: nat)
    requires InRange(seq1, ms1) && |dir + STEM + user2| >= MAX_LENGTH
    requires ChallengePath(dir, user1, seq1, ms1) == ChallengePath(dir, user2, seq2, ms2)
    ensures Covered(dir, user1, user2)
  {
    var head1, cut := dir + STEM + user1, Cut(dir + STEM + user2, MAX_LENGTH);
    CutWithin(dir + STEM + user2, Ending(seq2, ms2), FullPath(dir, user2, seq2, ms2));
    if |head1| >= MAX_LENGTH {
      CutWithin(head1, Ending(seq1, ms1), FullPath(dir, user1, seq1, ms1));
    } else {
      CutPrefix(head1, Ending(seq1, ms1));
      assert cut[|head1|..] <= Ending(seq1, ms1);
      EndingStarts(cut[|head1|..], seq1, ms1);
    }
  }

  /** After a user's name the second underscore comes after the sequence number. */
  lemma SecondMark(head: string, seqNo: nat, ms: nat, k: nat)
    requires |head| < k < |head + Ending(seqNo, ms)| && (head + Ending(seqNo, ms))[k] == '_'
    ensures (head + Ending(seqNo, ms))[..k] == head + ("_" + Numeral(seqNo))
    ensures |head + Ending(seqNo, ms)| == k + 1 + |Numeral(ms)|
  {
    var front := head + ("_" + Numeral(seqNo));
    EndingSplits(head, seqNo, ms);
    DigitsHoldNoMark(Numeral(seqNo));
    DigitsHoldNoMark(Numeral(ms));
    MarkIsLast(head + Ending(seqNo, ms), front, Numeral(ms), k, '_');
    if k < |front| {
      MarkIsLast(front, head, Numeral(seqNo), k, '_');
    }
  }

  lemma MillisecondsFit(ms: nat)
    requires ms < 1000
    ensures |Numeral(ms)| <= 3
  {
    assert Power10(3) == 10 * Power10(2) == 100 * Power10(1) == 1000;
    NumeralLength(ms, 3);
  }

  lemma SharedIsContinued(dir: CString, user1: CString, seq1: nat, ms1: nat, user2: CString, seq2: nat, ms2: nat)
    requires InRange(seq1, ms1) && InRange(seq2, ms2) && user1 != user2 && |user1| <= |user2|
    requires |dir + STEM + user2| < MAX_LENGTH
    requires ChallengePath(dir, user1, seq1, ms1) == ChallengePath(dir, user2, seq2, ms2)
    ensures Continued(dir, user1, user2)
  {
    var head1, head2 := dir + STEM + user1, dir + STEM + user2;
    var full1, path := FullPath(dir, user1, seq1, ms1), ChallengePath(dir, user1, seq1, ms1);
    CutPrefix(head1, Ending(seq1, ms1));
    CutPrefix(head2, Ending(seq2, ms2));
    assert path[..|head1|] == head1 && path[..|head2|] == head2;
    assert user1 == head1[|dir + STEM|..] && user2 == head2[|dir + STEM|..];
    assert path[|head2|] == '_' == full1[|head2|];
    SecondMark(head1, seq1, ms1, |head2|);
    assert user2 == head2[|dir + STEM|..] == user1 + ("_" + Numeral(seq1));
    assert user2[|user1| + 1..] == Numeral(seq1);
    NumeralIsNumeral(seq1, WRAP);
    MillisecondsFit(ms1);
    if |full1| < MAX_LENGTH {
      PathsTellApart(dir, user1, seq1, ms1, user2, seq2, ms2);
    }
  }

  /** Two users, the shorter name first, ever share the name of a challenge exactly in two cases
      that need names as long as the buffer. */
  lemma SharedExactlyWhen(dir: CString, user1: CString, user2: CString)
    requires user1 != user2 && |user1| <= |user2|
    ensures Shares(dir, user1, user2) <==> Covered(dir, user1, user2) || Continued(dir, user1, user2)
  {
    if Covered(dir, user1, user2) {
      CoveredShares(dir, user1, user2);
    } else if Continued(dir, user1, user2) {
      ContinuedShares(dir, user1, user2);
    } else if Shares(dir, user1, user2) {
      var seq1, ms1, seq2, ms2 :| InRange(seq1, ms1) && InRange(seq2, ms2)
        && ChallengePath(dir, user1, seq1, ms1) == ChallengePath(dir, user2, seq2, ms2);
      if |dir + STEM + user2| >= MAX_LENGTH {
        SharedIsCovered(dir, user1, seq1, ms1, user2, seq2, ms2);
      } else {
        SharedIsContinued(dir, user1, seq1, ms1, user2, seq2, ms2);
      }
    }
  }
}
