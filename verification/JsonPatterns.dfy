/** What the regular expressions of parse match (www/js/json2.js). */
module JsonPatterns {
  import opened Wrappers
  import opened JsonText
  import opened JsonParser
  import opened JsonFilter
  import opened JsonQuoting

  // ----- Classes of characters.

  // The characters that stage one escapes.
  const MISHANDLED: seq<(Unit, Unit)> := [
    (0, 0), (0xad, 0xad), (0x600, 0x604), (0x70f, 0x70f), (0x17b4, 0x17b5),
    (0x200c, 0x200f), (0x2028, 0x202f), (0x2060, 0x206f), (0xfeff, 0xfeff), (0xfff0, 0xffff)]

  // White space and ends of lines (sections 7.2 and 7.3 of ECMA-262, edition 5.1).
  const SPACES: seq<(Unit, Unit)> := [
    (9, 13), (0x20, 0x20), (0xa0, 0xa0), (0x1680, 0x1680), (0x180e, 0x180e), (0x2000, 0x200a),
    (0x2028, 0x2029), (0x202f, 0x202f), (0x205f, 0x205f), (0x3000, 0x3000), (0xfeff, 0xfeff)]

  const HEX: seq<(Unit, Unit)> := [(48, 57), (65, 70), (97, 102)]

  lemma MishandledExactly(c: Unit)
    ensures Mishandled(c) <==> InSome(c, MISHANDLED)
  {
    assert |MISHANDLED| == 10;
    if Mishandled(c) {
      var i :=
        if c == 0 then 0 else if c <= 0xad then 1 else if c <= 0x604 then 2 else if c <= 0x70f then 3
        else if c <= 0x17b5 then 4 else if c <= 0x200f then 5 else if c <= 0x202f then 6
        else if c <= 0x206f then 7 else if c <= 0xfeff then 8 else 9;
      assert InRange(c, MISHANDLED, i);
    }
  }

  lemma SpaceExactly(c: Unit)
    ensures IsSpace(c) <==> InSome(c, SPACES)
  {
    assert |SPACES| == 11;
    if IsSpace(c) {
      var i :=
        if c <= 13 then 0 else if c == 0x20 then 1 else if c == 0xa0 then 2 else if c == 0x1680 then 3
        else if c == 0x180e then 4 else if c <= 0x200a then 5 else if c <= 0x2029 then 6
        else if c == 0x202f then 7 else if c == 0x205f then 8 else if c == 0x3000 then 9 else 10;
      assert InRange(c, SPACES, i);
    }
  }

  lemma HexExactly(c: Unit)
    ensures IsHex(c) <==> InSome(c, HEX)
  {
    assert |HEX| == 3;
    if IsHex(c) {
      assert InRange(c, HEX, if c <= 57 then 0 else if c <= 70 then 1 else 2);
    }
  }

  // ----- Stage one.

  lemma {:induction false} EscapedIsHandled(t: Text)
    ensures Handled(EscapeMishandled(t))
  {
    if t != [] {
      if Mishandled(t[0]) {
        Hex4(t[0]);
        HexHandled(t[0], 4);
      }
      EscapedIsHandled(t[1..]);
    }
  }

  /** Stage one leaves none of the characters that it escapes, and a text without them as it is:
      a second time it changes nothing. */
  lemma StageOneClears(t: Text)
    ensures forall c | c in StageOne(t) :: !InSome(c, MISHANDLED)
    ensures (forall c | c in t :: !InSome(c, MISHANDLED)) ==> StageOne(t) == t
    ensures StageOne(StageOne(t)) == StageOne(t)
  {
    EscapedIsHandled(t);
    assert Handled(StageOne(t));
    forall c | c in StageOne(t) ensures !InSome(c, MISHANDLED) {
      MishandledExactly(c);
    }
    forall i | 0 <= i < |t| && Mishandled(t[i]) ensures InSome(t[i], MISHANDLED) {
      MishandledExactly(t[i]);
    }
  }

  // ----- Escape sequences.

  const ESCAPED: string := "\"\\/bfnrt"

  predicate IsOneOf(c: Unit, s: string) {
    exists i | 0 <= i < |s| :: c == s[i] as int
  }

  /** A backslash and one of the letters, or a backslash, a u and four hexadecimal digits. */
  predicate EscapeAt(t: Text, i: nat, j: nat) {
    && i + 1 < |t| && t[i] == CodeOf('\\')
    && (|| (j == i + 2 && IsOneOf(t[i + 1], ESCAPED))
        || (j == i + 6 <= |t| && t[i + 1] == CodeOf('u') && forall k | i + 2 <= k < j :: InSome(t[k], HEX)))
  }

  lemma EscapedExactly(c: Unit)
    ensures Unescape(c).Some? <==> IsOneOf(c, ESCAPED)
  {
    assert |ESCAPED| == 8;
    if Unescape(c).Some? {
      var i :=
        if c == 34 then 0 else if c == 92 then 1 else if c == 47 then 2 else if c == 98 then 3
        else if c == 102 then 4 else if c == 110 then 5 else if c == 114 then 6 else 7;
      assert c == ESCAPED[i] as int;
    }
  }

  /** An escape sequence is hidden exactly if it has one of the two forms. */
  lemma EscapeExactly(t: Text, i: nat, j: nat)
    requires i < |t|
    ensures EscapeAt(t, i, j) <==> EscapeLength(t, i) > 0 && j == i + EscapeLength(t, i)
  {
    if i + 1 < |t| {
      EscapedExactly(t[i + 1]);
    }
    forall k | 0 <= k < |t| ensures IsHex(t[k]) <==> InSome(t[k], HEX) {
      HexExactly(t[k]);
    }
  }

  // ----- Simple tokens.

  /** Nothing between quotation marks but characters other than these, the backslash and the ends
      of lines. */
  predicate StringPiece(t: Text, i: nat, j: nat) {
    && i + 2 <= j <= |t| && t[i] == QUOTE && t[j - 1] == QUOTE
    && forall k | i < k < j - 1 :: t[k] != QUOTE && t[k] != BACKSLASH && t[k] != NEWLINE && t[k] != RETURN
  }

  predicate WordPiece(t: Text, i: nat, j: nat) {
    i <= j <= |t| && (IsText(t[i..j], "true") || IsText(t[i..j], "false") || IsText(t[i..j], "null"))
  }

  predicate IsText(t: Text, s: string) {
    |t| == |s| && forall i | 0 <= i < |s| :: t[i] == s[i] as int
  }

  predicate Digits(t: Text, i: nat, j: nat) {
    i <= j <= |t| && forall k | i <= k < j :: IsDigit(t[k])
  }

  /** An e, a sign or none, and digits. */
  predicate ExponentPiece(t: Text, i: nat, j: nat) {
    && i + 1 < j <= |t| && (t[i] == LOWER_E || t[i] == UPPER_E)
    && var d := if t[i + 1] == PLUS || t[i + 1] == MINUS then i + 2 else i + 1;
       d < j && Digits(t, d, j)
  }

  /** A minus sign or none, digits from a to b, a point with or without digits or nothing up to f,
      and an exponent or nothing. */
  predicate NumberPiece(t: Text, i: nat, a: nat, b: nat, f: nat, j: nat) {
    && i <= a < b <= f <= j <= |t|
    && (a == i || (a == i + 1 && t[i] == MINUS)) && Digits(t, a, b)
    && (f == b || (t[b] == DOT && Digits(t, b + 1, f)))
    && (j == f || ExponentPiece(t, f, j))
  }

  ghost predicate SimplePiece(t: Text, i: nat, j: nat) {
    StringPiece(t, i, j) || WordPiece(t, i, j) || exists a, b, f :: NumberPiece(t, i, a, b, f, j)
  }

  lemma NullSpelled(u: Text)
    ensures IsText(u, "null") <==> u == WordText(NullWord)
  {
    assert IsText(WordText(NullWord), "null");
  }

  lemma TrueSpelled(u: Text)
    ensures IsText(u, "true") <==> u == WordText(TrueWord)
  {
    assert IsText(WordText(TrueWord), "true");
  }

  lemma FalseSpelled(u: Text)
    ensures IsText(u, "false") <==> u == WordText(FalseWord)
  {
    assert IsText(WordText(FalseWord), "false");
  }

  lemma WordIs(t: Text, i: nat, j: nat)
    ensures WordPiece(t, i, j) <==>
            i <= j <= |t| &&
            (t[i..j] == WordText(TrueWord) || t[i..j] == WordText(FalseWord) || t[i..j] == WordText(NullWord))
  {
    if i <= j <= |t| {
      NullSpelled(t[i..j]);
      TrueSpelled(t[i..j]);
      FalseSpelled(t[i..j]);
    }
  }

  lemma WordStarts(t: Text, i: nat, j: nat, w: Word)
    requires i <= j <= |t| && t[i..j] == WordText(w)
    ensures StartsWord(t, i, w) && j == i + |WordText(w)| && t[i] == WordText(w)[0]
  {}

  lemma WordFound(t: Text, i: nat, j: nat)
    requires i < |t|
    ensures WordPiece(t, i, j) <==> WordAt(t, i).Found? && WordAt(t, i).next == j
  {
    WordIs(t, i, j);
    if WordPiece(t, i, j) {
      var w :| t[i..j] == WordText(w);
      WordStarts(t, i, j, w);
      if WordAt(t, i).value != w {
        WordStarts(t, i, WordAt(t, i).next, WordAt(t, i).value);
      }
    }
  }

  lemma {:induction false} PlainEndIs(t: Text, i: nat, j: nat)
    requires i <= j <= |t| && (j < |t| ==> t[j] == QUOTE || t[j] == BACKSLASH || t[j] == NEWLINE || t[j] == RETURN)
    requires forall k | i <= k < j :: t[k] != QUOTE && t[k] != BACKSLASH && t[k] != NEWLINE && t[k] != RETURN
    ensures PlainEnd(t, i) == j
    decreases j - i
  {
    if i < j {
      PlainEndIs(t, i + 1, j);
    }
  }

  lemma {:induction false} PlainEndStops(t: Text, i: nat)
    requires i <= |t|
    ensures var j := PlainEnd(t, i);
            && (j < |t| ==> t[j] == QUOTE || t[j] == BACKSLASH || t[j] == NEWLINE || t[j] == RETURN)
            && forall k | i <= k < j :: t[k] != QUOTE && t[k] != BACKSLASH && t[k] != NEWLINE && t[k] != RETURN
    decreases |t| - i
  {
    if PlainEnd(t, i) > i {
      PlainEndStops(t, i + 1);
    }
  }

  lemma StringFound(t: Text, i: nat, j: nat)
    requires i < |t| && t[i] == QUOTE
    ensures StringPiece(t, i, j) <==> SimpleEnd(t, i) > i && SimpleEnd(t, i) == j
  {
    PlainEndStops(t, i + 1);
    if StringPiece(t, i, j) {
      PlainEndIs(t, i + 1, j - 1);
    }
  }

  // Numbers: the match is one, and no other match is longer.

  lemma DigitsFarthest(t: Text, i: nat, j: nat)
    requires Digits(t, i, j)
    ensures j <= DigitsEnd(t, i) && Digits(t, i, DigitsEnd(t, i))
  {}

  lemma ExponentFarthest(t: Text, i: nat, j: nat)
    requires ExponentPiece(t, i, j)
    ensures j <= ExponentEnd(t, i) && ExponentPiece(t, i, ExponentEnd(t, i))
  {
    var d := if t[i + 1] == PLUS || t[i + 1] == MINUS then i + 2 else i + 1;
    DigitsFarthest(t, d, j);
  }

  lemma ExponentFound(t: Text, i: nat)
    requires i <= |t|
    ensures ExponentEnd(t, i) == i || ExponentPiece(t, i, ExponentEnd(t, i))
  {}

  lemma FractionFarthest(t: Text, b: nat, f: nat)
    requires b <= f <= |t| && (f == b || (t[b] == DOT && Digits(t, b + 1, f)))
    ensures f <= FractionEnd(t, b)
    ensures f < FractionEnd(t, b) ==> t[f] == DOT || IsDigit(t[f])
  {
    if f > b {
      DigitsFarthest(t, b + 1, f);
    }
  }

  /** Where the number at position i starts its digits. */
  function Start(t: Text, i: nat): nat
    requires i < |t|
  {
    if t[i] == MINUS then i + 1 else i
  }

  /** Where the number at position i ends. */
  function NumberEnd(t: Text, i: nat): (j: nat)
    requires i < |t|
    ensures i <= j <= |t|
  {
    var b := DigitsEnd(t, Start(t, i));
    if b == Start(t, i) then i else ExponentEnd(t, FractionEnd(t, b))
  }

  lemma NumberFarthest(t: Text, i: nat, a: nat, b: nat, f: nat, j: nat)
    requires NumberPiece(t, i, a, b, f, j)
    ensures i < j <= NumberEnd(t, i)
  {
    assert IsDigit(t[a]) && a == Start(t, i);
    DigitsFarthest(t, a, b);
    var last := DigitsEnd(t, a);
    if b == last {
      FractionFarthest(t, b, f);
      if f == FractionEnd(t, b) && j > f {
        ExponentFarthest(t, f, j);
      }
    } else {
      assert IsDigit(t[b]);
    }
  }

  lemma NumberFound(t: Text, i: nat)
    requires i < |t| && NumberEnd(t, i) > i
    ensures var a, b := Start(t, i), DigitsEnd(t, Start(t, i));
            NumberPiece(t, i, a, b, FractionEnd(t, b), NumberEnd(t, i))
  {
    var b := DigitsEnd(t, Start(t, i));
    ExponentFound(t, FractionEnd(t, b));
  }

  lemma PieceStarts(t: Text, i: nat, j: nat)
    requires i < |t|
    ensures WordPiece(t, i, j) ==> t[i] == 110 || t[i] == 116 || t[i] == 102
    ensures forall a, b, f | NumberPiece(t, i, a, b, f, j) :: t[i] == MINUS || IsDigit(t[i])
  {
    if WordPiece(t, i, j) {
      assert t[i..j][0] == t[i];
    }
  }

  lemma SimpleEndIs(t: Text, i: nat)
    requires i < |t| && t[i] != QUOTE
    ensures SimpleEnd(t, i) == if WordAt(t, i).Found? then WordAt(t, i).next else NumberEnd(t, i)
  {}

  /** What is taken for a simple token is one, and no longer one starts there. */
  lemma SimpleExactly(t: Text, i: nat)
    requires i < |t|
    ensures SimpleEnd(t, i) > i ==> SimplePiece(t, i, SimpleEnd(t, i))
    ensures forall j: nat | SimplePiece(t, i, j) :: i < j <= SimpleEnd(t, i)
  {
    if t[i] == QUOTE {
      StringFound(t, i, SimpleEnd(t, i));
    } else {
      SimpleEndIs(t, i);
      WordFound(t, i, SimpleEnd(t, i));
      if WordAt(t, i).Failed? && NumberEnd(t, i) > i {
        NumberFound(t, i);
      }
    }
    forall j: nat | SimplePiece(t, i, j) ensures i < j <= SimpleEnd(t, i) {
      NoneLonger(t, i, j);
    }
  }

  lemma NoneLonger(t: Text, i: nat, j: nat)
    requires i < |t| && SimplePiece(t, i, j)
    ensures i < j <= SimpleEnd(t, i)
  {
    PieceStarts(t, i, j);
    if StringPiece(t, i, j) {
      StringFound(t, i, j);
    } else {
      SimpleEndIs(t, i);
      if WordPiece(t, i, j) {
        WordFound(t, i, j);
      } else {
        var a, b, f :| NumberPiece(t, i, a, b, f, j);
        NumberFarthest(t, i, a, b, f, j);
        if WordAt(t, i).Found? {
          WordFound(t, i, WordAt(t, i).next);
          PieceStarts(t, i, WordAt(t, i).next);
        }
      }
    }
  }

  // ----- Runs of opening brackets.

  /** White space and opening brackets, the last of them a bracket, or nothing. */
  predicate OpensPiece(t: Text, i: nat, j: nat) {
    && i <= j <= |t| && (j > i ==> t[j - 1] == LBRACKET)
    && forall k | i <= k < j :: IsSpace(t[k]) || t[k] == LBRACKET
  }

  lemma {:induction false} SpacesUpTo(t: Text, i: nat)
    requires i <= |t|
    ensures forall k | i <= k < SpaceEnd(t, i) :: IsSpace(t[k])
    decreases |t| - i
  {
    if i < |t| && IsSpace(t[i]) {
      SpacesUpTo(t, i + 1);
    }
  }

  lemma {:induction false} OpensFound(t: Text, i: nat)
    requires i <= |t|
    ensures OpensPiece(t, i, OpensEnd(t, i))
    decreases |t| - i
  {
    var k := SpaceEnd(t, i);
    if k < |t| && t[k] == LBRACKET {
      SpacesUpTo(t, i);
      OpensFound(t, k + 1);
    }
  }

  lemma {:induction false} OpensFarthest(t: Text, i: nat, j: nat)
    requires OpensPiece(t, i, j)
    ensures j <= OpensEnd(t, i)
    decreases j - i
  {
    if i < j {
      var k := SpaceEnd(t, i);
      SpacesUpTo(t, i);
      assert !IsSpace(t[j - 1]);
      OpensFarthest(t, k + 1, j);
    }
  }

  /** The brackets deleted after a mark are the longest run of them. */
  lemma OpensExactly(t: Text, i: nat)
    requires i <= |t|
    ensures OpensPiece(t, i, OpensEnd(t, i))
    ensures forall j: nat | OpensPiece(t, i, j) :: j <= OpensEnd(t, i)
  {
    OpensFound(t, i);
    forall j: nat | OpensPiece(t, i, j) ensures j <= OpensEnd(t, i) {
      OpensFarthest(t, i, j);
    }
  }
}
