/** What the text filter of parse keeps out (www/js/json2.js). */
module JsonFilterRejects {
  import opened JsonText
  import opened JsonParser
  import opened JsonFilter

  /** Whether position k is inside a string literal, if position i is as given: a quotation mark
      starts a literal and ends it, unless a backslash is before it. */
  predicate InString(t: Text, i: nat, k: nat, quoted: bool)
    requires i <= |t|
    decreases |t| - i
  {
    if i >= k || i == |t| then quoted
    else if quoted && t[i] == BACKSLASH && i + 1 < |t| then InString(t, i + 2, k, true)
    else InString(t, i + 1, k, (t[i] == QUOTE) != quoted)
  }

  /** A character of a number or of one of the three words. */
  predicate IsSimple(c: Unit) {
    || IsDigit(c) || c == MINUS || c == PLUS || c == DOT || c == LOWER_E || c == UPPER_E
    || c in {97, 102, 108, 110, 114, 115, 116, 117}
  }

  /** A character that a JSON text may hold outside strings, or that starts a string. */
  predicate Tame(c: Unit) {
    c == QUOTE || IsPunct(c) || IsSpace(c) || IsSimple(c)
  }

  // ----- The third replacement deletes marks and white space only.

  predicate OnlyShape(t: Text) {
    forall i | 0 <= i < |t| :: IsPunct(t[i]) || IsSpace(t[i])
  }

  lemma {:induction false} SpacesOnly(t: Text, i: nat)
    requires i <= |t|
    ensures forall k | i <= k < SpaceEnd(t, i) :: IsSpace(t[k])
    decreases |t| - i
  {
    if i < |t| && IsSpace(t[i]) {
      SpacesOnly(t, i + 1);
    }
  }

  lemma {:induction false} OpensOnly(t: Text, i: nat, k: nat)
    requires i <= |t| && i <= k < OpensEnd(t, i)
    ensures IsPunct(t[k]) || IsSpace(t[k])
    decreases |t| - i
  {
    var j := SpaceEnd(t, i);
    SpacesOnly(t, i);
    if k > j {
      OpensOnly(t, j + 1, k);
    }
  }

  lemma DeletedOnly(t: Text, i: nat, k: nat)
    requires i < |t| && i <= k < DeletedEnd(t, i)
    ensures IsPunct(t[k]) || IsSpace(t[k])
  {
    if i == 0 && OpensEnd(t, 0) > 0 {
      OpensOnly(t, 0, k);
    } else if k > i {
      OpensOnly(t, i + 1, k);
    }
  }

  lemma {:induction false} ShapeBefore(t: Text, i: nat, k: nat)
    requires i <= k < |t| && Harmless(DeleteOpens(t, i))
    ensures IsPunct(t[k]) || IsSpace(t[k])
    decreases |t| - i
  {
    var e := DeletedEnd(t, i);
    if e > i {
      if k < e {
        DeletedOnly(t, i, k);
      } else {
        ShapeBefore(t, e, k);
      }
    } else {
      var rest := DeleteOpens(t, i + 1);
      assert DeleteOpens(t, i) == [t[i]] + rest;
      assert Harmless(rest) by {
        assert forall x | 0 <= x < |rest| :: rest[x] == DeleteOpens(t, i)[x + 1];
      }
      assert DeleteOpens(t, i)[0] == t[i];
      if k > i {
        ShapeBefore(t, i + 1, k);
      }
    }
  }

  // ----- The second replacement shrinks strings, numbers and words.

  lemma WordIsSimple(t: Text, i: nat, k: nat)
    requires i <= |t| && WordAt(t, i).Found? && i <= k < WordAt(t, i).next
    ensures IsSimple(t[k])
  {
    SpanAt(t, i, WordAt(t, i).next, WordText(WordAt(t, i).value), k - i);
  }

  lemma ExponentIsSimple(t: Text, i: nat, k: nat)
    requires i <= |t| && i <= k < ExponentEnd(t, i)
    ensures IsSimple(t[k])
  {}

  lemma SimpleTokenIsSimple(t: Text, i: nat, k: nat)
    requires i < |t| && t[i] != QUOTE && i <= k < SimpleEnd(t, i)
    ensures IsSimple(t[k])
  {
    if WordAt(t, i).Found? {
      WordIsSimple(t, i, k);
    } else {
      var b := DigitsEnd(t, if t[i] == MINUS then i + 1 else i);
      var e := FractionEnd(t, b);
      if k >= e {
        ExponentIsSimple(t, e, k);
      }
    }
  }

  lemma AllSimple(t: Text, i: nat)
    requires i < |t| && t[i] != QUOTE
    ensures forall k | i <= k < SimpleEnd(t, i) :: IsSimple(t[k])
  {
    forall k | i <= k < SimpleEnd(t, i) ensures IsSimple(t[k]) {
      SimpleTokenIsSimple(t, i, k);
    }
  }

  /** A character that stays is a mark or white space; after it, or after a token that shrinks,
      the same holds of the rest. */
  lemma ShapeStep(h: Text, k: nat)
    requires k < |h| && OnlyShape(HideSimple(h, k))
    ensures var e := SimpleEnd(h, k);
            if e > k then OnlyShape(HideSimple(h, e))
            else (IsPunct(h[k]) || IsSpace(h[k])) && OnlyShape(HideSimple(h, k + 1))
  {
    var e := SimpleEnd(h, k);
    var c, rest := if e > k then RBRACKET else h[k], HideSimple(h, if e > k then e else k + 1);
    assert HideSimple(h, k) == [c] + rest;
    assert HideSimple(h, k)[0] == c;
    forall x | 0 <= x < |rest| ensures IsPunct(rest[x]) || IsSpace(rest[x]) {
      assert rest[x] == HideSimple(h, k)[x + 1];
    }
  }

  // ----- The first replacement shrinks escape sequences.

  lemma HideStep(t: Text, i: nat, h: Text, k: nat)
    requires Hides(t, i, h, k)
    ensures i == |t| <==> k == |h|
    ensures i < |t| ==>
      var n := EscapeLength(t, i);
      if n > 0 then h[k] == AT && Hides(t, i + n, h, k + 1) else h[k] == t[i] && Hides(t, i + 1, h, k + 1)
  {
    if i < |t| {
      var n := EscapeLength(t, i);
      var c, rest := if n > 0 then AT else t[i], HideEscapes(t, if n > 0 then i + n else i + 1);
      assert HideEscapes(t, i) == [c] + rest;
      var m := SpanSplit(h, k, |h|, [c], rest);
      SpanAt(h, k, m, [c], 0);
    }
  }

  /** A number or a word stands as it is in the text, outside strings. */
  lemma {:induction false} SimpleStays(t: Text, i: nat, h: Text, k: nat, m: nat, x: nat) returns (j: nat)
    requires Hides(t, i, h, k) && k <= m <= |h| && i <= x <= |t|
    requires forall y | k <= y < m :: IsSimple(h[y])
    ensures i + (m - k) == j <= |t| && Hides(t, j, h, m)
    ensures x < j ==> IsSimple(t[x])
    ensures x >= j ==> InString(t, i, x, false) == InString(t, j, x, false)
    decreases m - k
  {
    j := i;
    if k < m {
      HideStep(t, i, h, k);
      if x == i {
        j := SimpleStays(t, i + 1, h, k + 1, m, i + 1);
      } else {
        j := SimpleStays(t, i + 1, h, k + 1, m, x);
      }
    }
  }

  /** An escape sequence does not end a string. */
  lemma EscapeStaysQuoted(t: Text, i: nat, x: nat)
    requires i < |t| && EscapeLength(t, i) > 0 && i <= x <= |t|
    ensures var j := i + EscapeLength(t, i);
            if x < j then InString(t, i, x, true) else InString(t, i, x, true) == InString(t, j, x, true)
  {
    if EscapeLength(t, i) == 6 {
      DigitsStayQuoted(t, i + 2, i + 6, x);
    }
  }

  lemma {:induction false} DigitsStayQuoted(t: Text, i: nat, j: nat, x: nat)
    requires i <= j <= |t| && forall y | i <= y < j :: IsHex(t[y])
    ensures if x < j then InString(t, i, x, true) else InString(t, i, x, true) == InString(t, j, x, true)
    decreases j - i
  {
    if i < j {
      DigitsStayQuoted(t, i + 1, j, x);
    }
  }

  /** Position m holds the next quotation mark, and no backslash comes before it. */
  predicate Closes(h: Text, k: nat, m: nat) {
    k <= m < |h| && h[m] == QUOTE && forall y | k <= y < m :: h[y] != QUOTE && h[y] != BACKSLASH
  }

  lemma {:induction false} PlainEndCloses(h: Text, k: nat)
    requires k <= |h| && PlainEnd(h, k) < |h| && h[PlainEnd(h, k)] == QUOTE
    ensures Closes(h, k, PlainEnd(h, k))
    decreases |h| - k
  {
    if h[k] != QUOTE {
      PlainEndCloses(h, k + 1);
    }
  }

  /** A string that shrinks is one string literal of the text. */
  lemma {:induction false} StringStays(t: Text, i: nat, h: Text, k: nat, m: nat, x: nat) returns (j: nat)
    requires Hides(t, i, h, k) && Closes(h, k, m) && i <= x <= |t|
    ensures i < j <= |t| && Hides(t, j, h, m + 1)
    ensures if x < j then InString(t, i, x, true) else InString(t, i, x, true) == InString(t, j, x, false)
    decreases m - k
  {
    HideStep(t, i, h, k);
    var n := EscapeLength(t, i);
    if n > 0 {
      EscapeStaysQuoted(t, i, x);
      j := StringStays(t, i + n, h, k + 1, m, if x < i + n then i + n else x);
    } else if k == m {
      j := i + 1;
    } else {
      j := StringStays(t, i + 1, h, k + 1, m, if x == i then i + 1 else x);
    }
  }

  // ----- What passes is tame outside strings.

  /** Scanning from a place outside strings: a character that is not tame is inside one, and the
      text ends outside. */
  predicate QuotedFrom(t: Text, i: nat, x: nat)
    requires i <= x <= |t|
  {
    if x == |t| then !InString(t, i, x, false) else Tame(t[x]) || InString(t, i, x, false)
  }

  lemma WildAfterString(t: Text, i: nat, h: Text, k: nat, x: nat) returns (j: nat)
    requires Hides(t, i, h, k) && i < |t| && k < |h| && t[i] == h[k] == QUOTE && SimpleEnd(h, k) > k && i <= x <= |t|
    ensures i < j <= |t| && Hides(t, j, h, SimpleEnd(h, k))
    ensures if x < j then QuotedFrom(t, i, x) else InString(t, i, x, false) == InString(t, j, x, false)
  {
    HideStep(t, i, h, k);
    PlainEndCloses(h, k + 1);
    j := StringStays(t, i + 1, h, k + 1, SimpleEnd(h, k) - 1, if x == i then i + 1 else x);
  }

  lemma WildAfterSimple(t: Text, i: nat, h: Text, k: nat, x: nat) returns (j: nat)
    requires Hides(t, i, h, k) && k < |h| && h[k] != QUOTE && SimpleEnd(h, k) > k && i <= x <= |t|
    ensures i < j <= |t| && Hides(t, j, h, SimpleEnd(h, k))
    ensures if x < j then QuotedFrom(t, i, x) else InString(t, i, x, false) == InString(t, j, x, false)
  {
    AllSimple(h, k);
    j := SimpleStays(t, i, h, k, SimpleEnd(h, k), x);
  }

  lemma {:induction false} WildIsQuotedFrom(t: Text, i: nat, h: Text, k: nat, x: nat)
    requires Hides(t, i, h, k) && k <= |h| && OnlyShape(HideSimple(h, k)) && i <= x <= |t|
    ensures QuotedFrom(t, i, x)
    decreases |t| - i
  {
    HideStep(t, i, h, k);
    if i < |t| {
      ShapeStep(h, k);
      if SimpleEnd(h, k) > k {
        var j := i;
        if h[k] == QUOTE {
          j := WildAfterString(t, i, h, k, x);
        } else {
          j := WildAfterSimple(t, i, h, k, x);
        }
        if x >= j {
          WildIsQuotedFrom(t, j, h, SimpleEnd(h, k), x);
        }
      } else if x > i {
        WildIsQuotedFrom(t, i + 1, h, k + 1, x);
      }
    }
  }

  /** In a text that passes, every character that JSON does not allow outside strings is inside a
      string literal, and every string literal is closed. */
  lemma WildIsQuoted(t: Text)
    requires PassesFilter(t)
    ensures forall k | 0 <= k < |t| && !Tame(t[k]) :: InString(t, 0, k, false)
    ensures !InString(t, 0, |t|, false)
  {
    var h := HideEscapes(t, 0);
    var s := HideSimple(h, 0);
    forall x | 0 <= x < |s| ensures IsPunct(s[x]) || IsSpace(s[x]) {
      ShapeBefore(s, 0, x);
    }
    assert h[0..|h|] == h;
    forall k | 0 <= k < |t| && !Tame(t[k]) ensures InString(t, 0, k, false) {
      WildIsQuotedFrom(t, 0, h, 0, k);
    }
    WildIsQuotedFrom(t, 0, h, 0, |t|);
  }

  // Parentheses, semicolon, equals sign and the letter w of new.
  const OPEN_PAREN: Unit := 40
  const CLOSE_PAREN: Unit := 41
  const SEMICOLON: Unit := 59
  const EQUALS: Unit := 61
  const LOWER_W: Unit := 119

  /** A character without which a text can neither call nor assign. */
  predicate Active(c: Unit) {
    c == OPEN_PAREN || c == CLOSE_PAREN || c == SEMICOLON || c == EQUALS || c == LOWER_W
  }

  lemma {:induction false} NoQuoteNoString(t: Text, i: nat, k: nat)
    requires i <= |t| && QUOTE !in t
    ensures !InString(t, i, k, false)
    decreases |t| - i
  {
    if i < k && i < |t| {
      assert t[i] in t;
      NoQuoteNoString(t, i + 1, k);
    }
  }

  lemma TameWithoutStrings(t: Text, k: nat)
    requires QUOTE !in t && k < |t| && PassesFilter(t)
    ensures Tame(t[k])
  {
    NoQuoteNoString(t, 0, k);
    WildIsQuoted(t);
  }

  /** In particular a text without strings that holds such a character does not pass. */
  lemma ActiveTextRejected(t: Text, k: nat)
    requires QUOTE !in t && k < |t| && Active(t[k])
    ensures !PassesFilter(t)
  {
    if PassesFilter(t) {
      TameWithoutStrings(t, k);
    }
  }
}
