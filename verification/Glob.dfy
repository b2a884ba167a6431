/** Wildcard matching (src/Executor/Match.h). */
module Glob {

  // ----- The glob language: each star stands for any string, the empty one included.

  function Stars(pat: string): nat {
    if pat == "" then 0 else (if pat[0] == '*' then 1 else 0) + Stars(pat[1..])
  }

  /** The pattern with its stars replaced, in order, by the given strings. */
  function Fill(pat: string, fills: seq<string>): string
    requires |fills| == Stars(pat)
  {
    if pat == "" then ""
    else if pat[0] == '*' then fills[0] + Fill(pat[1..], fills[1..])
    else [pat[0]] + Fill(pat[1..], fills)
  }

  ghost predicate InLanguage(pat: string, str: string) {
    exists fills :: |fills| == Stars(pat) && Fill(pat, fills) == str
  }

  /** The same language, by recursion on the pattern and the string. */
  predicate InGlob(pat: string, str: string)
    decreases |pat|, |str|
  {
    if pat == "" then str == ""
    else if pat[0] == '*' then InGlob(pat[1..], str) || (str != "" && InGlob(pat, str[1..]))
    else str != "" && str[0] == pat[0] && InGlob(pat[1..], str[1..])
  }

  lemma {:induction false} InGlobIsLanguage(pat: string, str: string)
    ensures InGlob(pat, str) <==> InLanguage(pat, str)
  {
    if InGlob(pat, str) {
      var fills := FillsOf(pat, str);
    }
    forall fills | |fills| == Stars(pat) && Fill(pat, fills) == str
      ensures InGlob(pat, str)
    {
      FillIsInGlob(pat, fills);
    }
  }

  lemma {:induction false} FillsOf(pat: string, str: string) returns (fills: seq<string>)
    requires InGlob(pat, str)
    ensures |fills| == Stars(pat) && Fill(pat, fills) == str
    decreases |pat|, |str|
  {
    if pat == "" {
      fills := [];
    } else if pat[0] == '*' {
      if InGlob(pat[1..], str) {
        var rest := FillsOf(pat[1..], str);
        fills := [""] + rest;
        assert fills[1..] == rest;
      } else {
        var rest := FillsOf(pat, str[1..]);
        fills := [[str[0]] + rest[0]] + rest[1..];
        assert fills[1..] == rest[1..];
        assert str == [str[0]] + str[1..];
      }
    } else {
      fills := FillsOf(pat[1..], str[1..]);
    }
  }

  lemma {:induction false} FillIsInGlob(pat: string, fills: seq<string>)
    requires |fills| == Stars(pat)
    ensures InGlob(pat, Fill(pat, fills))
  {
    if pat == "" {
    } else if pat[0] == '*' {
      FillIsInGlob(pat[1..], fills[1..]);
      StarCovers(pat, fills[0], Fill(pat[1..], fills[1..]));
    } else {
      FillIsInGlob(pat[1..], fills);
      assert Fill(pat, fills)[1..] == Fill(pat[1..], fills);
    }
  }

  lemma {:induction false} StarCovers(pat: string, covered: string, rest: string)
    requires pat != "" && pat[0] == '*' && InGlob(pat[1..], rest)
    ensures InGlob(pat, covered + rest)
  {
    if covered == "" {
      assert covered + rest == rest;
    } else {
      StarCovers(pat, covered[1..], rest);
      assert (covered + rest)[1..] == covered[1..] + rest;
    }
  }

  // ----- What the matcher accepts.

  /** What the matcher accepts: the glob language, but a star that is not the last character
      of the pattern needs some text left to look at. */
  predicate Accepts(pat: string, str: string)
    decreases |pat|, |str|
  {
    if pat == "" then str == ""
    else if pat == "*" then true
    else if str == "" then false
    else if pat[0] == '*' then Accepts(pat[1..], str) || Accepts(pat, str[1..])
    else str[0] == pat[0] && Accepts(pat[1..], str[1..])
  }

  method Match(pattern: string, str: string) returns (status: int)
    ensures status == 0 || status == -1
    ensures status == 0 <==> Accepts(pattern, str)
    decreases |pattern|
  {
    var p, q := 0, 0;
    while p < |pattern| && q < |str|
      invariant 0 <= p <= |pattern| && 0 <= q <= |str|
      invariant Accepts(pattern, str) <==> Accepts(pattern[p..], str[q..])
      decreases |pattern| - p
    {
      ghost var pat, rest := pattern[p..], str[q..];
      assert pattern[p + 1..] == pat[1..];
      if pattern[p] == '*' {
        p := p + 1;
        var r := q;
        while r < |str|
          invariant q <= r <= |str|
          invariant Accepts(pat, rest) <==> Accepts(pat, str[r..])
          invariant r > q ==> pat[1..] != "*"
        {
          var found := Match(pattern[p..], str[r..]);
          if found == 0 {
            break;
          }
          assert str[r..][1..] == str[r + 1..];
          r := r + 1;
        }
        q := r;
      } else if pattern[p] == str[q] {
        assert str[q + 1..] == rest[1..];
        p := p + 1;
        q := q + 1;
      } else {
        return -1;
      }
    }
    if p + 1 == |pattern| && pattern[p] == '*' {
      assert pattern[p..] == "*";
      return 0;
    }
    if p < |pattern| || q < |str| {
      return -1;
    }
    return 0;
  }

  // ----- How the two differ.

  predicate AllStars(pat: string) {
    pat == "" || (pat[0] == '*' && AllStars(pat[1..]))
  }

  /** The pattern without its trailing run of stars. */
  function Stem(pat: string): string {
    if AllStars(pat) then "" else [pat[0]] + Stem(pat[1..])
  }

  predicate EndsInTwoStars(pat: string) {
    |pat| >= 2 && pat[|pat| - 2] == pat[|pat| - 1] == '*'
  }

  lemma {:induction false} TwoStarsMeasured(pat: string)
    ensures EndsInTwoStars(pat) <==> |pat| >= |Stem(pat)| + 2
  {
    if pat != "" {
      TwoStarsMeasured(pat[1..]);
      StemIsPrefix(pat);
      if AllStars(pat) && |pat| >= 2 {
        StarEverywhere(pat, |pat| - 2);
        StarEverywhere(pat, |pat| - 1);
      }
    }
  }

  lemma {:induction false} StemIsPrefix(pat: string)
    ensures Stem(pat) <= pat
    ensures Stem(pat) != "" ==> Stem(pat)[|Stem(pat)| - 1] != '*'
  {
    if !AllStars(pat) {
      StemIsPrefix(pat[1..]);
    }
  }

  lemma {:induction false} StarEverywhere(pat: string, i: nat)
    requires AllStars(pat) && i < |pat|
    ensures pat[i] == '*'
  {
    if i > 0 {
      StarEverywhere(pat[1..], i - 1);
    }
  }

  /** Some proper prefix of the string is matched by the stem. */
  ghost predicate LeavesText(pat: string, str: string) {
    exists k | 0 <= k < |str| :: InGlob(Stem(pat), str[..k])
  }

  /** The exact reach of the matcher: the glob language, where a trailing run of two or more
      stars must cover at least one character. */
  lemma {:induction false} AcceptsExactly(pat: string, str: string)
    ensures Accepts(pat, str) <==>
            InGlob(pat, str) && (EndsInTwoStars(pat) ==> LeavesText(pat, str))
  {
    TwoStarsMeasured(pat);
    if Accepts(pat, str) {
      AcceptsGlob(pat, str);
    }
    if EndsInTwoStars(pat) {
      if Accepts(pat, str) {
        var k := TextLeft(pat, str);
      }
      if LeavesText(pat, str) {
        var k :| 0 <= k < |str| && InGlob(Stem(pat), str[..k]);
        TextSuffices(pat, str, k);
      }
    } else if InGlob(pat, str) {
      PlainAccepts(pat, str);
    }
  }

  lemma {:induction false} AcceptsGlob(pat: string, str: string)
    requires Accepts(pat, str)
    ensures InGlob(pat, str)
    decreases |pat|, |str|
  {
    if pat == "" {
    } else if pat == "*" {
      StarCovers(pat, str, "");
      assert str + "" == str;
    } else if pat[0] == '*' {
      if Accepts(pat[1..], str) {
        AcceptsGlob(pat[1..], str);
      } else {
        AcceptsGlob(pat, str[1..]);
      }
    } else {
      AcceptsGlob(pat[1..], str[1..]);
    }
  }

  lemma {:induction false} PlainAccepts(pat: string, str: string)
    requires |pat| < |Stem(pat)| + 2 && InGlob(pat, str)
    ensures Accepts(pat, str)
    decreases |pat|, |str|
  {
    if pat != "" && pat != "*" {
      assert |pat[1..]| < |Stem(pat[1..])| + 2 && !AllStars(pat);
      if str == "" {
        NeedsText(pat);
      } else if pat[0] == '*' {
        if InGlob(pat[1..], str) {
          PlainAccepts(pat[1..], str);
        } else {
          PlainAccepts(pat, str[1..]);
        }
      } else {
        PlainAccepts(pat[1..], str[1..]);
      }
    }
  }

  /** Only a pattern of nothing but stars matches the empty string. */
  lemma {:induction false} NeedsText(pat: string)
    ensures InGlob(pat, "") <==> AllStars(pat)
  {
    if pat != "" {
      NeedsText(pat[1..]);
    }
  }

  lemma {:induction false} TextLeft(pat: string, str: string) returns (k: nat)
    requires |pat| >= |Stem(pat)| + 2 && Accepts(pat, str)
    ensures k < |str| && InGlob(Stem(pat), str[..k])
    decreases |pat|, |str|
  {
    if AllStars(pat) {
      k := 0;
    } else {
      assert Stem(pat)[1..] == Stem(pat[1..]);
      if pat[0] == '*' {
        if Accepts(pat[1..], str) {
          k := TextLeft(pat[1..], str);
        } else {
          k := TextLeft(pat, str[1..]);
          k := k + 1;
          assert str[..k][1..] == str[1..][..k - 1];
        }
      } else {
        k := TextLeft(pat[1..], str[1..]);
        k := k + 1;
        assert str[..k][1..] == str[1..][..k - 1];
      }
    }
  }

  lemma {:induction false} TextSuffices(pat: string, str: string, k: nat)
    requires |pat| >= |Stem(pat)| + 2 && k < |str| && InGlob(Stem(pat), str[..k])
    ensures Accepts(pat, str)
    decreases |pat|, |str|
  {
    if AllStars(pat) {
      AllStarsAccept(pat, str);
    } else {
      assert Stem(pat)[1..] == Stem(pat[1..]);
      if pat[0] == '*' && InGlob(Stem(pat[1..]), str[..k]) {
        TextSuffices(pat[1..], str, k);
      } else {
        assert str[..k][1..] == str[1..][..k - 1];
        TextSuffices(if pat[0] == '*' then pat else pat[1..], str[1..], k - 1);
      }
    }
  }

  lemma {:induction false} AllStarsAccept(pat: string, str: string)
    requires AllStars(pat) && pat != "" && str != ""
    ensures Accepts(pat, str)
  {
    if pat != "*" {
      AllStarsAccept(pat[1..], str);
    }
  }

  /** The shortest string of the language: the pattern without its stars. */
  function Literals(pat: string): string {
    if pat == "" then "" else (if pat[0] == '*' then "" else [pat[0]]) + Literals(pat[1..])
  }

  lemma {:induction false} LiteralsMatch(pat: string)
    ensures InGlob(pat, Literals(pat))
  {
    if pat != "" {
      LiteralsMatch(pat[1..]);
      assert pat[0] == '*' ==> Literals(pat) == Literals(pat[1..]);
      assert pat[0] != '*' ==> Literals(pat)[1..] == Literals(pat[1..]);
    }
  }

  lemma {:induction false} MatchesAreLong(pat: string, str: string)
    requires InGlob(pat, str)
    ensures |str| >= |Literals(pat)|
    decreases |pat|, |str|
  {
    if pat != "" {
      if pat[0] != '*' {
        MatchesAreLong(pat[1..], str[1..]);
      } else if InGlob(pat[1..], str) {
        MatchesAreLong(pat[1..], str);
      } else {
        MatchesAreLong(pat, str[1..]);
      }
    }
  }

  lemma {:induction false} StemLiterals(pat: string)
    ensures Literals(Stem(pat)) == Literals(pat)
  {
    if pat != "" {
      StemLiterals(pat[1..]);
      if !AllStars(pat) {
        assert Stem(pat)[1..] == Stem(pat[1..]);
      }
    }
  }

  /** The matcher decides the glob language of a pattern, on every string, exactly when the
      pattern does not end in two stars. */
  lemma {:induction false} MatcherIsGlobExactlyWhen(pat: string)
    ensures (forall str :: Accepts(pat, str) <==> InLanguage(pat, str)) <==> !EndsInTwoStars(pat)
  {
    TwoStarsMeasured(pat);
    if EndsInTwoStars(pat) {
      var str := Literals(pat);
      LiteralsMatch(pat);
      InGlobIsLanguage(pat, str);
      if Accepts(pat, str) {
        var k := TextLeft(pat, str);
        MatchesAreLong(Stem(pat), str[..k]);
        StemLiterals(pat);
        assert false;
      }
    } else {
      forall str ensures Accepts(pat, str) <==> InLanguage(pat, str) {
        InGlobIsLanguage(pat, str);
        AcceptsExactly(pat, str);
      }
    }
  }

  // ----- The two pattern shapes of the policy table.

  lemma {:induction false} LiteralPattern(pat: string, str: string)
    requires '*' !in pat
    ensures Accepts(pat, str) <==> str == pat
  {
    if pat != "" && str != "" {
      LiteralPattern(pat[1..], str[1..]);
      assert pat == [pat[0]] + pat[1..] && str == [str[0]] + str[1..];
    }
  }

  lemma {:induction false} PrefixPattern(prefix: string, str: string)
    requires '*' !in prefix
    ensures Accepts(prefix + "*", str) <==> prefix <= str
  {
    var pat := prefix + "*";
    if prefix == "" {
      assert pat == "*";
    } else {
      assert pat[0] == prefix[0] && pat != "*";
      assert pat[1..] == prefix[1..] + "*";
      if str != "" {
        PrefixPattern(prefix[1..], str[1..]);
        assert prefix == [prefix[0]] + prefix[1..] && str == [str[0]] + str[1..];
      }
    }
  }
}
