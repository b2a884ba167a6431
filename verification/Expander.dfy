/** Macro expansion into a bounded buffer (ExpandMacros of src/Executor/Macro.c). */
module Expander {
  import opened Wrappers
  import opened CStrings
  import opened Macros

  // ----- The reference: an input is spelled by pieces, and each piece has a value.

  datatype Piece = Plain(c: char) | Reference(name: string)

  function Spell(piece: Piece): string {
    match piece
    case Plain(c) => [c]
    case Reference(name) => "${" + name + "}"
  }

  function Render(pieces: seq<Piece>): string {
    if pieces == [] then "" else Spell(pieces[0]) + Render(pieces[1..])
  }

  /** No reference is hidden in the plain characters, and every name ends at its brace. */
  predicate Canonical(pieces: seq<Piece>) {
    && (forall i | 0 <= i < |pieces| && pieces[i].Reference? :: '}' !in pieces[i].name)
    && (forall i | 0 <= i < |pieces| - 1 :: !(pieces[i] == Plain('$') && pieces[i + 1] == Plain('{')))
  }

  function Value(defs: Definitions, piece: Piece): Option<string> {
    match piece
    case Plain(c) => Some([c])
    case Reference(name) => Lookup(defs, name)
  }

  function Both(first: Option<string>, others: Option<string>): Option<string> {
    if first.Some? && others.Some? then Some(first.value + others.value) else None
  }

  function Values(defs: Definitions, pieces: seq<Piece>): Option<string> {
    if pieces == [] then Some("") else Both(Value(defs, pieces[0]), Values(defs, pieces[1..]))
  }

  // ----- The single pass.

  datatype Scanned = Scanned(ok: bool, out: string)

  /** The position of the first closing brace from p on, or of the end. */
  function Close(s: string, p: nat): (q: nat)
    requires p <= |s|
    ensures p <= q <= |s|
    ensures forall k | p <= k < q :: s[k] != '}'
    ensures q < |s| ==> s[q] == '}'
    decreases |s| - p
  {
    if p == |s| || s[p] == '}' then p else Close(s, p + 1)
  }

  function Result(scanned: Scanned): Option<string> {
    if scanned.ok then Some(scanned.out) else None
  }

  function Prepend(text: string, scanned: Scanned): Scanned {
    scanned.(out := text + scanned.out)
  }

  predicate Opens(s: string, p: nat) {
    p + 1 < |s| && s[p] == '$' && s[p + 1] == '{'
  }

  /** The piece at position p: none if a reference opens there and is not closed. */
  function PieceAt(s: string, p: nat): Option<Piece>
    requires p < |s|
  {
    if !Opens(s, p) then Some(Plain(s[p]))
    else if Close(s, p + 2) == |s| then None
    else Some(Reference(s[p + 2..Close(s, p + 2)]))
  }

  function After(s: string, p: nat): (q: nat)
    requires p < |s| && PieceAt(s, p).Some?
    ensures p < q <= |s|
  {
    if Opens(s, p) then Close(s, p + 2) + 1 else p + 1
  }

  /** One pass over the input from position p on. */
  function Scan(defs: Definitions, s: string, p: nat): Scanned
    requires p <= |s|
    decreases |s| - p
  {
    if p == |s| then Scanned(true, "")
    else if PieceAt(s, p).None? || Value(defs, PieceAt(s, p).value).None? then Scanned(false, "")
    else Prepend(Value(defs, PieceAt(s, p).value).value, Scan(defs, s, After(s, p)))
  }

  /** The single pass computes the reference expansion. An input spelled by canonical pieces
      expands to their values, appended as they are and never scanned again, and fails if a
      name is unknown; an input no canonical pieces spell, where a reference is not closed,
      fails. */
  lemma {:induction false} ScanIsExpansion(defs: Definitions, s: string)
    ensures forall pieces | Canonical(pieces) && Render(pieces) == s ::
              Result(Scan(defs, s, 0)) == Values(defs, pieces)
    ensures Scan(defs, s, 0).ok ==> exists pieces :: Canonical(pieces) && Render(pieces) == s
  {
    assert s[0..] == s;
    forall pieces | Canonical(pieces) && Render(pieces) == s
      ensures Result(Scan(defs, s, 0)) == Values(defs, pieces)
    {
      ScanRendered(defs, s, 0, pieces);
    }
    if Scan(defs, s, 0).ok {
      var pieces := PiecesOf(defs, s, 0);
    }
  }

  lemma {:induction false} ScanRendered(defs: Definitions, s: string, p: nat, pieces: seq<Piece>)
    requires p <= |s| && s[p..] == Render(pieces) && Canonical(pieces)
    ensures Result(Scan(defs, s, p)) == Values(defs, pieces)
    decreases |pieces|
  {
    if pieces != [] {
      PieceRendered(s, p, pieces);
      assert Canonical(pieces[1..]);
      ScanRendered(defs, s, After(s, p), pieces[1..]);
    }
  }

  lemma PieceRendered(s: string, p: nat, pieces: seq<Piece>)
    requires pieces != [] && Canonical(pieces) && p <= |s| && s[p..] == Render(pieces)
    ensures p < |s| && PieceAt(s, p) == Some(pieces[0])
    ensures s[After(s, p)..] == Render(pieces[1..])
  {
    var rest := Render(pieces[1..]);
    match pieces[0]
    case Plain(c) =>
      PlainStays(pieces, rest);
      PlainRead(s, p, c, rest);
    case Reference(name) =>
      ReferenceRead(s, p, name, rest);
  }

  lemma PlainRead(s: string, p: nat, c: char, rest: string)
    requires p <= |s| && s[p..] == [c] + rest
    requires c == '$' && rest != "" ==> rest[0] != '{'
    ensures p < |s| && PieceAt(s, p) == Some(Plain(c)) && s[After(s, p)..] == rest
  {
    assert s[p + 1..] == s[p..][1..] == rest;
    assert s[p] == s[p..][0];
  }

  lemma ReferenceRead(s: string, p: nat, name: string, rest: string)
    requires p <= |s| && s[p..] == "${" + name + "}" + rest && '}' !in name
    ensures p < |s| && PieceAt(s, p) == Some(Reference(name)) && s[After(s, p)..] == rest
  {
    var t, q := s[p..], p + 2 + |name|;
    assert s[p] == t[0] && s[p + 1] == t[1] && s[q] == t[|name| + 2];
    forall k | p + 2 <= k < q ensures s[k] == name[k - p - 2] {
      assert s[k] == t[k - p];
    }
    assert Close(s, p + 2) == q;
    assert s[p + 2..q] == name;
    assert s[q + 1..] == t[|name| + 3..] == rest;
  }

  lemma PlainStays(pieces: seq<Piece>, rest: string)
    requires pieces != [] && Canonical(pieces) && rest == Render(pieces[1..])
    ensures pieces[0] == Plain('$') && rest != "" ==> rest[0] != '{'
  {
    if pieces[0] == Plain('$') && rest != "" {
      assert pieces[0 + 1] != Plain('{');
      assert pieces[1..][0] == pieces[1];
    }
  }

  lemma {:induction false} PiecesOf(defs: Definitions, s: string, p: nat) returns (pieces: seq<Piece>)
    requires p <= |s| && Scan(defs, s, p).ok
    ensures Canonical(pieces) && Render(pieces) == s[p..]
    ensures pieces == [] || pieces[0] != Plain('{') || s[p] == '{'
    decreases |s| - p
  {
    if p == |s| {
      pieces := [];
    } else {
      var piece, q := PieceAt(s, p).value, After(s, p);
      var others := PiecesOf(defs, s, q);
      PieceSpelled(s, p);
      CanonicalCons(piece, others);
      pieces := [piece] + others;
    }
  }

  lemma PieceSpelled(s: string, p: nat)
    requires p < |s| && PieceAt(s, p).Some?
    ensures s[p..] == Spell(PieceAt(s, p).value) + s[After(s, p)..]
  {
    if Opens(s, p) {
      var q := Close(s, p + 2);
      assert s[p..p + 2] == "${" && s[q..q + 1] == "}";
      assert s[p..] == s[p..p + 2] + s[p + 2..q] + s[q..q + 1] + s[q + 1..];
    }
  }

  lemma CanonicalCons(first: Piece, others: seq<Piece>)
    requires Canonical(others)
    requires first.Reference? ==> '}' !in first.name
    requires others != [] ==> !(first == Plain('$') && others[0] == Plain('{'))
    ensures Canonical([first] + others) && Render([first] + others) == Spell(first) + Render(others)
  {
    var pieces := [first] + others;
    assert pieces[1..] == others;
    assert forall i | 0 < i < |pieces| :: pieces[i] == others[i - 1];
  }

  lemma PrependTwice(a: string, b: string, scanned: Scanned)
    ensures Prepend(a, Prepend(b, scanned)) == Prepend(a + b, scanned)
    ensures Prepend(a, Scanned(false, "")) == Scanned(false, a)
  {
    assert a + "" == a;
    assert a + (b + scanned.out) == a + b + scanned.out;
  }

  /** The position of the next closing brace, or of the end of the text. */
  method FindClose(buffer: array<char>, p: nat, ghost whole: CString) returns (q: nat)
    requires p <= |whole| < buffer.Length && buffer[|whole|] == NUL
    requires forall k | p <= k < |whole| :: buffer[k] == whole[k]
    ensures q == Close(whole, p)
  {
    q := p;
    while buffer[q] != NUL && buffer[q] != '}'
      invariant p <= q <= |whole|
      invariant Close(whole, p) == Close(whole, q)
      decreases |whole| - q
    {
      q := q + 1;
    }
  }

  /** End the name in place, over its closing brace. */
  method TerminateName(buffer: array<char>, p: nat, q: nat, ghost whole: CString) returns (name: CString)
    requires p <= q < |whole| < buffer.Length
    requires forall k | p <= k < |whole| :: buffer[k] == whole[k]
    modifies buffer
    ensures name == whole[p..q]
    ensures forall k | q < k < buffer.Length :: buffer[k] == old(buffer[k])
  {
    buffer[q] := NUL;
    assert buffer[p..][..q - p] == whole[p..q];
    TextIs(buffer[p..], q - p);
    name := Text(buffer[p..]);
  }

  method LookUpName(table: MacroTable, buffer: array<char>, p: nat, q: nat, ghost whole: CString)
    returns (found: Option<CString>)
    requires table.Valid() && p <= q < |whole| < buffer.Length
    requires forall k | p <= k < |whole| :: buffer[k] == whole[k]
    modifies buffer
    ensures found == Lookup(table.Contents(), whole[p..q])
    ensures forall k | q < k < buffer.Length :: buffer[k] == old(buffer[k])
  {
    var name := TerminateName(buffer, p, q, whole);
    found := table.FindMacro(name);
  }

  /** What one turn of the pass does from position p on: it stops there, or appends a value and
      goes on at the next position. */
  ghost predicate Advances(defs: Definitions, s: string, p: nat, next: int, value: string)
    requires p <= |s|
  {
    if next == -1 then Scan(defs, s, p) == Scanned(false, value)
    else p < next <= |s| && Scan(defs, s, p) == Prepend(value, Scan(defs, s, next))
  }

  /** The pass over a reference whose name starts at p. */
  lemma UnclosedStops(defs: Definitions, s: string, p: nat)
    requires 2 <= p <= |s| && s[p - 2] == '$' && s[p - 1] == '{' && Close(s, p) == |s|
    ensures Advances(defs, s, p - 2, -1, "")
  {}

  lemma ReferenceAdvances(defs: Definitions, s: string, p: nat, q: nat, found: Option<CString>)
    requires 2 <= p <= |s| && s[p - 2] == '$' && s[p - 1] == '{' && q == Close(s, p) < |s|
    requires found == Lookup(defs, s[p..q])
    ensures if found.None? then Advances(defs, s, p - 2, -1, "") else Advances(defs, s, p - 2, q + 1, found.value)
  {}

  lemma OneCharAdvances(defs: Definitions, s: string, p: nat)
    requires p < |s| && !(s[p] == '$' && p + 1 < |s| && s[p + 1] == '{')
    ensures Advances(defs, s, p, p + 1, [s[p]])
  {}

  /** Append the value of the reference whose name starts at p. The position after its brace
      is returned, or -1 if the reference is not closed or its macro is not defined. */
  method ExpandReference(table: MacroTable, buffer: array<char>, p: nat, output: array<char>,
                         ghost whole: CString, ghost done: string)
    returns (next: int, ghost value: string)
    requires table.Valid() && buffer != output && output.Length == BUFFER_SIZE
    requires 2 <= p <= |whole| < buffer.Length && buffer[|whole|] == NUL
    requires forall k | p <= k < |whole| :: buffer[k] == whole[k]
    requires whole[p - 2] == '$' && whole[p - 1] == '{' && Text(output[..]) == Cut(done, MAX_LENGTH)
    modifies buffer, output
    ensures Text(output[..]) == Cut(done + value, MAX_LENGTH)
    ensures Advances(table.Contents(), whole, p - 2, next, value)
    ensures next != -1 ==> forall k | next <= k < buffer.Length :: buffer[k] == old(buffer[k])
  {
    assert done + "" == done;
    var q := FindClose(buffer, p, whole);
    if buffer[q] != '}' {
      UnclosedStops(table.Contents(), whole, p);
      return -1, "";
    }
    var found := LookUpName(table, buffer, p, q, whole);
    ReferenceAdvances(table.Contents(), whole, p, q, found);
    next, value := AppendValue(found, q, output, done);
  }

  method AppendValue(found: Option<CString>, q: nat, output: array<char>, ghost done: string)
    returns (next: int, ghost value: string)
    requires output.Length == BUFFER_SIZE && Text(output[..]) == Cut(done, MAX_LENGTH)
    modifies output
    ensures Text(output[..]) == Cut(done + value, MAX_LENGTH)
    ensures if found.None? then next == -1 && value == "" else next == q + 1 && value == found.value
  {
    assert done + "" == done;
    if found.None? {
      return -1, "";
    }
    Append(output, found.value, done);
    return q + 1, found.value;
  }

  method ExpandPiece(table: MacroTable, buffer: array<char>, p: nat, output: array<char>,
                     ghost whole: CString, ghost done: string)
    returns (next: int, ghost value: string)
    requires table.Valid() && buffer != output && output.Length == BUFFER_SIZE
    requires p < |whole| < buffer.Length && buffer[|whole|] == NUL
    requires forall k | p <= k < |whole| :: buffer[k] == whole[k]
    requires Text(output[..]) == Cut(done, MAX_LENGTH)
    modifies buffer, output
    ensures Text(output[..]) == Cut(done + value, MAX_LENGTH)
    ensures Advances(table.Contents(), whole, p, next, value)
    ensures next != -1 ==> forall k | next <= k < buffer.Length :: buffer[k] == old(buffer[k])
  {
    if buffer[p] == '$' && buffer[p + 1] == '{' {
      next, value := ExpandReference(table, buffer, p + 2, output, whole, done);
    } else {
      OneCharAdvances(table.Contents(), whole, p);
      Append(output, [buffer[p]], done);
      next, value := p + 1, [whole[p]];
    }
  }

  lemma DoneGrows(defs: Definitions, s: string, p: nat, next: int, done: string, value: string, all: Scanned)
    requires p <= |s| && Advances(defs, s, p, next, value) && all == Prepend(done, Scan(defs, s, p))
    ensures all == if next == -1 then Scanned(false, done + value) else Prepend(done + value, Scan(defs, s, next))
  {
    if next != -1 {
      PrependTwice(done, value, Scan(defs, s, next));
    }
  }

  /** Expand the text held by the working buffer, which is destroyed on the way. */
  method ExpandBuffer(table: MacroTable, buffer: array<char>, output: array<char>, ghost whole: CString)
    returns (status: int)
    requires table.Valid() && buffer != output && output.Length == BUFFER_SIZE
    requires |whole| < buffer.Length && buffer[|whole|] == NUL
    requires forall k | 0 <= k < |whole| :: buffer[k] == whole[k]
    requires Text(output[..]) == ""
    modifies buffer, output
    ensures status == if Scan(table.Contents(), whole, 0).ok then 0 else -1
    ensures Text(output[..]) == Cut(Scan(table.Contents(), whole, 0).out, MAX_LENGTH)
  {
    ghost var defs := table.Contents();
    ghost var done, all := "", Scan(defs, whole, 0);
    var p := 0;
    while buffer[p] != NUL
      invariant 0 <= p <= |whole| && buffer[|whole|] == NUL
      invariant forall k | p <= k < |whole| :: buffer[k] == whole[k]
      invariant Text(output[..]) == Cut(done, MAX_LENGTH)
      invariant table.Valid() && table.Contents() == defs
      invariant all == Prepend(done, Scan(defs, whole, p))
      decreases |whole| - p
    {
      var next;
      ghost var value;
      next, value := ExpandPiece(table, buffer, p, output, whole, done);
      DoneGrows(defs, whole, p, next, done, value, all);
      done := done + value;
      if next == -1 {
        return -1;
      }
      p := next;
    }
    PrependTwice(done, "", Scanned(true, ""));
    return 0;
  }

  method ExpandMacros(table: MacroTable, input: CString, output: array<char>) returns (status: int)
    requires table.Valid() && output.Length == BUFFER_SIZE
    modifies output
    ensures status == if Scan(table.Contents(), Cut(input, MAX_LENGTH), 0).ok then 0 else -1
    ensures Text(output[..]) == Cut(Scan(table.Contents(), Cut(input, MAX_LENGTH), 0).out, MAX_LENGTH)
  {
    var buffer := new char[BUFFER_SIZE];
    var _ := Strlcpy(buffer, input, BUFFER_SIZE);
    output[0] := NUL;
    TextIs(output[..], 0);
    status := ExpandBuffer(table, buffer, output, Text(buffer[..]));
  }
}
