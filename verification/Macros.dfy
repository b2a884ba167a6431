/** The macro list and the macro expander (src/Executor/Macro.c). */
module Macros {
  import opened Wrappers
  import opened CStrings

  datatype Definition = Definition(name: string, value: CString)

  // ----- The list as a value: definitions in the order they were made.

  type Definitions = seq<Definition>

  predicate UniqueNames(defs: Definitions) {
    forall i, j | 0 <= i < j < |defs| :: defs[i].name != defs[j].name
  }

  function Lookup(defs: Definitions, name: string): Option<CString> {
    if defs == [] then None
    else if defs[0].name == name then Some(defs[0].value)
    else Lookup(defs[1..], name)
  }

  /** The list without its first definition of the name. */
  function Without(defs: Definitions, name: string): Definitions {
    if defs == [] then []
    else if defs[0].name == name then defs[1..]
    else [defs[0]] + Without(defs[1..], name)
  }

  lemma {:induction false} LookupFinds(defs: Definitions, name: string)
    ensures Lookup(defs, name).Some? <==> exists i | 0 <= i < |defs| :: defs[i].name == name
    ensures UniqueNames(defs) ==>
              forall i | 0 <= i < |defs| && defs[i].name == name :: Lookup(defs, name) == Some(defs[i].value)
  {
    if defs != [] {
      LookupFinds(defs[1..], name);
      assert forall i | 0 < i < |defs| :: defs[i] == defs[1..][i - 1];
      if defs[0].name != name && Lookup(defs, name).Some? {
        var i :| 0 <= i < |defs[1..]| && defs[1..][i].name == name;
        assert defs[i + 1].name == name;
      }
    }
  }

  lemma {:induction false} LookupAppend(defs: Definitions, d: Definition, name: string)
    ensures Lookup(defs + [d], name) ==
            if Lookup(defs, name).Some? then Lookup(defs, name)
            else if d.name == name then Some(d.value) else None
  {
    if defs != [] {
      assert (defs + [d])[1..] == defs[1..] + [d];
      LookupAppend(defs[1..], d, name);
    }
  }

  lemma {:induction false} WithoutSplits(defs: Definitions, name: string, i: nat)
    requires i < |defs| && defs[i].name == name
    requires forall j | 0 <= j < i :: defs[j].name != name
    ensures Without(defs, name) == defs[..i] + defs[i + 1..]
  {
    if i > 0 {
      WithoutSplits(defs[1..], name, i - 1);
      assert defs[..i] == [defs[0]] + defs[1..][..i - 1];
      assert defs[1..][i..] == defs[i + 1..];
    }
  }

  lemma {:induction false} WithoutAbsent(defs: Definitions, name: string)
    requires Lookup(defs, name).None?
    ensures Without(defs, name) == defs
  {
    if defs != [] {
      WithoutAbsent(defs[1..], name);
    }
  }

  // ----- Runs of calls, and the finite map they amount to.

  datatype Call = Define(def: Definition, memory: bool) | Undefine(name: string)

  function Apply(defs: Definitions, call: Call): Definitions {
    match call
    case Define(d, memory) =>
      if Lookup(defs, d.name).None? && memory then defs + [d] else defs
    case Undefine(name) => Without(defs, name)
  }

  function Run(defs: Definitions, calls: seq<Call>): Definitions
    decreases |calls|
  {
    if calls == [] then defs else Run(Apply(defs, calls[0]), calls[1..])
  }

  function MapApply(m: map<string, CString>, call: Call): map<string, CString> {
    match call
    case Define(d, memory) => if d.name !in m && memory then m[d.name := d.value] else m
    case Undefine(name) => m - {name}
  }

  function MapRun(m: map<string, CString>, calls: seq<Call>): map<string, CString>
    decreases |calls|
  {
    if calls == [] then m else MapRun(MapApply(m, calls[0]), calls[1..])
  }

  ghost predicate Agrees(defs: Definitions, m: map<string, CString>) {
    && UniqueNames(defs)
    && forall name: string :: Lookup(defs, name) == if name in m then Some(m[name]) else None
  }

  /** Over any sequence of calls the list keeps its names unique and answers look-ups as a
      finite map does. */
  lemma {:induction false} ListRefinesMap(defs: Definitions, m: map<string, CString>, calls: seq<Call>)
    requires Agrees(defs, m)
    ensures Agrees(Run(defs, calls), MapRun(m, calls))
    decreases |calls|
  {
    if calls != [] {
      CallRefinesMap(defs, m, calls[0]);
      ListRefinesMap(Apply(defs, calls[0]), MapApply(m, calls[0]), calls[1..]);
    }
  }

  lemma {:induction false} CallRefinesMap(defs: Definitions, m: map<string, CString>, call: Call)
    requires Agrees(defs, m)
    ensures Agrees(Apply(defs, call), MapApply(m, call))
  {
    var next := Apply(defs, call);
    match call
    case Define(d, memory) =>
      if Lookup(defs, d.name).None? && memory {
        LookupFinds(defs, d.name);
        forall name: string
          ensures Lookup(next, name) ==
                  if name in MapApply(m, call) then Some(MapApply(m, call)[name]) else None
        {
          LookupAppend(defs, d, name);
        }
      }
    case Undefine(gone) =>
      WithoutKeepsUnique(defs, gone);
      forall name: string
        ensures Lookup(next, name) ==
                if name in MapApply(m, call) then Some(MapApply(m, call)[name]) else None
      {
        LookupWithout(defs, gone, name);
      }
  }

  lemma {:induction false} LookupWithout(defs: Definitions, gone: string, name: string)
    requires UniqueNames(defs)
    ensures Lookup(Without(defs, gone), name) == if name == gone then None else Lookup(defs, name)
  {
    if defs != [] {
      LookupWithout(defs[1..], gone, name);
      if defs[0].name == gone {
        LookupFinds(defs[1..], gone);
      }
    }
  }

  lemma {:induction false} WithoutIsPart(defs: Definitions, gone: string)
    ensures forall d | d in Without(defs, gone) :: d in defs
  {
    if defs != [] {
      WithoutIsPart(defs[1..], gone);
    }
  }

  lemma UniqueCons(d: Definition, defs: Definitions)
    requires UniqueNames(defs) && forall e | e in defs :: e.name != d.name
    ensures UniqueNames([d] + defs)
  {}

  lemma {:induction false} WithoutKeepsUnique(defs: Definitions, gone: string)
    requires UniqueNames(defs)
    ensures UniqueNames(Without(defs, gone))
  {
    if defs != [] {
      WithoutKeepsUnique(defs[1..], gone);
      WithoutIsPart(defs[1..], gone);
      UniqueCons(defs[0], Without(defs[1..], gone));
    }
  }

  predicate Mentions(call: Call, name: string) {
    match call
    case Define(d, _) => d.name == name
    case Undefine(gone) => gone == name
  }

  /** Defining a new name and later undefining it leaves the list as if it had never been
      defined, whatever calls about other names come in between. */
  lemma {:induction false} DefineUndefineRestores(defs: Definitions, d: Definition, calls: seq<Call>)
    requires Lookup(defs, d.name).None?
    requires forall call | call in calls :: !Mentions(call, d.name)
    ensures Apply(Run(Apply(defs, Define(d, true)), calls), Undefine(d.name)) == Run(defs, calls)
  {
    LookupFinds(defs, d.name);
    WithoutSplits(defs + [d], d.name, |defs|);
    LookupAppend(defs, d, d.name);
    assert Without(defs + [d], d.name) == defs;
    OthersUndisturbed(defs + [d], d.name, calls);
  }

  lemma {:induction false} OthersUndisturbed(defs: Definitions, name: string, calls: seq<Call>)
    requires Lookup(defs, name).Some?
    requires forall call | call in calls :: !Mentions(call, name)
    ensures Without(Run(defs, calls), name) == Run(Without(defs, name), calls)
    decreases |calls|
  {
    if calls != [] {
      assert !Mentions(calls[0], name);
      match calls[0] {
        case Define(d, _) =>
          WithoutAppend(defs, d, name);
          LookupOther(defs, name, d.name);
          LookupAppend(defs, d, name);
        case Undefine(gone) =>
          WithoutCommutes(defs, name, gone);
          LookupOther(defs, gone, name);
      }
      OthersUndisturbed(Apply(defs, calls[0]), name, calls[1..]);
    }
  }

  lemma {:induction false} WithoutAppend(defs: Definitions, d: Definition, name: string)
    requires d.name != name
    ensures Without(defs + [d], name) == Without(defs, name) + [d]
  {
    if defs != [] {
      assert (defs + [d])[1..] == defs[1..] + [d];
      WithoutAppend(defs[1..], d, name);
    }
  }

  lemma {:induction false} LookupOther(defs: Definitions, gone: string, name: string)
    requires gone != name
    ensures Lookup(Without(defs, gone), name) == Lookup(defs, name)
  {
    if defs != [] {
      LookupOther(defs[1..], gone, name);
    }
  }

  lemma {:induction false} WithoutCommutes(defs: Definitions, m: string, n: string)
    requires m != n
    ensures Without(Without(defs, m), n) == Without(Without(defs, n), m)
  {
    if defs != [] {
      WithoutCommutes(defs[1..], m, n);
    }
  }

  // ----- The linked list.

  class Macro {
    const name: string
    const value: CString
    var next: Macro?

    constructor (name: string, value: CString)
      ensures this.name == name && this.value == value && next == null
    {
      this.name, this.value, next := name, value, null;
    }
  }

  ghost function DefinitionsOf(nodes: seq<Macro>): (defs: Definitions)
    ensures |defs| == |nodes|
  {
    seq(|nodes|, i requires 0 <= i < |nodes| => Definition(nodes[i].name, nodes[i].value))
  }

  lemma MoreNodes(nodes: seq<Macro>, macro: Macro)
    ensures DefinitionsOf(nodes + [macro]) == DefinitionsOf(nodes) + [Definition(macro.name, macro.value)]
  {}

  lemma DropNode(was: seq<Macro>, i: nat)
    requires i < |was|
    ensures var nodes := was[..i] + was[i + 1..];
            && DefinitionsOf(nodes) == DefinitionsOf(was)[..i] + DefinitionsOf(was)[i + 1..]
            && (UniqueNames(DefinitionsOf(was)) ==> UniqueNames(DefinitionsOf(nodes)))
            && (forall k | 0 <= k < |nodes| :: nodes[k] == was[if k < i then k else k + 1])
  {
    var defs, nodes := DefinitionsOf(was), was[..i] + was[i + 1..];
    assert forall k | 0 <= k < |nodes| :: DefinitionsOf(nodes)[k] == defs[if k < i then k else k + 1];
  }

  /** The i-th node is followed by the next one, the last node by none. */
  ghost predicate LinkedAt(nodes: seq<Macro>, i: nat)
    requires i < |nodes|
    reads nodes
  {
    nodes[i].next == if i + 1 < |nodes| then nodes[i + 1] else null
  }

  class MacroTable {
    var macros: Macro?
    ghost var nodes: seq<Macro>
    ghost var owned: set<Macro>

    /** The list is the chain of the ghost nodes: finite, acyclic and ended by null. */
    ghost predicate Valid()
      reads this, owned
    {
      && (forall n | n in nodes :: n in owned)
      && macros == (if nodes == [] then null else nodes[0])
      && (forall i | 0 <= i < |nodes| :: LinkedAt(nodes, i))
      && (forall i, j | 0 <= i < j < |nodes| :: nodes[i] != nodes[j])
      && UniqueNames(Contents())
    }

    ghost function Contents(): Definitions
      reads this
    {
      DefinitionsOf(nodes)
    }

    constructor ()
      ensures Valid() && Contents() == [] && fresh(owned)
    {
      macros, nodes, owned := null, [], {};
    }

    method FindMacro(name: string) returns (value: Option<CString>)
      requires Valid()
      ensures value == Lookup(Contents(), name)
    {
      var p := macros;
      ghost var i := 0;
      while p != null
        invariant 0 <= i <= |nodes|
        invariant p == if i < |nodes| then nodes[i] else null
        invariant Lookup(Contents(), name) == Lookup(Contents()[i..], name)
        decreases |nodes| - i
      {
        assert p == nodes[i] && LinkedAt(nodes, i);
        if p.name == name {
          return Some(p.value);
        }
        p, i := p.next, i + 1;
      }
      return None;
    }

    /** The last node of the list, if there is one. */
    method FindLast() returns (prev: Macro?)
      requires Valid()
      ensures prev == if nodes != [] then nodes[|nodes| - 1] else null
    {
      var p: Macro? := macros;
      prev := null;
      ghost var i := 0;
      while p != null
        invariant 0 <= i <= |nodes|
        invariant p == if i < |nodes| then nodes[i] else null
        invariant prev == if i > 0 then nodes[i - 1] else null
        decreases |nodes| - i
      {
        assert p == nodes[i] && LinkedAt(nodes, i);
        prev, p, i := p, p.next, i + 1;
      }
    }

    method DefineMacro(name: string, value: CString, memory: bool) returns (status: int)
      requires Valid()
      modifies this, owned
      ensures Valid() && fresh(owned - old(owned))
      ensures Contents() == Apply(old(Contents()), Define(Definition(name, value), memory))
      ensures status == if Lookup(old(Contents()), name).None? && memory then 0 else -1
    {
      var found := FindMacro(name);
      if found.Some? || !memory {
        return -1;
      }
      LookupFinds(Contents(), name);
      var macro := new Macro(name, value);
      MoreNodes(nodes, macro);
      AppendNode(macro);
      return 0;
    }

    /** Put a node that is not in the list behind the last one. */
    method AppendNode(macro: Macro)
      requires Valid() && macro !in owned && macro.next == null
      requires UniqueNames(DefinitionsOf(nodes + [macro]))
      modifies this, owned
      ensures Valid() && owned == old(owned) + {macro} && nodes == old(nodes) + [macro]
    {
      ghost var was := nodes;
      var prev := FindLast();
      if prev != null {
        prev.next := macro;
      } else {
        macros := macro;
      }
      nodes, owned := was + [macro], owned + {macro};
      forall k | 0 <= k < |nodes|
        ensures LinkedAt(nodes, k)
      {
        assert k < |was| ==> old(LinkedAt(was, k));
      }
    }

    /** Relink the list around its i-th node. */
    method Unlink(prev: Macro?, p: Macro, ghost i: nat)
      requires Valid() && i < |nodes| && p == nodes[i]
      requires prev == if i > 0 then nodes[i - 1] else null
      modifies this, owned
      ensures Valid() && owned == old(owned) && nodes == old(nodes)[..i] + old(nodes)[i + 1..]
      ensures Contents() == old(Contents())[..i] + old(Contents())[i + 1..]
    {
      ghost var was := nodes;
      assert LinkedAt(was, i);
      if prev != null {
        prev.next := p.next;
      } else {
        macros := p.next;
      }
      nodes := was[..i] + was[i + 1..];
      DropNode(was, i);
      forall k | 0 <= k < |nodes|
        ensures LinkedAt(nodes, k)
      {
        assert old(LinkedAt(was, if k < i then k else k + 1));
      }
    }

    method UndefineMacro(name: string) returns (status: int)
      requires Valid()
      modifies this, owned
      ensures Valid() && owned == old(owned)
      ensures Contents() == Apply(old(Contents()), Undefine(name))
      ensures status == if Lookup(old(Contents()), name).Some? then 0 else -1
    {
      var p, prev: Macro? := macros, null;
      ghost var i := 0;
      while p != null
        invariant unchanged(this) && unchanged(owned)
        invariant 0 <= i <= |nodes|
        invariant p == if i < |nodes| then nodes[i] else null
        invariant prev == if i > 0 then nodes[i - 1] else null
        invariant forall j | 0 <= j < i :: nodes[j].name != name
        decreases |nodes| - i
      {
        assert p == nodes[i] && LinkedAt(nodes, i);
        if p.name == name {
          assert Contents()[i].name == name;
          LookupFinds(Contents(), name);
          WithoutSplits(Contents(), name, i);
          Unlink(prev, p, i);
          return 0;
        }
        prev, p, i := p, p.next, i + 1;
      }
      LookupFinds(Contents(), name);
      WithoutAbsent(Contents(), name);
      return -1;
    }
  }
}
