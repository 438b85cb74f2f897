/**
 The tool registry: core tools are always callable, hidden ones only while their time to live lasts.
 */
module Tools {
  import opened Basics

  datatype Tool = Tool(name: string, description: string)

  datatype Entry = Entry(tool: Tool, isCore: bool, ttl: int)

  datatype Op = Register(tool: Tool) | RegisterHidden(tool: Tool) | Promote(names: seq<string>, ttl: int) | Tick

  predicate Callable(tools: map<string, Entry>, name: string) {
    name in tools && (tools[name].isCore || tools[name].ttl > 0)
  }

  function Upto(names: seq<string>, n: nat): set<string>
    requires n <= |names|
  {
    set name | name in names[..n]
  }

  function Promoted(tools: map<string, Entry>, names: set<string>, ttl: int): map<string, Entry> {
    map name | name in tools :: if name in names && !tools[name].isCore then tools[name].(ttl := ttl) else tools[name]
  }

  function TickedEntry(entry: Entry): Entry {
    if !entry.isCore && entry.ttl > 0 then entry.(ttl := entry.ttl - 1) else entry
  }

  function Apply(tools: map<string, Entry>, op: Op): map<string, Entry> {
    match op
    case Register(tool) => tools[tool.name := Entry(tool, true, 0)]
    case RegisterHidden(tool) => tools[tool.name := Entry(tool, false, 0)]
    case Promote(names, ttl) => Promoted(tools, Upto(names, |names|), ttl)
    case Tick => map name | name in tools :: TickedEntry(tools[name])
  }

  function ApplyAll(tools: map<string, Entry>, ops: seq<Op>): map<string, Entry> {
    if ops == [] then tools else Apply(ApplyAll(tools, ops[..|ops| - 1]), ops[|ops| - 1])
  }

  /** What searches are made over. */
  function Hidden(tools: map<string, Entry>): set<Tool> {
    set name | name in tools && !tools[name].isCore :: tools[name].tool
  }

  // ----- how long a tool stays callable

  /** The operation takes `name` away from the callable tools. */
  predicate Revokes(tools: map<string, Entry>, op: Op, name: string)
    requires name in tools
  {
    match op
    case Register(_) => false
    case RegisterHidden(tool) => tool.name == name
    case Promote(names, ttl) => name in names && !tools[name].isCore && ttl <= 0
    case Tick => !tools[name].isCore && tools[name].ttl <= 1
  }

  /** A callable tool stays callable through an operation exactly when the operation does not take it away. */
  lemma StaysCallableExactly(tools: map<string, Entry>, op: Op, name: string)
    requires Callable(tools, name)
    ensures Callable(Apply(tools, op), name) <==> !Revokes(tools, op, name)
  {
  }

  /** Within an iteration nothing ticks: an offered tool stays callable unless it is hidden anew or promoted for no time. */
  lemma {:induction false} OfferedStaysCallable(tools: map<string, Entry>, ops: seq<Op>, name: string)
    requires Callable(tools, name)
    requires forall op :: op in ops ==>
      !op.Tick? && (op.RegisterHidden? ==> op.tool.name != name) && (op.Promote? && name in op.names ==> op.ttl > 0)
    ensures Callable(ApplyAll(tools, ops), name)
    decreases |ops|
  {
    if ops == [] {
    } else {
      OfferedStaysCallable(tools, ops[..|ops| - 1], name);
      StaysCallableExactly(ApplyAll(tools, ops[..|ops| - 1]), ops[|ops| - 1], name);
    }
  }

  function Ticks(ops: seq<Op>): nat {
    if ops == [] then 0 else Ticks(ops[..|ops| - 1]) + if ops[|ops| - 1].Tick? then 1 else 0
  }

  predicate Touches(op: Op, name: string) {
    match op
    case Register(tool) => tool.name == name
    case RegisterHidden(tool) => tool.name == name
    case Promote(names, _) => name in names
    case Tick => false
  }

  /** A promoted tool that nothing else touches is callable for exactly as many ticks as it was promoted for. */
  lemma {:induction false} PromotionLasts(tools: map<string, Entry>, names: seq<string>, ttl: int, ops: seq<Op>, name: string)
    requires name in names && name in tools && !tools[name].isCore
    requires forall op :: op in ops ==> !Touches(op, name)
    ensures var after := ApplyAll(Apply(tools, Promote(names, ttl)), ops);
      && name in after && !after[name].isCore
      && after[name].ttl == (if ttl <= 0 then ttl else Max(ttl - Ticks(ops), 0))
      && (Callable(after, name) <==> Ticks(ops) < ttl)
    decreases |ops|
  {
    if ops == [] {
    } else {
      PromotionLasts(tools, names, ttl, ops[..|ops| - 1], name);
      assert ops[|ops| - 1] in ops;
    }
  }

  /**
   A tool that a search finds is promoted during an iteration that ends in a tick, so the next request offers it
   if and only if it was promoted for at least two.
   */
  lemma FoundIsOfferedExactly(tools: map<string, Entry>, names: seq<string>, ttl: int, ops: seq<Op>, name: string)
    requires name in names && name in tools && !tools[name].isCore
    requires forall op :: op in ops ==> !op.Tick? && !Touches(op, name)
    ensures Callable(ApplyAll(Apply(tools, Promote(names, ttl)), ops + [Tick]), name) <==> ttl >= 2
  {
    hide Apply, ApplyAll, Touches;
    TickTouchesNothing(ops, name);
    PromotionLasts(tools, names, ttl, ops + [Tick], name);
    NoTicks(ops);
    assert (ops + [Tick])[..|ops|] == ops;
  }

  lemma TickTouchesNothing(ops: seq<Op>, name: string)
    requires forall op :: op in ops ==> !Touches(op, name)
    ensures forall op :: op in ops + [Tick] ==> !Touches(op, name)
  {
  }

  lemma {:induction false} NoTicks(ops: seq<Op>)
    requires forall op :: op in ops ==> !op.Tick?
    ensures Ticks(ops) == 0
    decreases |ops|
  {
    if ops == [] {
    } else {
      NoTicks(ops[..|ops| - 1]);
      assert ops[|ops| - 1] in ops;
    }
  }

  /** What is searched only changes when tools are registered. */
  lemma HiddenChangesWithVersion(tools: map<string, Entry>, op: Op)
    requires op.Promote? || op.Tick?
    ensures Hidden(Apply(tools, op)) == Hidden(tools)
  {
    var after := Apply(tools, op);
    assert after.Keys == tools.Keys;
    assert forall name :: name in tools ==> after[name].tool == tools[name].tool && after[name].isCore == tools[name].isCore;
  }

  /** The tool under each name is registered under its own name. */
  ghost predicate Named(tools: map<string, Entry>) {
    forall name :: name in tools ==> tools[name].tool.name == name
  }

  predicate Registers(op: Op, name: string) {
    (op.Register? || op.RegisterHidden?) && op.tool.name == name
  }

  /** A registered core tool is callable and not searched, one registered as hidden is searched and not callable; no other changes. */
  lemma RegistrationDecides(tools: map<string, Entry>, op: Op, other: Tool)
    requires Named(tools) && (op.Register? || op.RegisterHidden?)
    ensures Named(Apply(tools, op))
    ensures op.Register? <==> Callable(Apply(tools, op), op.tool.name)
    ensures op.RegisterHidden? <==> op.tool in Hidden(Apply(tools, op))
    ensures other.name == op.tool.name && other != op.tool ==> other !in Hidden(Apply(tools, op))
    ensures other.name != op.tool.name ==>
      && (other in Hidden(Apply(tools, op)) <==> other in Hidden(tools))
      && (Callable(Apply(tools, op), other.name) <==> Callable(tools, other.name))
  {
    var after := Apply(tools, op);
    assert forall name :: name in after ==> after[name].tool.name == name;
    if op.RegisterHidden? {
      assert !after[op.tool.name].isCore && after[op.tool.name].tool == op.tool;
    }
    if other in Hidden(tools) && other.name != op.tool.name {
      assert after[other.name] == tools[other.name];
    }
  }

  lemma StaysNamed(tools: map<string, Entry>, op: Op)
    requires Named(tools) && (op.Promote? || op.Tick?)
    ensures Named(Apply(tools, op))
  {
  }

  /** The operation at `i` added the tool as a hidden one, and no later one registers its name. */
  ghost predicate AddedHiddenAt(ops: seq<Op>, tool: Tool, i: int) {
    0 <= i < |ops| && ops[i] == RegisterHidden(tool) && forall j :: i < j < |ops| ==> !Registers(ops[j], tool.name)
  }

  /** After any operations on a new registry, a tool is searched if and only if the last registration of its name added it as hidden. */
  lemma {:induction false} SearchedExactly(ops: seq<Op>, tool: Tool)
    ensures Named(ApplyAll(map[], ops))
    ensures tool in Hidden(ApplyAll(map[], ops)) <==> exists i :: AddedHiddenAt(ops, tool, i)
    decreases |ops|
  {
    hide Apply, Hidden, Named;
    if ops == [] {
      NothingHidden(tool);
    } else {
      var n := |ops| - 1;
      SearchedExactly(ops[..n], tool);
      AddedHiddenGrows(ops, tool);
      if ops[n].Register? || ops[n].RegisterHidden? {
        RegistrationDecides(ApplyAll(map[], ops[..n]), ops[n], tool);
      } else {
        StaysNamed(ApplyAll(map[], ops[..n]), ops[n]);
        HiddenChangesWithVersion(ApplyAll(map[], ops[..n]), ops[n]);
      }
    }
  }

  lemma NothingHidden(tool: Tool)
    ensures Named(map[]) && tool !in Hidden(map[])
  {
  }

  lemma AddedHiddenGrows(ops: seq<Op>, tool: Tool)
    requires ops != []
    ensures var n := |ops| - 1;
      (exists i :: AddedHiddenAt(ops, tool, i)) <==>
        ops[n] == RegisterHidden(tool) || (!Registers(ops[n], tool.name) && exists i :: AddedHiddenAt(ops[..n], tool, i))
  {
    var n := |ops| - 1;
    if i :| AddedHiddenAt(ops, tool, i) {
      assert i < n ==> AddedHiddenAt(ops[..n], tool, i);
    }
    if ops[n] == RegisterHidden(tool) {
      assert AddedHiddenAt(ops, tool, n);
    } else if !Registers(ops[n], tool.name) && exists i :: AddedHiddenAt(ops[..n], tool, i) {
      var i :| AddedHiddenAt(ops[..n], tool, i);
      assert AddedHiddenAt(ops, tool, i);
    }
  }

  lemma PromotedNone(tools: map<string, Entry>, ttl: int)
    ensures forall names :: Promoted(tools, Upto(names, 0), ttl) == tools
  {
  }

  lemma PromotedOne(tools: map<string, Entry>, names: seq<string>, i: nat, ttl: int)
    requires i < |names|
    ensures var name := names[i];
      var before, after := Promoted(tools, Upto(names, i), ttl), Promoted(tools, Upto(names, i + 1), ttl);
      after == if name in before && !before[name].isCore then before[name := before[name].(ttl := ttl)] else before
    ensures Promoted(tools, Upto(names, i), ttl).Keys == tools.Keys
  {
    assert names[..i + 1] == names[..i] + [names[i]];
  }

  // ----- the registry as it runs

  /** `hiddenAt` remembers the hidden tools at every version. */
  class ToolRegistry {
    var tools: map<string, Entry>
    var version: nat
    ghost var hiddenAt: seq<set<Tool>>

    ghost predicate Valid()
      reads this
    {
      && |hiddenAt| == version + 1 && hiddenAt[0] == {} && hiddenAt[version] == Hidden(tools)
      && forall name :: name in tools ==> tools[name].tool.name == name
    }

    constructor ()
      ensures Valid() && tools == map[] && version == 0
    {
      tools, version, hiddenAt := map[], 0, [{}];
    }

    method RegisterCore(tool: Tool)
      requires Valid()
      modifies this
      ensures Valid() && tools == Apply(old(tools), Register(tool))
      ensures version == old(version) + 1 && hiddenAt[..version] == old(hiddenAt)
    {
      tools := tools[tool.name := Entry(tool, true, 0)];
      version := version + 1;
      hiddenAt := hiddenAt + [Hidden(tools)];
    }

    method AddHidden(tool: Tool)
      requires Valid()
      modifies this
      ensures Valid() && tools == Apply(old(tools), RegisterHidden(tool))
      ensures version == old(version) + 1 && hiddenAt[..version] == old(hiddenAt)
    {
      tools := tools[tool.name := Entry(tool, false, 0)];
      version := version + 1;
      hiddenAt := hiddenAt + [Hidden(tools)];
    }

    method PromoteTools(names: seq<string>, ttl: int)
      requires Valid()
      modifies this`tools
      ensures Valid() && tools == Apply(old(tools), Promote(names, ttl))
    {
      HiddenChangesWithVersion(tools, Promote(names, ttl));
      hide Hidden, Promoted;
      PromotedNone(tools, ttl);
      for i := 0 to |names|
        invariant tools == Promoted(old(tools), Upto(names, i), ttl)
      {
        var name := names[i];
        PromotedOne(old(tools), names, i, ttl);
        if name in tools {
          var entry := tools[name];
          if !entry.isCore {
            tools := tools[name := entry.(ttl := ttl)];
          }
        }
      }
      assert names[..|names|] == names;
    }

    method TickTTL()
      requires Valid()
      modifies this`tools
      ensures Valid() && tools == Apply(old(tools), Tick)
    {
      HiddenChangesWithVersion(tools, Tick);
      var rest := tools.Keys;
      while rest != {}
        invariant tools.Keys == old(tools).Keys && rest <= tools.Keys
        invariant forall name :: name in tools ==>
          tools[name] == if name in rest then old(tools)[name] else TickedEntry(old(tools)[name])
        decreases rest
      {
        var name :| name in rest;
        rest := rest - {name};
        var entry := tools[name];
        if !entry.isCore && entry.ttl > 0 {
          tools := tools[name := entry.(ttl := entry.ttl - 1)];
        }
      }
    }

    method Get(name: string) returns (tool: Option<Tool>)
      ensures tool == if Callable(tools, name) then Some(tools[name].tool) else None
    {
      if name !in tools {
        return None;
      }
      var entry := tools[name];
      if !entry.isCore && entry.ttl <= 0 {
        return None;
      }
      return Some(entry.tool);
    }

    /** The definitions sent to the model: exactly the tools that `Get` finds, each once, under the names it finds them by. */
    method ToProviderDefs() returns (definitions: seq<Tool>)
      requires Valid()
      ensures forall tool :: tool in definitions <==> Callable(tools, tool.name) && tools[tool.name].tool == tool
      ensures forall i, j :: 0 <= i < j < |definitions| ==> definitions[i].name != definitions[j].name
    {
      definitions := [];
      var rest := tools.Keys;
      while rest != {}
        invariant rest <= tools.Keys
        invariant forall tool :: tool in definitions <==>
          Callable(tools, tool.name) && tools[tool.name].tool == tool && tool.name !in rest
        invariant forall i, j :: 0 <= i < j < |definitions| ==> definitions[i].name != definitions[j].name
        decreases rest
      {
        var name :| name in rest;
        rest := rest - {name};
        var entry := tools[name];
        if !entry.isCore && entry.ttl <= 0 {
          continue;
        }
        assert forall i :: 0 <= i < |definitions| ==> definitions[i] in definitions;
        definitions := definitions + [entry.tool];
      }
    }

    method SnapshotHiddenTools() returns (docs: set<Tool>, version: nat)
      ensures docs == Hidden(tools) && version == this.version
      ensures forall tool :: tool in docs <==> exists name :: name in tools && !tools[name].isCore && tools[name].tool == tool
    {
      docs := set name | name in tools && !tools[name].isCore :: tools[name].tool;
      version := this.version;
    }
  }
}
