/**
 * The addon registry of `AddonProvider` (src/Addons/AddonProvider.php): which addon classes
 * are registered under which names, what they provide, which interfaces a name demands, and
 * loading an addon after its requirements.
 *
 * Reflection is a catalog: the static `name()`, `provides()` and `requires()` of a class and
 * the interfaces `class_implements` lists, or `None` for a class that does not exist. An
 * instance in `$addons` is represented by the class it was made from.
 */
module Addons {
  import opened Wrappers
  import opened Strings
  import opened PhpArrays

  const AddonInterface := "Leafcutter\\Addons\\AddonInterface"

  /** What reflection says about an addon class. */
  datatype AddonClass = AddonClass(name: string, provided: seq<string>, requirements: seq<string>, interfaces: seq<string>)

  type Catalog = string -> Option<AddonClass>

  datatype AddonError =
    | UnknownClass(cls: string)
    | NotAnAddon(cls: string)
    | MissingInterface(name: string, iface: string)
    | MissingRequirement(cls: string, req: string)
    | OutOfFuel

  /**
   * The four arrays of the provider. `provided` (`$provides`) keeps its insertion order, which the search
   * for a requirement's provider depends on.
   */
  datatype Registry = Registry(
    addons: map<string, string>,
    provided: PhpArray<seq<string>>,
    classes: map<string, string>,
    interfaces: map<string, seq<string>>)

  /** The registry after an operation, and what the operation returned or threw. */
  datatype Step = Step(reg: Registry, result: Result<string, AddonError>)

  /** `array_unique` on a list: the first occurrence of each value, in order. */
  function Unique(s: seq<string>): seq<string>
    decreases |s|
  {
    if |s| == 0 then []
    else
      var u := Unique(s[..|s| - 1]);
      if s[|s| - 1] in u then u else u + [s[|s| - 1]]
  }

  function InterfacesOf(reg: Registry, name: string): seq<string> {
    if name in reg.interfaces then reg.interfaces[name] else []
  }

  /** `requireInterface($name, $interface)`. */
  function InterfaceRequired(reg: Registry, name: string, iface: string): Registry {
    reg.(interfaces := reg.interfaces[name := Unique(InterfacesOf(reg, name) + [iface])])
  }

  /** `register($class)`. */
  function Registered(reg: Registry, cat: Catalog, cls: string): Step {
    match cat(cls)
    case None => Step(reg, Err(UnknownClass(cls)))
    case Some(c) =>
      if AddonInterface !in c.interfaces then Step(reg, Err(NotAnAddon(cls)))
      else if c.name in reg.addons then Step(reg, Ok(c.name))
      else Step(reg.(classes := reg.classes[c.name := cls], provided := Put(reg.provided, c.name, c.provided)), Ok(c.name))
  }

  /** `get($name)`: the instance loaded under the name, or null. */
  function Got(reg: Registry, name: string): Option<string> {
    if name in reg.addons then Some(reg.addons[name]) else None
  }

  /**
   * The interface check of `load`: the first name of `names` and interface it demands that
   * `impl` lacks, in the order the loops visit them.
   */
  function FirstMissing(reg: Registry, names: seq<string>, impl: seq<string>): Option<(string, string)>
    decreases |names|
  {
    if |names| == 0 then None
    else
      var m := MissingIn(InterfacesOf(reg, names[0]), impl);
      if m.Some? then Some((names[0], m.value)) else FirstMissing(reg, names[1..], impl)
  }

  function MissingIn(ifaces: seq<string>, impl: seq<string>): Option<string>
    decreases |ifaces|
  {
    if |ifaces| == 0 then None
    else if ifaces[0] !in impl then Some(ifaces[0])
    else MissingIn(ifaces[1..], impl)
  }

  /** The search of `array_reverse($this->provides)`: the last name registered as providing `req`. */
  function LastProvider(provided: PhpArray<seq<string>>, req: string): Option<string>
    decreases |provided|
  {
    if |provided| == 0 then None
    else if req in provided[|provided| - 1].1 then Some(provided[|provided| - 1].0)
    else LastProvider(provided[..|provided| - 1], req)
  }

  /** What `load` loads for a requirement: its last provider, else `classes[$req]`, if truthy. */
  function RequirementTarget(reg: Registry, req: string): Option<string> {
    var found := if LastProvider(reg.provided, req).Some? then LastProvider(reg.provided, req)
                 else if req in reg.classes then Some(reg.classes[req]) else None;
    if found.Some? && Truthy(found.value) then found else None
  }

  /** `$this->addons[$n] = new $class(...)` for every name of `names`. */
  function SetAll(addons: map<string, string>, names: seq<string>, cls: string): map<string, string>
    decreases |names|
  {
    if |names| == 0 then addons else SetAll(addons[names[0] := cls], names[1..], cls)
  }

  /** Whether `load` reads `name()` from its argument before looking the argument up in `classes`. */
  datatype Mode = AsWritten | Corrected

  /** The class `load` registers and instantiates: `$classes[$class]` when the argument is a registered name. */
  function Looked(reg: Registry, arg: string): string {
    if arg in reg.classes then reg.classes[arg] else arg
  }

  /** The class whose `name()` and `provides()` `load` reads: as written, the argument itself. */
  function Named(reg: Registry, arg: string, mode: Mode): string {
    if mode == AsWritten then arg else Looked(reg, arg)
  }

  /**
   * `load($class)` with a bound `fuel` on the depth of requirement loading; a cycle of
   * requirements, which PHP follows until the stack runs out, ends in `OutOfFuel`.
   */
  function Loading(reg: Registry, cat: Catalog, arg: string, fuel: nat, mode: Mode): Step
    decreases fuel, 1, 0
  {
    if fuel == 0 then Step(reg, Err(OutOfFuel))
    else
      var looked := Looked(reg, arg);
      var named := Named(reg, arg, mode);
      match cat(named)
      case None => Step(reg, Err(UnknownClass(named)))
      case Some(c0) =>
        var names := c0.provided + [c0.name];
        if c0.name in reg.addons then Step(reg, Ok(c0.name))
        else
          var s := Registered(reg, cat, looked);
          if s.result.Err? then s
          else
            var impl := cat(looked).value.interfaces;
            var missing := FirstMissing(s.reg, names, impl);
            if missing.Some? then Step(s.reg, Err(MissingInterface(missing.value.0, missing.value.1)))
            else
              var t := RequirementsLoaded(s.reg, cat, looked, cat(looked).value.requirements, 0, fuel - 1, mode);
              if t.result.Err? then t
              else Step(t.reg.(addons := SetAll(t.reg.addons, names, looked)), Ok(c0.name))
  }

  /** The requirement loop of `load` from index `i`: each requirement's target is loaded in turn. */
  function RequirementsLoaded(reg: Registry, cat: Catalog, cls: string, reqs: seq<string>, i: nat, fuel: nat, mode: Mode): Step
    requires i <= |reqs|
    decreases fuel, 2, |reqs| - i
  {
    if i == |reqs| then Step(reg, Ok(""))
    else
      var target := RequirementTarget(reg, reqs[i]);
      if target.None? then Step(reg, Err(MissingRequirement(cls, reqs[i])))
      else
        var s := Loading(reg, cat, target.value, fuel, mode);
        if s.result.Err? then s else RequirementsLoaded(s.reg, cat, cls, reqs, i + 1, fuel, mode)
  }

  class AddonProvider {
    var addons: map<string, string>
    var provided: PhpArray<seq<string>>
    var classes: map<string, string>
    var interfaces: map<string, seq<string>>

    /** The provider's arrays as a value. */
    function State(): Registry
      reads this
    {
      Registry(addons, provided, classes, interfaces)
    }

    /** A provider with nothing registered (the Composer addons are registered by the caller). */
    constructor()
      ensures State() == Registry(map[], [], map[], map[])
    {
      addons := map[];
      provided := [];
      classes := map[];
      interfaces := map[];
    }

    /** `requireInterface($name, $interface)`. */
    method RequireInterface(name: string, iface: string)
      modifies this`interfaces
      ensures State() == InterfaceRequired(old(State()), name, iface)
    {
      var list := if name in interfaces then interfaces[name] else [];
      list := list + [iface];
      var unique: seq<string> := [];
      var i := 0;
      while i < |list|
        invariant 0 <= i <= |list|
        invariant unique == Unique(list[..i])
        invariant unchanged(this)
      {
        assert list[..i + 1][..i] == list[..i];
        if list[i] !in unique {
          unique := unique + [list[i]];
        }
        i := i + 1;
      }
      assert list[..i] == list;
      interfaces := interfaces[name := unique];
    }

    /** `register($class)`. */
    method Register(cat: Catalog, cls: string) returns (r: Result<string, AddonError>)
      modifies this`classes, this`provided
      ensures Step(State(), r) == Registered(old(State()), cat, cls)
    {
      var c := cat(cls);
      if c.None? {
        return Err(UnknownClass(cls));
      }
      if AddonInterface !in c.value.interfaces {
        return Err(NotAnAddon(cls));
      }
      var name := c.value.name;
      if name in addons {
        return Ok(name);
      }
      classes := classes[name := cls];
      provided := Put(provided, name, c.value.provided);
      return Ok(name);
    }

    /** `get($name)`. */
    function Get(name: string): (r: Option<string>)
      reads this
      ensures r.None? <==> name !in addons
      ensures r.Some? ==> r.value == addons[name]
    {
      if name in addons then Some(addons[name]) else None
    }

    /** The interface check of `load`: the nested loops over names and their interfaces. */
    method CheckInterfaces(names: seq<string>, impl: seq<string>) returns (missing: Option<(string, string)>)
      ensures missing == FirstMissing(State(), names, impl)
    {
      var k := 0;
      while k < |names|
        invariant 0 <= k <= |names|
        invariant FirstMissing(State(), names, impl) == FirstMissing(State(), names[k..], impl)
      {
        var ifaces := if names[k] in interfaces then interfaces[names[k]] else [];
        var j := 0;
        while j < |ifaces|
          invariant 0 <= j <= |ifaces|
          invariant MissingIn(ifaces, impl) == MissingIn(ifaces[j..], impl)
        {
          if ifaces[j] !in impl {
            assert ifaces[j..][0] == ifaces[j];
            return Some((names[k], ifaces[j]));
          }
          assert ifaces[j..][1..] == ifaces[j + 1..];
          j := j + 1;
        }
        assert names[k..][1..] == names[k + 1..];
        k := k + 1;
      }
      return None;
    }

    /** The search of `load` for a requirement's provider, from the most recently registered. */
    method FindRequirement(req: string) returns (found: Option<string>)
      ensures found == RequirementTarget(State(), req)
    {
      var i := |provided|;
      found := None;
      assert provided[..i] == provided;
      while i > 0
        invariant 0 <= i <= |provided|
        invariant LastProvider(provided, req) == LastProvider(provided[..i], req)
      {
        assert provided[..i][..i - 1] == provided[..i - 1];
        if req in provided[i - 1].1 {
          found := Some(provided[i - 1].0);
          break;
        }
        i := i - 1;
      }
      if found.None? && req in classes {
        found := Some(classes[req]);
      }
      if found.Some? && !Truthy(found.value) {
        found := None;
      }
    }

    /**
     * `load($class)`. As written, `name()` and `provides()` are read from the argument; corrected,
     * from the class the argument is registered under.
     */
    method Load(cat: Catalog, arg: string, fuel: nat, mode: Mode) returns (r: Result<string, AddonError>)
      modifies this
      ensures Step(State(), r) == Loading(old(State()), cat, arg, fuel, mode)
      decreases fuel, 1
    {
      if fuel == 0 {
        return Err(OutOfFuel);
      }
      var cls := if arg in classes then classes[arg] else arg;
      var named := if mode == AsWritten then arg else cls;
      var c0 := cat(named);
      if c0.None? {
        return Err(UnknownClass(named));
      }
      var name := c0.value.name;
      var names := c0.value.provided + [name];
      if name in addons {
        return Ok(name);
      }
      r := Register(cat, cls);
      if r.Err? {
        return;
      }
      var c := cat(cls).value;
      var missing := CheckInterfaces(names, c.interfaces);
      if missing.Some? {
        return Err(MissingInterface(missing.value.0, missing.value.1));
      }
      r := LoadRequirements(cat, cls, c.requirements, fuel - 1, mode);
      if r.Err? {
        return;
      }
      SetNames(names, cls);
      return Ok(name);
    }

    /** The requirement loop of `load`: each requirement's provider is loaded in turn. */
    method LoadRequirements(cat: Catalog, cls: string, reqs: seq<string>, fuel: nat, mode: Mode) returns (r: Result<string, AddonError>)
      modifies this
      ensures Step(State(), r) == RequirementsLoaded(old(State()), cat, cls, reqs, 0, fuel, mode)
      decreases fuel, 2
    {
      var i := 0;
      while i < |reqs|
        invariant 0 <= i <= |reqs|
        invariant RequirementsLoaded(old(State()), cat, cls, reqs, 0, fuel, mode)
          == RequirementsLoaded(State(), cat, cls, reqs, i, fuel, mode)
      {
        var found := FindRequirement(reqs[i]);
        if found.None? {
          return Err(MissingRequirement(cls, reqs[i]));
        }
        r := Load(cat, found.value, fuel, mode);
        if r.Err? {
          return;
        }
        i := i + 1;
      }
      return Ok("");
    }

    /** The last loop of `load`: every name of the addon maps to the new instance. */
    method SetNames(names: seq<string>, cls: string)
      modifies this`addons
      ensures addons == SetAll(old(addons), names, cls)
    {
      var k := 0;
      while k < |names|
        invariant 0 <= k <= |names|
        invariant SetAll(old(addons), names, cls) == SetAll(addons, names[k..], cls)
      {
        assert names[k..][1..] == names[k + 1..];
        addons := addons[names[k] := cls];
        k := k + 1;
      }
    }
  }
}
