/** Properties of the addon registry (src/Addons/AddonProvider.php). */
module AddonProofs {
  import opened Wrappers
  import opened Strings
  import opened PhpArrays
  import opened Addons

  predicate Distinct(s: seq<string>) {
    forall i, j :: 0 <= i < j < |s| ==> s[i] != s[j]
  }

  /** `array_unique` drops repeats and nothing else. */
  lemma {:induction false} UniqueFacts(s: seq<string>)
    ensures Distinct(Unique(s))
    ensures forall x :: x in Unique(s) <==> x in s
    decreases |s|
  {
    if |s| > 0 {
      UniqueFacts(s[..|s| - 1]);
      assert forall x :: x in s <==> x in s[..|s| - 1] || x == s[|s| - 1];
    }
  }

  /** A list without repeats is its own `array_unique`. */
  lemma {:induction false} UniqueOfDistinct(s: seq<string>)
    requires Distinct(s)
    ensures Unique(s) == s
    decreases |s|
  {
    if |s| > 0 {
      UniqueOfDistinct(s[..|s| - 1]);
      assert s[|s| - 1] !in s[..|s| - 1];
    }
  }

  /** The list `requireInterface` stores has no repeats and holds the old names and the new one. */
  lemma {:induction false} InterfaceListFacts(old_: seq<string>, iface: string)
    ensures Distinct(Unique(old_ + [iface]))
    ensures forall x :: x in Unique(old_ + [iface]) <==> x in old_ || x == iface
    ensures iface in Unique(old_ + [iface])
  {
    var l := old_ + [iface];
    UniqueFacts(l);
    assert forall x :: x in l <==> x in old_ || x == iface;
  }

  /** The stored list has no repeats and holds the new name. */
  lemma {:induction false} InterfaceListHolds(old_: seq<string>, iface: string)
    ensures Distinct(Unique(old_ + [iface])) && iface in Unique(old_ + [iface])
  {
    var l := old_ + [iface];
    UniqueFacts(l);
    assert l[|old_|] == iface;
  }

  /** A second identical `requireInterface` call changes nothing. */
  lemma {:induction false} InterfaceRequiredTwice(reg: Registry, name: string, iface: string)
    ensures var r := InterfaceRequired(reg, name, iface); InterfaceRequired(r, name, iface) == r
  {
    var old_ := InterfacesOf(reg, name);
    var u := Unique(old_ + [iface]);
    assert Unique(u + [iface]) == u by {
      InterfaceListHolds(old_, iface);
      UniqueAgain(u, iface);
    }
    var r := InterfaceRequired(reg, name, iface);
    assert r.interfaces == reg.interfaces[name := u];
    assert InterfacesOf(r, name) == u;
    assert r.interfaces[name := u] == r.interfaces;
    assert InterfaceRequired(r, name, iface) == r.(interfaces := r.interfaces[name := u]);
  }

  /**
   * `requireInterface` keeps a list without repeats that gains the interface and loses
   * nothing, touches no other name, and a second identical call changes nothing.
   */
  lemma {:induction false} InterfaceRequiredFacts(reg: Registry, name: string, iface: string)
    ensures var r := InterfaceRequired(reg, name, iface);
      Distinct(InterfacesOf(r, name))
      && (forall x :: x in InterfacesOf(r, name) <==> x in InterfacesOf(reg, name) || x == iface)
      && (forall n :: n != name ==> InterfacesOf(r, n) == InterfacesOf(reg, n))
      && r.addons == reg.addons && r.provided == reg.provided && r.classes == reg.classes
      && InterfaceRequired(r, name, iface) == r
  {
    InterfaceListFacts(InterfacesOf(reg, name), iface);
    InterfaceRequiredTwice(reg, name, iface);
  }

  /** Adding a value already present to a list without repeats changes nothing. */
  lemma {:induction false} UniqueAgain(u: seq<string>, x: string)
    requires Distinct(u) && x in u
    ensures Unique(u + [x]) == u
  {
    UniqueOfDistinct(u);
    assert (u + [x])[..|u|] == u;
  }

  /**
   * `register` throws for a class that does not exist or is no addon; for a name already
   * loaded it returns the name and changes nothing; otherwise it records the class and what
   * it provides under the name, and touches nothing else.
   */
  lemma {:induction false} RegisteredFacts(reg: Registry, cat: Catalog, cls: string)
    ensures var s := Registered(reg, cat, cls);
      (s.result.Err? ==> s.reg == reg)
      && (s.result == Err(UnknownClass(cls)) <==> cat(cls).None?)
      && (s.result == Err(NotAnAddon(cls)) <==> cat(cls).Some? && AddonInterface !in cat(cls).value.interfaces)
      && (s.result.Ok? ==> s.result.value == cat(cls).value.name)
      && (s.result.Ok? && cat(cls).value.name in reg.addons ==> s.reg == reg)
      && (s.result.Ok? && cat(cls).value.name !in reg.addons ==>
            s.reg.classes == reg.classes[cat(cls).value.name := cls]
            && Lookup(s.reg.provided, cat(cls).value.name) == Some(cat(cls).value.provided)
            && (forall n :: n != cat(cls).value.name ==> Lookup(s.reg.provided, n) == Lookup(reg.provided, n))
            && s.reg.addons == reg.addons && s.reg.interfaces == reg.interfaces)
  {
    if cat(cls).Some? {
      var c := cat(cls).value;
      forall n ensures Lookup(Put(reg.provided, c.name, c.provided), n) == if n == c.name then Some(c.provided) else Lookup(reg.provided, n) {
        PutLookup(reg.provided, c.name, c.provided, n);
      }
    }
  }

  /**
   * The provider search finds the most recently registered name providing the requirement,
   * and finds none only when no name provides it.
   */
  lemma {:induction false} LastProviderFacts(p: PhpArray<seq<string>>, req: string)
    ensures var f := LastProvider(p, req);
      (f.Some? ==> exists i :: 0 <= i < |p| && p[i].0 == f.value && req in p[i].1
                     && forall j :: i < j < |p| ==> req !in p[j].1)
      && (f.None? <==> forall i :: 0 <= i < |p| ==> req !in p[i].1)
    decreases |p|
  {
    if |p| > 0 && req !in p[|p| - 1].1 {
      var q := p[..|p| - 1];
      LastProviderFacts(q, req);
      if LastProvider(q, req).Some? {
        var i :| 0 <= i < |q| && q[i].0 == LastProvider(q, req).value && req in q[i].1
          && forall j :: i < j < |q| ==> req !in q[j].1;
        assert p[i] == q[i];
        assert forall j :: i < j < |p| ==> req !in p[j].1 by {
          forall j | i < j < |p| ensures req !in p[j].1 {
            if j < |q| {
              assert p[j] == q[j];
            }
          }
        }
      } else {
        assert forall i :: 0 <= i < |q| ==> p[i] == q[i];
      }
    }
  }

  /** A requirement nobody provides and no class is registered under makes `load` throw. */
  lemma {:induction false} RequirementMissing(reg: Registry, cat: Catalog, cls: string, reqs: seq<string>, i: nat, fuel: nat, mode: Mode)
    requires i < |reqs|
    requires forall k :: 0 <= k < |reg.provided| ==> reqs[i] !in reg.provided[k].1
    requires reqs[i] !in reg.classes
    ensures RequirementsLoaded(reg, cat, cls, reqs, i, fuel, mode) == Step(reg, Err(MissingRequirement(cls, reqs[i])))
  {
    LastProviderFacts(reg.provided, reqs[i]);
  }

  /** The interface check finds a missing interface exactly when some name demands one `impl` lacks. */
  lemma {:induction false} FirstMissingFacts(reg: Registry, names: seq<string>, impl: seq<string>)
    ensures var m := FirstMissing(reg, names, impl);
      (m.Some? ==> m.value.0 in names && m.value.1 in InterfacesOf(reg, m.value.0) && m.value.1 !in impl)
      && (m.None? <==> forall k, x :: 0 <= k < |names| && x in InterfacesOf(reg, names[k]) ==> x in impl)
    decreases |names|
  {
    if |names| > 0 {
      MissingInFacts(InterfacesOf(reg, names[0]), impl);
      FirstMissingFacts(reg, names[1..], impl);
      assert forall k :: 1 <= k < |names| ==> names[k] == names[1..][k - 1];
      assert forall n :: n in names[1..] ==> n in names;
    }
  }

  lemma {:induction false} MissingInFacts(ifaces: seq<string>, impl: seq<string>)
    ensures var m := MissingIn(ifaces, impl);
      (m.Some? ==> m.value in ifaces && m.value !in impl)
      && (m.None? <==> forall x :: x in ifaces ==> x in impl)
    decreases |ifaces|
  {
    if |ifaces| > 0 {
      MissingInFacts(ifaces[1..], impl);
      assert forall x :: x in ifaces <==> x == ifaces[0] || x in ifaces[1..];
    }
  }

  /** Loading a class whose name is already loaded returns the name and changes nothing. */
  lemma {:induction false} LoadedIsNoop(reg: Registry, cat: Catalog, arg: string, fuel: nat, mode: Mode)
    requires fuel > 0
    requires cat(Named(reg, arg, mode)).Some? && cat(Named(reg, arg, mode)).value.name in reg.addons
    ensures Loading(reg, cat, arg, fuel, mode) == Step(reg, Ok(cat(Named(reg, arg, mode)).value.name))
  {
  }

  /** Every name of `names` maps to the class, and no other name changes. */
  lemma {:induction false} SetAllFacts(addons: map<string, string>, names: seq<string>, cls: string)
    ensures forall n :: n in SetAll(addons, names, cls) <==> n in addons || n in names
    ensures forall n :: n in names ==> n in SetAll(addons, names, cls) && SetAll(addons, names, cls)[n] == cls
    ensures forall n :: n in addons && n !in names ==> n in SetAll(addons, names, cls) && SetAll(addons, names, cls)[n] == addons[n]
    decreases |names|
  {
    if |names| > 0 {
      SetAllFacts(addons[names[0] := cls], names[1..], cls);
      assert forall n :: n in names <==> n == names[0] || n in names[1..];
    }
  }

  /**
   * Loading never unloads: every name loaded before is loaded after, success or not. A
   * successful load leaves the returned name loaded, so `get` finds it.
   */
  lemma {:induction false} LoadingKeeps(reg: Registry, cat: Catalog, arg: string, fuel: nat, mode: Mode)
    ensures var s := Loading(reg, cat, arg, fuel, mode);
      (forall n :: n in reg.addons ==> n in s.reg.addons)
      && (s.result.Ok? ==> s.result.value in s.reg.addons && Got(s.reg, s.result.value).Some?)
    decreases fuel, 1, 0
  {
    if fuel > 0 {
      var r := Loading(reg, cat, arg, fuel, mode);
      var looked := if arg in reg.classes then reg.classes[arg] else arg;
      var named := if mode == AsWritten then arg else looked;
      match cat(named)
      case None =>
        assert r.reg == reg;
      case Some(c0) =>
        var names := c0.provided + [c0.name];
        if c0.name in reg.addons {
          assert r == Step(reg, Ok(c0.name));
        } else {
          var s := Registered(reg, cat, looked);
          assert s.reg.addons == reg.addons;
          if s.result.Err? {
            assert r == s;
          } else {
            var missing := FirstMissing(s.reg, names, cat(looked).value.interfaces);
            if missing.Some? {
              assert r.reg == s.reg && r.result.Err?;
            } else {
              var reqs := cat(looked).value.requirements;
              RequirementsKeep(s.reg, cat, looked, reqs, 0, fuel - 1, mode);
              var t := RequirementsLoaded(s.reg, cat, looked, reqs, 0, fuel - 1, mode);
              if t.result.Ok? {
                SetAllFacts(t.reg.addons, names, looked);
                assert c0.name in names;
                assert r == Step(t.reg.(addons := SetAll(t.reg.addons, names, looked)), Ok(c0.name));
              } else {
                assert r == t;
              }
            }
          }
        }
    }
  }

  lemma {:induction false} RequirementsKeep(reg: Registry, cat: Catalog, cls: string, reqs: seq<string>, i: nat, fuel: nat, mode: Mode)
    requires i <= |reqs|
    ensures forall n :: n in reg.addons ==> n in RequirementsLoaded(reg, cat, cls, reqs, i, fuel, mode).reg.addons
    decreases fuel, 2, |reqs| - i
  {
    if i < |reqs| {
      var target := RequirementTarget(reg, reqs[i]);
      if target.Some? {
        LoadingKeeps(reg, cat, target.value, fuel, mode);
        var s := Loading(reg, cat, target.value, fuel, mode);
        if s.result.Ok? {
          RequirementsKeep(s.reg, cat, cls, reqs, i + 1, fuel, mode);
        }
      }
    }
  }

  /**
   * A successful load of an addon that was not loaded yet maps its name and every name it
   * provides to it.
   */
  lemma {:induction false} LoadedNames(reg: Registry, cat: Catalog, arg: string, fuel: nat, mode: Mode)
    requires cat(Named(reg, arg, mode)).Some? && cat(Named(reg, arg, mode)).value.name !in reg.addons
    ensures var c := cat(Named(reg, arg, mode)).value;
      var s := Loading(reg, cat, arg, fuel, mode);
      s.result.Ok? ==> forall n :: n in c.provided + [c.name] ==> Got(s.reg, n) == Some(Looked(reg, arg))
  {
    var cls := Looked(reg, arg);
    var c := cat(Named(reg, arg, mode)).value;
    var s := Loading(reg, cat, arg, fuel, mode);
    if s.result.Ok? && fuel > 0 {
      var names := c.provided + [c.name];
      var r := Registered(reg, cat, cls);
      var t := RequirementsLoaded(r.reg, cat, cls, cat(cls).value.requirements, 0, fuel - 1, mode);
      assert s.reg.addons == SetAll(t.reg.addons, names, cls);
      SetAllFacts(t.reg.addons, names, cls);
    }
  }

  /** Writing a key with the value it already has changes nothing. */
  lemma {:induction false} PutSame<V>(a: PhpArray<V>, i: nat)
    requires i < |a| && forall j :: 0 <= j < i ==> a[j].0 != a[i].0
    ensures Put(a, a[i].0, a[i].1) == a
  {
    PutAt(a, a[i].0, a[i].1, i);
    assert a[i..] == [a[i]] + a[i + 1..];
    assert a == a[..i] + a[i..];
  }

  /**
   * The class `x` is registered under its name and not loaded, passes the interface check,
   * and its first requirement resolves to the class `y`.
   */
  predicate FirstRequires(reg: Registry, cat: Catalog, x: string, y: string) {
    && x !in reg.classes && cat(x).Some?
    && var c := cat(x).value;
    && AddonInterface in c.interfaces && c.name !in reg.addons
    && c.name in reg.classes && reg.classes[c.name] == x
    && Lookup(reg.provided, c.name) == Some(c.provided)
    && FirstMissing(reg, c.provided + [c.name], c.interfaces) == None
    && |c.requirements| > 0 && RequirementTarget(reg, c.requirements[0]) == Some(y)
  }

  /**
   * A requirement cycle never loads, in either mode: the requirements are loaded before the
   * addon is entered in `$addons`, so two addons that first require each other call each
   * other's load until the fuel (in PHP the stack) runs out.
   */
  lemma {:induction false} CycleNeverLoads(reg: Registry, cat: Catalog, x: string, y: string, fuel: nat, mode: Mode)
    requires FirstRequires(reg, cat, x, y) && FirstRequires(reg, cat, y, x)
    ensures Loading(reg, cat, x, fuel, mode) == Step(reg, Err(OutOfFuel))
    ensures Loading(reg, cat, y, fuel, mode) == Step(reg, Err(OutOfFuel))
    decreases fuel
  {
    if fuel > 0 {
      CycleNeverLoads(reg, cat, x, y, fuel - 1, mode);
      CycleStep(reg, cat, x, y, fuel, mode);
      CycleStep(reg, cat, y, x, fuel, mode);
    }
  }

  /** One load of the cycle fails as soon as the load of the class it requires first fails. */
  lemma {:induction false} CycleStep(reg: Registry, cat: Catalog, x: string, y: string, fuel: nat, mode: Mode)
    requires FirstRequires(reg, cat, x, y)
    requires fuel > 0 && Loading(reg, cat, y, fuel - 1, mode) == Step(reg, Err(OutOfFuel))
    ensures Loading(reg, cat, x, fuel, mode) == Step(reg, Err(OutOfFuel))
  {
    var c := cat(x).value;
    PutFound(reg.provided, c.name, c.provided);
    assert reg.classes[c.name := x] == reg.classes;
    assert Registered(reg, cat, x) == Step(reg, Ok(c.name));
    assert RequirementsLoaded(reg, cat, x, c.requirements, 0, fuel - 1, mode) == Step(reg, Err(OutOfFuel));
  }

  /** Writing a key with the value it already has changes nothing. */
  lemma {:induction false} PutFound<V>(a: PhpArray<V>, k: string, v: V)
    requires Lookup(a, k) == Some(v)
    ensures Put(a, k, v) == a
    decreases |a|
  {
    if a[0].0 != k {
      PutFound(a[1..], k, v);
    }
  }

  /** An app requiring `dep-api`, which the registered (not loaded) addon `dep` provides. */
  function DepCatalog(): Catalog {
    (c: string) =>
      if c == "Vendor\\Dep" then Some(AddonClass("dep", ["dep-api"], [], [AddonInterface]))
      else if c == "Vendor\\App" then Some(AddonClass("app", [], ["dep-api"], [AddonInterface]))
      else None
  }

  function DepRegistry(): Registry {
    Registry(map[], [("dep", ["dep-api"])], map["dep" := "Vendor\\Dep"], map[])
  }

  /**
   * As written, `load` resolves the requirement to the provider's addon name `dep` and then
   * calls `dep::name()`, a class that does not exist, before the lookup in `classes` that
   * would have found `Vendor\Dep`.
   */
  lemma {:induction false} ProviderByNameFailsAsWritten()
    ensures Loading(DepRegistry(), DepCatalog(), "Vendor\\App", 2, AsWritten).result == Err(UnknownClass("dep"))
  {
    var reg := DepRegistry();
    var cat := DepCatalog();
    assert cat("Vendor\\App") == Some(AddonClass("app", [], ["dep-api"], [AddonInterface]));
    assert cat("dep") == None;
    var r1 := Registered(reg, cat, "Vendor\\App");
    assert r1.reg.provided == [("dep", ["dep-api"]), ("app", [])];
    assert "dep" in r1.reg.classes && "Vendor\\App" !in reg.classes;
    assert FirstMissing(r1.reg, [] + ["app"], [AddonInterface]) == None;
    assert LastProvider(r1.reg.provided, "dep-api") == Some("dep");
    assert RequirementTarget(r1.reg, "dep-api") == Some("dep");
    assert Loading(r1.reg, cat, "dep", 1, AsWritten) == Step(r1.reg, Err(UnknownClass("dep")));
    assert RequirementsLoaded(r1.reg, cat, "Vendor\\App", ["dep-api"], 0, 1, AsWritten) == Step(r1.reg, Err(UnknownClass("dep")));
  }

  /** With the lookup first, the same load succeeds and loads the provider before the app. */
  lemma {:induction false} ProviderByNameLoadsCorrected()
    ensures var s := Loading(DepRegistry(), DepCatalog(), "Vendor\\App", 2, Corrected);
      s.result == Ok("app") && Got(s.reg, "dep-api") == Some("Vendor\\Dep") && Got(s.reg, "app") == Some("Vendor\\App")
  {
    var reg := DepRegistry();
    var cat := DepCatalog();
    var dep := AddonClass("dep", ["dep-api"], [], [AddonInterface]);
    assert cat("Vendor\\App") == Some(AddonClass("app", [], ["dep-api"], [AddonInterface]));
    assert cat("Vendor\\Dep") == Some(dep);
    var r1 := Registered(reg, cat, "Vendor\\App");
    assert r1.reg.provided == [("dep", ["dep-api"]), ("app", [])];
    assert "dep" in r1.reg.classes && "Vendor\\App" !in reg.classes;
    assert FirstMissing(r1.reg, [] + ["app"], [AddonInterface]) == None;
    assert LastProvider(r1.reg.provided, "dep-api") == Some("dep");
    assert RequirementTarget(r1.reg, "dep-api") == Some("dep");
    var r2 := Registered(r1.reg, cat, "Vendor\\Dep");
    PutSame(r1.reg.provided, 0);
    assert r1.reg.classes["dep" := "Vendor\\Dep"] == r1.reg.classes;
    assert r2 == Step(r1.reg, Ok("dep"));
    assert FirstMissing(r1.reg, ["dep"], [AddonInterface]) == None;
    assert (["dep-api"] + ["dep"])[1..] == ["dep"];
    assert FirstMissing(r1.reg, ["dep-api"] + ["dep"], [AddonInterface]) == None;
    var d := Loading(r1.reg, cat, "dep", 1, Corrected);
    assert RequirementsLoaded(r1.reg, cat, "Vendor\\Dep", [], 0, 0, Corrected) == Step(r1.reg, Ok(""));
    var daddons := SetAll(r1.reg.addons, ["dep-api"] + ["dep"], "Vendor\\Dep");
    assert d == Step(r1.reg.(addons := daddons), Ok("dep"));
    SetAllFacts(r1.reg.addons, ["dep-api"] + ["dep"], "Vendor\\Dep");
    assert "app" !in d.reg.addons;
    var s := Loading(reg, cat, "Vendor\\App", 2, Corrected);
    assert RequirementsLoaded(d.reg, cat, "Vendor\\App", ["dep-api"], 1, 1, Corrected) == Step(d.reg, Ok(""));
    assert RequirementsLoaded(r1.reg, cat, "Vendor\\App", ["dep-api"], 0, 1, Corrected) == Step(d.reg, Ok(""));
    assert s == Step(d.reg.(addons := SetAll(d.reg.addons, [] + ["app"], "Vendor\\App")), Ok("app"));
    SetAllFacts(d.reg.addons, [] + ["app"], "Vendor\\App");
  }
}
