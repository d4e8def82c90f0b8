/** The gateway's route table: longest-prefix lookup, and the file a restart reads it back from. */
module Routes {
  import opened Text

  type Targets = map<string, string>

  /**
   * `targets` is what was registered, `proxies` the proxy built for each prefix
   * (known by its target), `file` the saved table, none when it cannot be read.
   */
  datatype Table = Table(targets: Targets, proxies: Targets, file: Option<Targets>)

  datatype Save = Saved | SaveFails(left: Option<Targets>)

  /** A proxy for every registered target whose URL parses. */
  function ProxiesOf(targets: Targets, parses: string -> bool): Targets {
    map p | p in targets && parses(targets[p]) :: targets[p]
  }

  function Boot(file: Option<Targets>, parses: string -> bool): Table {
    var targets := if file.Some? then file.value else map[];
    Table(targets, ProxiesOf(targets, parses), file)
  }

  function Create(t: Table, path: string, target: string, parses: string -> bool, save: Save): (Table, bool) {
    if !parses(target) then (t, false)
    else
      var targets := t.targets[path := target];
      (Table(targets, t.proxies[path := target], if save.Saved? then Some(targets) else save.left), save.Saved?)
  }

  // ---- lookup -------------------------------------------------------------

  /** Some arrangement of the registered prefixes, longer ones first; ties in any order. */
  ghost predicate SortedKeys(paths: seq<string>, proxies: Targets) {
    IsOrderOf(paths, proxies.Keys) && forall i, j :: 0 <= i < j < |paths| ==> |paths[i]| >= |paths[j]|
  }

  /** Such an arrangement exists: always take a longest of what is left. */
  lemma {:induction false} ThereIsAnOrder(keys: set<string>) returns (paths: seq<string>)
    ensures IsOrderOf(paths, keys)
    ensures forall i, j :: 0 <= i < j < |paths| ==> |paths[i]| >= |paths[j]|
  {
    paths := [];
    if keys != {} {
      var longest := ALongest(keys);
      var rest := ThereIsAnOrder(keys - {longest});
      assert forall x :: x in rest ==> x in keys && |x| <= |longest|;
      paths := [longest] + rest;
    }
  }

  lemma {:induction false} ALongest(keys: set<string>) returns (longest: string)
    requires keys != {}
    ensures longest in keys && forall x :: x in keys ==> |x| <= |longest|
  {
    var x :| x in keys;
    longest := x;
    if keys != {x} {
      var other := ALongest(keys - {x});
      longest := if |other| > |x| then other else x;
    }
  }

  lemma KeysCanBeSorted(proxies: Targets) returns (paths: seq<string>)
    ensures SortedKeys(paths, proxies)
  {
    paths := ThereIsAnOrder(proxies.Keys);
  }

  function FirstMatch(paths: seq<string>, path: string): Option<string> {
    if paths == [] then None else if HasPrefix(path, paths[0]) then Some(paths[0]) else FirstMatch(paths[1..], path)
  }

  function Lookup(proxies: Targets, paths: seq<string>, path: string): Option<string>
    requires forall p :: p in paths ==> p in proxies
  {
    var p := FirstMatch(paths, path);
    FirstMatchIsMember(paths, path);
    if p.None? then None else Some(proxies[p.value])
  }

  lemma {:induction false} FirstMatchIsMember(paths: seq<string>, path: string)
    ensures FirstMatch(paths, path).None? ==> forall q :: q in paths ==> !HasPrefix(path, q)
    ensures var p := FirstMatch(paths, path);
            p.Some? ==> exists i :: 0 <= i < |paths| && paths[i] == p.value && HasPrefix(path, p.value)
                                    && forall j :: 0 <= j < i ==> !HasPrefix(path, paths[j])
  {
    if paths != [] && !HasPrefix(path, paths[0]) {
      FirstMatchIsMember(paths[1..], path);
      if FirstMatch(paths[1..], path).Some? {
        var i :| 0 <= i < |paths[1..]| && paths[1..][i] == FirstMatch(paths, path).value
                 && forall j :: 0 <= j < i ==> !HasPrefix(path, paths[1..][j]);
        assert paths[i + 1] == FirstMatch(paths, path).value;
        assert forall j :: 0 < j < i + 1 ==> paths[j] == paths[1..][j - 1];
      }
    }
  }

  ghost predicate IsLongest(proxies: Targets, path: string, p: string) {
    p in proxies && HasPrefix(path, p) && forall q :: q in proxies && HasPrefix(path, q) ==> |q| <= |p|
  }

  /**
   * Whatever order the sort leaves ties in, the lookup gives the target of the
   * longest registered prefix of the path, and nothing exactly when none matches.
   */
  lemma LookupIsLongestPrefix(proxies: Targets, paths: seq<string>, path: string)
    requires SortedKeys(paths, proxies)
    ensures Lookup(proxies, paths, path).None? <==> forall q :: q in proxies ==> !HasPrefix(path, q)
    ensures Lookup(proxies, paths, path).None? <==> forall p :: !IsLongest(proxies, path, p)
    ensures forall p :: IsLongest(proxies, path, p) ==> Lookup(proxies, paths, path) == Some(proxies[p])
  {
    FirstMatchIsMember(paths, path);
    var m := FirstMatch(paths, path);
    if m.Some? {
      var i :| 0 <= i < |paths| && paths[i] == m.value && HasPrefix(path, m.value)
               && forall j :: 0 <= j < i ==> !HasPrefix(path, paths[j]);
      forall q | q in proxies && HasPrefix(path, q) ensures |q| <= |m.value| {
        var j :| 0 <= j < |paths| && paths[j] == q;
        assert j >= i;
      }
      assert IsLongest(proxies, path, m.value);
      forall p | IsLongest(proxies, path, p) ensures p == m.value {
        assert p == path[..|p|] == m.value;
      }
    }
  }

  /** Two runs of the lookup agree, whatever order each sorts into. */
  lemma LookupIgnoresOrder(proxies: Targets, paths: seq<string>, paths': seq<string>, path: string)
    requires SortedKeys(paths, proxies) && SortedKeys(paths', proxies)
    ensures Lookup(proxies, paths, path) == Lookup(proxies, paths', path)
  {
    LookupIsLongestPrefix(proxies, paths, path);
    LookupIsLongestPrefix(proxies, paths', path);
  }

  // ---- creating a route ---------------------------------------------------

  /**
   * When the target parses, the prefix has it from then on, also when saving
   * fails, and every other prefix has what it had; else nothing changes.
   */
  lemma CreateRegisters(t: Table, path: string, target: string, parses: string -> bool, save: Save, p: string)
    ensures var u := Create(t, path, target, parses, save).0;
            if p == path && parses(target)
            then p in u.targets && p in u.proxies && u.targets[p] == target && u.proxies[p] == target
            else && (p in u.targets <==> p in t.targets) && (p in t.targets ==> u.targets[p] == t.targets[p])
                 && (p in u.proxies <==> p in t.proxies) && (p in t.proxies ==> u.proxies[p] == t.proxies[p])
    ensures var (u, ok) := Create(t, path, target, parses, save);
            && (ok <==> parses(target) && save.Saved?)
            && (ok ==> u.file == Some(u.targets))
            && (!parses(target) ==> u == t)
  {
  }

  /** A request whose longest registered prefix was just created goes to its target. */
  lemma CreatedRouteServes(t: Table, path: string, target: string, parses: string -> bool, save: Save,
                           paths: seq<string>, request: string)
    requires parses(target)
    requires var u := Create(t, path, target, parses, save).0;
             SortedKeys(paths, u.proxies) && IsLongest(u.proxies, request, path)
    ensures Lookup(Create(t, path, target, parses, save).0.proxies, paths, request) == Some(target)
  {
    LookupIsLongestPrefix(Create(t, path, target, parses, save).0.proxies, paths, request);
    CreateRegisters(t, path, target, parses, save, path);
  }

  /** At boot, exactly the targets of the file that parse get a proxy; without a file there is nothing. */
  lemma BootReads(file: Option<Targets>, parses: string -> bool, p: string)
    ensures var t := Boot(file, parses);
            && (p in t.targets <==> file.Some? && p in file.value)
            && (p in t.proxies <==> file.Some? && p in file.value && parses(file.value[p]))
            && (p in t.targets ==> t.targets[p] == file.value[p])
            && (p in t.proxies ==> t.proxies[p] == file.value[p])
            && t.file == file
  {
  }

  // ---- restarts -----------------------------------------------------------

  datatype Event = CreateRoute(path: string, target: string, save: Save) | Restart

  function Step(t: Table, e: Event, parses: string -> bool): Table {
    match e
    case CreateRoute(path, target, save) => Create(t, path, target, parses, save).0
    case Restart => Boot(t.file, parses)
  }

  function Run(file: Option<Targets>, es: seq<Event>, parses: string -> bool): Table {
    if es == [] then Boot(file, parses) else Step(Run(file, es[..|es| - 1], parses), es[|es| - 1], parses)
  }

  /** A restart reads the file that the last save left; a creation goes on from what there is. */
  lemma RunGoesOn(file: Option<Targets>, es: seq<Event>, parses: string -> bool, e: Event)
    ensures Run(file, [], parses) == Boot(file, parses)
    ensures var t, u := Run(file, es, parses), Run(file, es + [e], parses);
            if e.Restart? then u == Boot(t.file, parses) else u == Create(t, e.path, e.target, parses, e.save).0
  {
    assert (es + [e])[..|es|] == es;
  }

  /** The n-th event gives prefix p a target that parses. */
  predicate Registers(es: seq<Event>, n: nat, p: string, parses: string -> bool) {
    n < |es| && es[n].CreateRoute? && es[n].path == p && parses(es[n].target)
  }

  /** As long as the gateway is not restarted, a prefix has the target of the last event that gave it one. */
  lemma {:induction false} LastRegisteredCounts(file: Option<Targets>, es: seq<Event>, parses: string -> bool,
                                                p: string, n: nat)
    requires forall m :: 0 <= m < |es| ==> !es[m].Restart?
    requires Registers(es, n, p, parses) && forall m :: n < m < |es| ==> !Registers(es, m, p, parses)
    ensures p in Run(file, es, parses).targets && Run(file, es, parses).targets[p] == es[n].target
  {
    var init, e := es[..|es| - 1], es[|es| - 1];
    CreateRegisters(Run(file, init, parses), e.path, e.target, parses, e.save, p);
    if n < |init| {
      assert !Registers(es, |init|, p, parses);
      assert forall m :: n < m < |init| ==> (Registers(es, m, p, parses) <==> Registers(init, m, p, parses));
      LastRegisteredCounts(file, init, parses, p, n);
    }
  }

  /** And before any did, that of the file read at boot, if it is there. */
  lemma {:induction false} UnregisteredIsOfFile(file: Option<Targets>, es: seq<Event>, parses: string -> bool,
                                                p: string)
    requires forall m :: 0 <= m < |es| ==> !es[m].Restart? && !Registers(es, m, p, parses)
    ensures var targets := Run(file, es, parses).targets;
            && (p in targets <==> file.Some? && p in file.value)
            && (p in targets ==> targets[p] == file.value[p])
  {
    if es != [] {
      var init, e := es[..|es| - 1], es[|es| - 1];
      assert forall m :: 0 <= m < |init| ==> init[m] == es[m] && !Registers(es, m, p, parses);
      assert !Registers(es, |init|, p, parses);
      UnregisteredIsOfFile(file, init, parses, p);
      CreateRegisters(Run(file, init, parses), e.path, e.target, parses, e.save, p);
    }
  }

  /** The proxies are always those of the targets, entries of an old file that do not parse included. */
  lemma {:induction false} ProxiesFollowTargets(file: Option<Targets>, es: seq<Event>, parses: string -> bool)
    ensures var t := Run(file, es, parses); t.proxies == ProxiesOf(t.targets, parses)
  {
    if es != [] {
      ProxiesFollowTargets(file, es[..|es| - 1], parses);
    }
  }

  /**
   * After any history, failed saves and restarts included: once a route has
   * been created successfully, a gateway restarted now is the running one, and
   * so routes every path the same, in whatever order either sorts its prefixes.
   */
  lemma RestartRoutesTheSame(file: Option<Targets>, es: seq<Event>, parses: string -> bool, path: string,
                             target: string,
                             save: Save, paths: seq<string>, paths': seq<string>, request: string)
    requires var (t, ok) := Create(Run(file, es, parses), path, target, parses, save);
             ok && SortedKeys(paths, t.proxies) && SortedKeys(paths', Boot(t.file, parses).proxies)
    ensures var t := Create(Run(file, es, parses), path, target, parses, save).0;
            && Boot(t.file, parses) == t
            && Lookup(t.proxies, paths, request) == Lookup(Boot(t.file, parses).proxies, paths', request)
  {
    ProxiesFollowTargets(file, es, parses);
    var t := Create(Run(file, es, parses), path, target, parses, save).0;
    assert t.proxies == ProxiesOf(t.targets, parses);
    LookupIgnoresOrder(t.proxies, paths, paths', request);
  }

  // ---- the object ---------------------------------------------------------

  class Management {
    const parses: string -> bool
    var pathTargetMap: Targets
    var pathReverseProxyMap: Targets
    var routesFile: Option<Targets>

    function View(): Table
      reads this
    {
      Table(pathTargetMap, pathReverseProxyMap, routesFile)
    }

    /** NewManagementService: a proxy for each loaded target, in any order, skipping those that do not parse. */
    constructor (file: Option<Targets>, parses: string -> bool)
      ensures this.parses == parses && View() == Boot(file, parses)
    {
      this.parses := parses;
      var targets: Targets := if file.Some? then file.value else map[];
      var proxies: Targets := map[];
      var todo := targets.Keys;
      while todo != {}
        invariant todo <= targets.Keys
        invariant proxies == map p | p in targets && p !in todo && parses(targets[p]) :: targets[p]
      {
        var p :| p in todo;
        if parses(targets[p]) {
          proxies := proxies[p := targets[p]];
        }
        todo := todo - {p};
      }
      pathTargetMap, pathReverseProxyMap, routesFile := targets, proxies, file;
    }

    method CreateRoute(path: string, target: string, save: Save) returns (ok: bool)
      modifies this
      ensures (View(), ok) == Create(old(View()), path, target, parses, save)
    {
      if !parses(target) {
        return false;
      }
      pathTargetMap := pathTargetMap[path := target];
      pathReverseProxyMap := pathReverseProxyMap[path := target];
      routesFile := if save.Saved? then Some(pathTargetMap) else save.left;
      return save.Saved?;
    }

    method GetProxy(path: string, paths: seq<string>) returns (proxy: Option<string>)
      requires SortedKeys(paths, pathReverseProxyMap)
      ensures proxy == Lookup(pathReverseProxyMap, paths, path)
    {
      for i := 0 to |paths|
        invariant FirstMatch(paths, path) == FirstMatch(paths[i..], path)
      {
        if HasPrefix(path, paths[i]) {
          assert paths[i..][0] == paths[i];
          return Some(pathReverseProxyMap[paths[i]]);
        }
        assert paths[i..][1..] == paths[i + 1..];
      }
      return None;
    }
  }
}
