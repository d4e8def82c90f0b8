/**
 * When allocating again moves nothing, whatever the order: a condition on the
 * app and the host alone, for every group that has a number, negative ones too.
 */
module PortStability {
  import opened Text
  import opened Decimal
  import opened PortAllocator

  /** With nothing claimed yet, group `g` can have its own port. */
  predicate Fits(services: Services, g: string, avail: Oracle) {
    AllFree(NumberOf(g), Protos(services, g), {}, avail)
  }

  /** Another group that can have port `n`, and would then keep `g` from it. */
  ghost predicate Rival(services: Services, g: string, h: string, n: int, avail: Oracle) {
    && h in Published(services) && h != g && Numeric(h) && NumberOf(h) == n && Fits(services, h, avail)
    && exists p :: p in Protos(services, g) && p in Protos(services, h)
  }

  /** Group `g` gets its own port in every order. */
  ghost predicate Secure(services: Services, g: string, avail: Oracle) {
    Fits(services, g, avail) && !exists h :: Rival(services, g, h, NumberOf(g), avail)
  }

  /**
   * The search for another port can end well: nothing being claimed, or, when it
   * comes from below zero and would stop at port 0 being free, past a claim of that.
   */
  ghost predicate HasWay(services: Services, g: string, avail: Oracle) {
    var n, protos := NumberOf(g), Protos(services, g);
    || FindPort(n, 1, protos, {}, avail) != 0
    || (n < 0 && FindPort(n, 1 - n, protos, {}, avail) != 0 && exists h :: Rival(services, g, h, 0, avail))
  }

  /** Every group with a number has its port for sure, or nowhere else to go. */
  ghost predicate Steady(services: Services, avail: Oracle) {
    forall g :: g in Published(services) && Numeric(g) ==> Secure(services, g, avail) || !HasWay(services, g, avail)
  }

  ghost predicate NothingMoves(services: Services, avail: Oracle) {
    forall order :: IsOrderOf(order, Published(services)) ==> Allocate(services, order, avail).remap == map[]
  }

  // ---- a steady app stays -------------------------------------------------

  /** While nothing has moved, who holds a port that `g` wants is a rival for it. */
  lemma OwnerIsRival(services: Services, a: Allocation, visited: seq<string>, g: string, p: string, n: int,
                     avail: Oracle)
    returns (h: string)
    requires Sound(services, a, visited, avail) && a.remap == map[] && g !in visited && IsInt64(n)
    requires forall x :: x in visited ==> x in Published(services)
    requires p in Protos(services, g) && UseKey(p, n) in a.used
    ensures Rival(services, g, h, n, avail)
  {
    hide FindPort, Atoi, Itoa, Published, UseKey;
    assert Owned(services, a, UseKey(p, n));
    var q, m;
    h, q, m :| Claims(services, a, h, q, m) && UseKey(p, n) == UseKey(q, m);
    UseKeyInjective(p, n, q, m);
    forall q | q in Protos(services, h) ensures avail(n, q) {
      assert Claims(services, a, h, q, n);
    }
  }

  /** Claims that make a failed search succeed have taken port 0, at which it stopped. */
  lemma ClaimsOpenTheWay(n: int, protos: set<string>, used: set<string>, avail: Oracle)
    requires IsInt64(n) && FindPort(n, 1, protos, used, avail) != 0 && FindPort(n, 1, protos, {}, avail) == 0
    ensures n < 0 && AllFree(0, protos, {}, avail) && !AllFree(0, protos, used, avail)
    ensures FindPort(n, 1 - n, protos, {}, avail) != 0
  {
    hide FindPort, AllFree;
    var k := FindPortIsFirst(n, 1, protos, used, avail);
    var k0 := FindPortIsFirst(n, 1, protos, {}, avail);
    FreeShrinks(WrapAdd(n, k), protos, {}, used, avail);
    assert k0 < k && WrapAdd(n, k0) == 0;
    assert n + k0 == 0;
    var k2 := FindPortIsFirst(n, 1 - n, protos, {}, avail);
    assert k2 <= k && WrapAdd(n, k2) == n + k2;
  }

  /** A group with nowhere else to go is not moved. */
  lemma NoWayNoMove(services: Services, a: Allocation, visited: seq<string>, g: string, avail: Oracle)
    requires Sound(services, a, visited, avail) && a.remap == map[] && g !in visited
    requires forall x :: x in visited ==> x in Published(services)
    requires Choose(g, Protos(services, g), a.used, avail).Move?
    ensures HasWay(services, g, avail)
  {
    hide FindPort, Atoi, Protos, Published, UseKey, Itoa, Sound;
    var n, protos := NumberOf(g), Protos(services, g);
    if FindPort(n, 1, protos, {}, avail) == 0 {
      ClaimsOpenTheWay(n, protos, a.used, avail);
      var p :| p in protos && UseKey(p, 0) in a.used;
      var h := OwnerIsRival(services, a, visited, g, p, 0, avail);
    }
  }

  lemma SecureKeeps(services: Services, a: Allocation, visited: seq<string>, g: string, avail: Oracle)
    requires Sound(services, a, visited, avail) && a.remap == map[] && g !in visited
    requires forall x :: x in visited ==> x in Published(services)
    requires Secure(services, g, avail)
    ensures AllFree(NumberOf(g), Protos(services, g), a.used, avail)
  {
    var n := NumberOf(g);
    hide FindPort, Atoi, Protos, Published, UseKey, Itoa, Sound;
    forall p | p in Protos(services, g) ensures UseKey(p, n) !in a.used && avail(n, p) {
      if UseKey(p, n) in a.used {
        var h := OwnerIsRival(services, a, visited, g, p, n, avail);
      }
    }
  }

  lemma {:induction false} SteadyKeeps(services: Services, order: seq<string>, avail: Oracle)
    requires Steady(services, avail)
    requires forall g :: g in order ==> g in Published(services)
    requires forall i, j :: 0 <= i < j < |order| ==> order[i] != order[j]
    ensures Allocate(services, order, avail).remap == map[]
  {
    hide FindPort, UseKey, Atoi, Protos, Published, Itoa, Secure, HasWay, AllFree;
    if order != [] {
      var init, g := order[..|order| - 1], order[|order| - 1];
      SteadyKeeps(services, init, avail);
      AllocateIsSound(services, init, avail);
      assert g in order;
      var a := Allocate(services, init, avail);
      if Choose(g, Protos(services, g), a.used, avail).Move? {
        NoWayNoMove(services, a, init, g, avail);
        SecureKeeps(services, a, init, g, avail);
      }
    }
  }

  // ---- an unsteady app moves, in some order -------------------------------

  /** Every claim is for one of these ports. */
  ghost predicate OnlyPorts(used: set<string>, ports: set<int>) {
    forall key :: key in used ==> exists p, m :: m in ports && IsInt64(m) && key == UseKey(p, m)
  }

  /** Claims on other ports do not matter. */
  lemma OtherPortsFree(used: set<string>, ports: set<int>, c: int, protos: set<string>, avail: Oracle)
    requires OnlyPorts(used, ports) && c !in ports && IsInt64(c)
    ensures AllFree(c, protos, used, avail) == AllFree(c, protos, {}, avail)
  {
    hide UseKey;
    forall p ensures UseKey(p, c) !in used {
      if UseKey(p, c) in used {
        var q, m :| m in ports && IsInt64(m) && UseKey(p, c) == UseKey(q, m);
        UseKeyInjective(p, c, q, m);
      }
    }
  }

  /** Visiting a group whose port is free and unclaimed. */
  lemma KeepsOwn(services: Services, a: Allocation, h: string, ports: set<int>, avail: Oracle)
    requires OnlyPorts(a.used, ports) && Numeric(h) && NumberOf(h) !in ports && Fits(services, h, avail)
    ensures var b := Visit(services, a, h, avail);
            && OnlyPorts(b.used, ports + {NumberOf(h)}) && a.used <= b.used
            && forall p :: p in Protos(services, h) ==> UseKey(p, NumberOf(h)) in b.used
  {
    var n := NumberOf(h);
    OtherPortsFree(a.used, ports, n, Protos(services, h), avail);
    hide UseKey, FindPort, Atoi, Protos, Itoa;
    var b := Visit(services, a, h, avail);
    forall key | key in b.used ensures exists p, m :: m in ports + {n} && IsInt64(m) && key == UseKey(p, m) {
      if key in a.used {
        var p, m :| m in ports && IsInt64(m) && key == UseKey(p, m);
        assert m in ports + {n};
      } else {
        var p :| p in Protos(services, h) && key == UseKey(p, n);
      }
    }
  }

  /** A free port within reach is found, or an earlier one, if port 0 does not end the search before. */
  lemma FreeIsFound(n: int, j: nat, protos: set<string>, used: set<string>, avail: Oracle)
    requires IsInt64(n) && 1 <= j <= 1000 && AllFree(WrapAdd(n, j), protos, used, avail)
    requires forall i :: 1 <= i <= j ==> WrapAdd(n, i) <= 65535
    requires forall i :: 1 <= i <= j && WrapAdd(n, i) == 0 ==> !AllFree(0, protos, used, avail)
    ensures FindPort(n, 1, protos, used, avail) != 0
  {
    hide AllFree, FindPort, WrapAdd;
    var k := FindPortIsFirst(n, 1, protos, used, avail);
    assert k <= j;
  }

  lemma StillFound(n: int, protos: set<string>, used: set<string>, avail: Oracle)
    requires IsInt64(n) && OnlyPorts(used, {n, 0}) && FindPort(n, 1, protos, {}, avail) != 0
    ensures FindPort(n, 1, protos, used, avail) != 0
  {
    hide AllFree, FindPort, OnlyPorts;
    var k := FindPortIsFirst(n, 1, protos, {}, avail);
    OtherPortsFree(used, {n, 0}, WrapAdd(n, k), protos, avail);
    FreeShrinks(0, protos, {}, used, avail);
    FreeIsFound(n, k, protos, used, avail);
  }

  lemma FoundPastZero(n: int, protos: set<string>, used: set<string>, avail: Oracle)
    requires IsInt64(n) && n < 0 && OnlyPorts(used, {n, 0})
    requires FindPort(n, 1 - n, protos, {}, avail) != 0 && !AllFree(0, protos, used, avail)
    ensures FindPort(n, 1, protos, used, avail) != 0
  {
    assert 1 - n <= 1000;
    hide AllFree, FindPort, OnlyPorts;
    var k := FindPortIsFirst(n, 1 - n, protos, {}, avail);
    assert WrapAdd(n, k) == n + k;
    OtherPortsFree(used, {n, 0}, n + k, protos, avail);
    FreeIsFound(n, k, protos, used, avail);
  }

  /** With its own port refused and nothing but that and port 0 claimed, a group that has a way takes it. */
  lemma TakesWay(services: Services, a: Allocation, g: string, avail: Oracle)
    requires Numeric(g) && OnlyPorts(a.used, {NumberOf(g), 0})
    requires !AllFree(NumberOf(g), Protos(services, g), a.used, avail)
    requires var n, protos := NumberOf(g), Protos(services, g);
             || FindPort(n, 1, protos, {}, avail) != 0
             || (n < 0 && FindPort(n, 1 - n, protos, {}, avail) != 0 && !AllFree(0, protos, a.used, avail))
    ensures g in Visit(services, a, g, avail).remap
  {
    hide UseKey, FindPort, Atoi, Protos, Itoa, AllFree, OnlyPorts;
    var n, protos := NumberOf(g), Protos(services, g);
    if FindPort(n, 1, protos, {}, avail) != 0 {
      StillFound(n, protos, a.used, avail);
    } else {
      FoundPastZero(n, protos, a.used, avail);
    }
  }

  lemma OrderTail(services: Services, order: seq<string>, x: string, avail: Oracle)
    ensures Allocate(services, order + [x], avail) == Visit(services, Allocate(services, order, avail), x, avail)
  {
    assert (order + [x])[..|order|] == order;
  }

  lemma {:induction false} MovedStays(services: Services, order: seq<string>, i: nat, g: string, avail: Oracle)
    requires i <= |order| && g in Allocate(services, order[..i], avail).remap
    ensures g in Allocate(services, order, avail).remap
  {
    hide FindPort, UseKey, Atoi, Protos, Itoa, Choose;
    if i == |order| {
      assert order[..i] == order;
    } else {
      assert order[..|order| - 1][..i] == order[..i];
      MovedStays(services, order[..|order| - 1], i, g, avail);
    }
  }

  /** Any distinct elements of a set can come first in an order of it. */
  lemma {:induction false} Arrange(first: seq<string>, s: set<string>) returns (order: seq<string>)
    requires forall x :: x in first ==> x in s
    requires forall i, j :: 0 <= i < j < |first| ==> first[i] != first[j]
    ensures IsOrderOf(order, s) && first <= order
    decreases |s - set x | x in first|
  {
    if x :| x in s && x !in first {
      var more := first + [x];
      assert s - (set y | y in more) == (s - set y | y in first) - {x};
      order := Arrange(more, s);
    } else {
      order := first;
    }
  }

  /** What a rival holds, `g` cannot have. */
  lemma RivalDenies(services: Services, a: Allocation, g: string, h: string, n: int, ports: set<int>, avail: Oracle)
    requires Rival(services, g, h, n, avail) && OnlyPorts(a.used, ports) && n !in ports
    ensures var b := Visit(services, a, h, avail);
            && OnlyPorts(b.used, ports + {n}) && a.used <= b.used
            && !AllFree(n, Protos(services, g), b.used, avail)
  {
    KeepsOwn(services, a, h, ports, avail);
    hide UseKey, FindPort, Atoi, Protos, Itoa, Published, OnlyPorts;
  }

  /** The groups that make `g` lose its own port: none, or one rival for it. */
  lemma DenyOwn(services: Services, g: string, avail: Oracle) returns (first: seq<string>)
    requires Numeric(g) && !Secure(services, g, avail)
    ensures |first| <= 1 && forall x :: x in first ==> Rival(services, g, x, NumberOf(g), avail)
    ensures OnlyPorts(Allocate(services, first, avail).used, {NumberOf(g)})
    ensures !AllFree(NumberOf(g), Protos(services, g), Allocate(services, first, avail).used, avail)
  {
    var n := NumberOf(g);
    assert Allocate(services, [], avail) == NOTHING_ALLOCATED;
    hide UseKey, FindPort, Atoi, Protos, Itoa, AllFree, Published, Rival;
    if Fits(services, g, avail) {
      var h :| Rival(services, g, h, n, avail);
      OrderTail(services, [], h, avail);
      RivalDenies(services, NOTHING_ALLOCATED, g, h, n, {}, avail);
      assert [] + [h] == [h] && {} + {n} == {n};
      first := [h];
    } else {
      first := [];
    }
  }

  /** And those that also block port 0, where the search would stop. */
  lemma DenyZero(services: Services, g: string, own: seq<string>, avail: Oracle) returns (first: seq<string>)
    requires Numeric(g) && HasWay(services, g, avail)
    requires |own| <= 1 && forall x :: x in own ==> Rival(services, g, x, NumberOf(g), avail)
    requires OnlyPorts(Allocate(services, own, avail).used, {NumberOf(g)})
    requires !AllFree(NumberOf(g), Protos(services, g), Allocate(services, own, avail).used, avail)
    ensures forall x :: x in first ==> x in Published(services) && x != g
    ensures forall i, j :: 0 <= i < j < |first| ==> first[i] != first[j]
    ensures var used := Allocate(services, first, avail).used;
            && OnlyPorts(used, {NumberOf(g), 0})
            && !AllFree(NumberOf(g), Protos(services, g), used, avail)
            && (FindPort(NumberOf(g), 1, Protos(services, g), {}, avail) == 0 ==>
                  && NumberOf(g) < 0 && FindPort(NumberOf(g), 1 - NumberOf(g), Protos(services, g), {}, avail) != 0
                  && !AllFree(0, Protos(services, g), used, avail))
  {
    var n, protos, a := NumberOf(g), Protos(services, g), Allocate(services, own, avail);
    hide UseKey, FindPort, Atoi, Protos, Itoa, Published;
    if FindPort(n, 1, protos, {}, avail) == 0 {
      var h :| Rival(services, g, h, 0, avail);
      RivalDenies(services, a, g, h, 0, {n}, avail);
      OrderTail(services, own, h, avail);
      FreeShrinks(n, protos, a.used, Visit(services, a, h, avail).used, avail);
      assert h !in own by { assert forall x :: x in own ==> NumberOf(x) == n; }
      first := own + [h];
      assert {n} + {0} == {n, 0};
    } else {
      first := own;
    }
  }

  /** With these in front, an unsteady group is moved. */
  lemma Unsettle(services: Services, g: string, avail: Oracle) returns (order: seq<string>)
    requires g in Published(services) && Numeric(g) && !Secure(services, g, avail) && HasWay(services, g, avail)
    ensures IsOrderOf(order, Published(services)) && g in Allocate(services, order, avail).remap
  {
    hide UseKey, FindPort, Atoi, Protos, Itoa, AllFree, Published, Secure, HasWay, Rival, OnlyPorts, Visit;
    var own := DenyOwn(services, g, avail);
    var first := DenyZero(services, g, own, avail);
    TakesWay(services, Allocate(services, first, avail), g, avail);
    OrderTail(services, first, g, avail);
    order := Arrange(first + [g], Published(services));
    assert order[..|first| + 1] == first + [g];
    MovedStays(services, order, |first| + 1, g, avail);
  }

  // ---- main results -------------------------------------------------------

  /**
   * No order of visiting the groups moves anything if and only if every group
   * with a number has its port available with no rival for it, or has no way to
   * another port.
   */
  lemma SteadyIff(services: Services, avail: Oracle)
    ensures Steady(services, avail) <==> NothingMoves(services, avail)
  {
    hide Secure, HasWay, Allocate, Published, Numeric;
    if Steady(services, avail) {
      forall order | IsOrderOf(order, Published(services)) ensures Allocate(services, order, avail).remap == map[] {
        SteadyKeeps(services, order, avail);
      }
    } else {
      var g :| g in Published(services) && Numeric(g) && !Secure(services, g, avail) && HasWay(services, g, avail);
      var order := Unsettle(services, g, avail);
    }
  }

  /** Likewise for allocating again on a result, whether or not groups were left stuck. */
  lemma RerunIsStableIff(services: Services, order: seq<string>, avail: Oracle)
    requires IsOrderOf(order, Published(services))
    ensures var after := Rewrite(services, Allocate(services, order, avail).remap);
            && (Steady(after, avail) <==> NothingMoves(after, avail))
            && ((forall g :: !Stuck(services, Allocate(services, order, avail), g)) ==> Steady(after, avail))
  {
    var after: Services := Rewrite(services, Allocate(services, order, avail).remap);
    SteadyIff(after, avail);
    if forall g :: !Stuck(services, Allocate(services, order, avail), g) {
      forall again | IsOrderOf(again, Published(after)) ensures Allocate(after, again, avail).remap == map[] {
        AllocatingAgainChangesNothing(services, order, again, avail);
      }
    }
  }
}
