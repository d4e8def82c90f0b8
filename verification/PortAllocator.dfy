/**
 * Host ports of a compose app about to be installed. Published ports are
 * grouped by their string; a group whose port is taken moves, as one, to the
 * next port free for all its protocols, and the store metadata follows.
 *
 * The groups sit in a hash table, so they are visited in an arbitrary order:
 * every statement here is for all orders. The probe of the host's sockets is an
 * arbitrary function of port and protocol.
 */
module PortAllocator {
  import opened Text
  import opened Decimal

  type Oracle = (int, string) -> bool

  datatype PortConfig = PortConfig(target: nat, published: string, protocol: string) {
    function Proto(): string {
      var lowered := ToLower(protocol);
      if lowered == "" then "tcp" else lowered
    }
  }

  type Services = map<string, seq<PortConfig>>

  predicate At(services: Services, k: string, j: int) {
    k in services && 0 <= j < |services[k]|
  }

  /** The group names: the non-empty published strings. */
  function Published(services: Services): set<string> {
    set k, j | k in services && 0 <= j < |services[k]| && services[k][j].published != "" :: services[k][j].published
  }

  function Protos(services: Services, g: string): set<string> {
    set k, j | k in services && 0 <= j < |services[k]| && services[k][j].published == g :: services[k][j].Proto()
  }

  // ---- one group at a time ------------------------------------------------

  /** The key under which a claimed port is remembered. */
  function UseKey(proto: string, port: int): string {
    proto + "/" + Itoa(port)
  }

  predicate AllFree(port: int, protos: set<string>, used: set<string>, avail: Oracle) {
    forall p | p in protos :: UseKey(p, port) !in used && avail(port, p)
  }

  /** The first port free for every protocol among start+i, ..., start+1000; 0 when there is none. */
  function FindPort(start: int, i: nat, protos: set<string>, used: set<string>, avail: Oracle): (port: int)
    requires IsInt64(start)
    ensures IsInt64(port)
    decreases 1001 - i
  {
    if i > 1000 then 0
    else
      var candidate := WrapAdd(start, i);
      if candidate > 65535 then 0
      else if AllFree(candidate, protos, used, avail) then candidate
      else FindPort(start, i + 1, protos, used, avail)
  }

  datatype Allocation = Allocation(used: set<string>, remap: map<string, string>, kept: set<string>) {
    predicate Settled(g: string) { g in kept || g in remap }

    /** The published string that group `g` ends with. */
    function Final(g: string): string { Renamed(remap, g) }

    function Port(g: string): int { NumberOf(Final(g)) }

    function Claim(port: int, protos: set<string>): Allocation {
      this.(used := used + set p | p in protos :: UseKey(p, port))
    }
  }

  function Renamed(remap: map<string, string>, s: string): string {
    if s in remap then remap[s] else s
  }

  predicate Numeric(s: string) { Atoi(s).Parsed? }

  function NumberOf(s: string): (n: int)
    ensures IsInt64(n)
  {
    match Atoi(s) case Parsed(n) => n case _ => 0
  }

  const NOTHING_ALLOCATED: Allocation := Allocation({}, map[], {})

  datatype Choice = Leave | Keep(port: int) | Move(port: int)

  /** What becomes of group `g`, given the keys already in use. */
  function Choose(g: string, protos: set<string>, used: set<string>, avail: Oracle): Choice {
    if !Numeric(g) then Leave
    else if AllFree(NumberOf(g), protos, used, avail) then Keep(NumberOf(g))
    else
      var port := FindPort(NumberOf(g), 1, protos, used, avail);
      if port == 0 then Leave else Move(port)
  }

  function Visit(services: Services, a: Allocation, g: string, avail: Oracle): Allocation {
    var protos := Protos(services, g);
    match Choose(g, protos, a.used, avail)
    case Leave => a
    case Keep(n) => a.Claim(n, protos).(kept := a.kept + {g})
    case Move(port) => a.Claim(port, protos).(remap := a.remap[g := Itoa(port)])
  }

  function Allocate(services: Services, order: seq<string>, avail: Oracle): Allocation {
    if order == [] then NOTHING_ALLOCATED
    else Visit(services, Allocate(services, order[..|order| - 1], avail), order[|order| - 1], avail)
  }

  /** Every published string renamed once, all at the same time; nothing else touched. */
  function Rewrite(services: Services, remap: map<string, string>): (r: Services)
    ensures forall k :: k in r <==> k in services
    ensures forall k :: k in services ==> |r[k]| == |services[k]|
    ensures forall k, j :: At(services, k, j) ==>
              r[k][j] == services[k][j].(published := Renamed(remap, services[k][j].published))
  {
    map k | k in services :: RewritePorts(services[k], remap)
  }

  lemma RewriteNothing(services: Services)
    ensures Rewrite(services, map[]) == services
  {
    var r := Rewrite(services, map[]);
    forall k | k in services ensures r[k] == services[k] {
      forall j | 0 <= j < |services[k]| ensures r[k][j] == services[k][j] {
        assert At(services, k, j);
      }
    }
  }

  function RewritePorts(ports: seq<PortConfig>, remap: map<string, string>): seq<PortConfig> {
    seq(|ports|, j requires 0 <= j < |ports| => ports[j].(published := Renamed(remap, ports[j].published)))
  }

  // ---- what the pieces mean -----------------------------------------------

  lemma {:induction false} LastSlash(p: string, q: string, s: string, t: string)
    requires p + "/" + s == q + "/" + t
    requires '/' !in s && '/' !in t
    ensures p == q && s == t
  {
    var whole := p + "/" + s;
    assert forall i :: |p| < i < |whole| ==> whole[i] == s[i - |p| - 1];
    assert forall i :: |q| < i < |whole| ==> whole[i] == t[i - |q| - 1];
    assert whole[|p|] == '/' && whole[|q|] == '/';
    assert whole[..|p|] == p && whole[..|q|] == q;
    assert whole[|p| + 1..] == s && whole[|q| + 1..] == t;
  }

  /** Two claims share a key only when they are the same protocol and port. */
  lemma UseKeyInjective(p: string, m: int, q: string, n: int)
    requires IsInt64(m) && IsInt64(n)
    ensures UseKey(p, m) == UseKey(q, n) <==> p == q && m == n
  {
    if UseKey(p, m) == UseKey(q, n) {
      ItoaAlphabet(m);
      ItoaAlphabet(n);
      LastSlash(p, q, Itoa(m), Itoa(n));
      AtoiItoa(m);
      AtoiItoa(n);
    }
  }

  /**
   * The search finds the least offset that works; it comes back empty exactly
   * when no offset reaches a usable port, or the least one that does is port 0.
   */
  lemma {:induction false} FindPortIsFirst(start: int, i: nat, protos: set<string>, used: set<string>, avail: Oracle)
    returns (k: nat)
    requires IsInt64(start) && 1 <= i <= 1001
    ensures i <= k <= 1001
    ensures forall j :: i <= j < k ==> WrapAdd(start, j) <= 65535 && !AllFree(WrapAdd(start, j), protos, used, avail)
    ensures k <= 1000 && WrapAdd(start, k) <= 65535 ==>
              FindPort(start, i, protos, used, avail) == WrapAdd(start, k)
                  && AllFree(WrapAdd(start, k), protos, used, avail)
    ensures k == 1001 || WrapAdd(start, k) > 65535 ==> FindPort(start, i, protos, used, avail) == 0
    decreases 1001 - i
  {
    if i == 1001 {
      k := i;
    } else if WrapAdd(start, i) > 65535 {
      k := i;
    } else if AllFree(WrapAdd(start, i), protos, used, avail) {
      k := i;
    } else {
      k := FindPortIsFirst(start, i + 1, protos, used, avail);
    }
  }

  // ---- the invariant of the visit, in any order ---------------------------

  /** Settled group `g` holds port `n` for protocol `p`. */
  ghost predicate Claims(services: Services, a: Allocation, g: string, p: string, n: int) {
    a.Settled(g) && p in Protos(services, g) && n == a.Port(g)
  }

  ghost predicate Owned(services: Services, a: Allocation, key: string) {
    exists g, p, n :: Claims(services, a, g, p, n) && key == UseKey(p, n)
  }

  ghost predicate Sound(services: Services, a: Allocation, visited: seq<string>, avail: Oracle) {
    && (forall g :: a.Settled(g) ==> g in visited && Numeric(g) && Numeric(a.Final(g)))
    && a.kept !! a.remap.Keys
    && (forall g, p, n :: Claims(services, a, g, p, n) ==> avail(n, p) && UseKey(p, n) in a.used)
    && (forall key :: key in a.used ==> Owned(services, a, key))
    && (forall g, h, p, n :: Claims(services, a, g, p, n) && Claims(services, a, h, p, n) ==> g == h)
  }

  lemma ClaimKeepsSound(services: Services, a: Allocation, visited: seq<string>, g: string, port: int, b: Allocation,
                        avail: Oracle)
    requires Sound(services, a, visited, avail) && g !in visited
    requires AllFree(port, Protos(services, g), a.used, avail)
    requires b.used == a.Claim(port, Protos(services, g)).used
    requires b.kept !! b.remap.Keys && b.Settled(g) && Numeric(g) && Numeric(b.Final(g)) && b.Port(g) == port
    requires forall h :: h != g ==> (a.Settled(h) <==> b.Settled(h)) && a.Final(h) == b.Final(h)
    ensures Sound(services, b, visited + [g], avail)
  {
    var protos := Protos(services, g);
    assert !a.Settled(g);
    forall h, p, n ensures Claims(services, b, h, p, n) <==>
                           Claims(services, a, h, p, n) || (h == g && p in protos && n == port) {
      assert h != g ==> (a.Settled(h) <==> b.Settled(h)) && a.Final(h) == b.Final(h);
    }
    forall key | key in b.used ensures Owned(services, b, key) {
      if key in a.used {
        assert Owned(services, a, key);
        var h, p, n :| Claims(services, a, h, p, n) && key == UseKey(p, n);
        assert Claims(services, b, h, p, n);
      } else {
        var p :| p in protos && key == UseKey(p, port);
        assert Claims(services, b, g, p, port);
      }
    }
  }

  /** A move goes to a port free for the whole group, above the old one, and is written in canonical decimal. */
  lemma MoveIsFree(g: string, protos: set<string>, used: set<string>, avail: Oracle)
    requires Choose(g, protos, used, avail).Move?
    ensures var port := Choose(g, protos, used, avail).port;
            && AllFree(port, protos, used, avail) && Atoi(Itoa(port)) == Parsed(port)
            && port != 0 && port <= 65535 && (NumberOf(g) < MAX_INT ==> NumberOf(g) < port <= NumberOf(g) + 1000)
  {
    var n := NumberOf(g);
    var k := FindPortIsFirst(n, 1, protos, used, avail);
    AtoiItoa(FindPort(n, 1, protos, used, avail));
  }

  lemma VisitKeepsSound(services: Services, a: Allocation, visited: seq<string>, g: string, avail: Oracle)
    requires Sound(services, a, visited, avail) && g !in visited
    ensures Sound(services, Visit(services, a, g, avail), visited + [g], avail)
  {
    var b := Visit(services, a, g, avail);
    assert !a.Settled(g);
    var protos := Protos(services, g);
    match Choose(g, protos, a.used, avail)
    case Leave =>
    case Keep(n) =>
      ClaimKeepsSound(services, a, visited, g, n, b, avail);
    case Move(port) =>
      MoveIsFree(g, protos, a.used, avail);
      ClaimKeepsSound(services, a, visited, g, port, b, avail);
  }

  lemma {:induction false} AllocateIsSound(services: Services, order: seq<string>, avail: Oracle)
    requires forall i, j :: 0 <= i < j < |order| ==> order[i] != order[j]
    ensures Sound(services, Allocate(services, order, avail), order, avail)
  {
    if order != [] {
      var init, last := order[..|order| - 1], order[|order| - 1];
      AllocateIsSound(services, init, avail);
      VisitKeepsSound(services, Allocate(services, init, avail), init, last, avail);
      assert init + [last] == order;
    }
  }

  /** A numeric group that neither keeps its port nor gets a new one. */
  ghost predicate Stuck(services: Services, a: Allocation, g: string) {
    g in Published(services) && Numeric(g) && !a.Settled(g)
  }

  // ---- main results -------------------------------------------------------

  /**
   * A reference whose protocol field is `field` uses protocol `p`: tcp if the field
   * is empty, else the field in small letters.
   */
  predicate Uses(field: string, p: string) {
    if field == "" then p == "tcp" else AllFold(field, p)
  }

  lemma {:induction false} FoldIsUnique(s: string, q: string, r: string)
    requires AllFold(s, q) && AllFold(s, r)
    ensures q == r
  {
    assert |q| == |r| && forall i :: 0 <= i < |q| ==> FoldsTo(s[i], q[i]) && FoldsTo(s[i], r[i]);
  }

  /** Every reference uses one protocol; two use the same when their fields agree up to case, or one is empty. */
  lemma UsesItsProto(port: PortConfig, p: string)
    ensures Uses(port.protocol, p) <==> p == port.Proto()
  {
    if port.protocol != "" {
      assert AllFold(port.protocol, port.Proto());
      if AllFold(port.protocol, p) {
        FoldIsUnique(port.protocol, p, port.Proto());
      }
    }
  }

  lemma SettledClaims(services: Services, a: Allocation, order: seq<string>, avail: Oracle, k: string, i: int)
    requires Sound(services, a, order, avail) && At(services, k, i) && a.Settled(services[k][i].published)
    ensures var g, after := services[k][i].published, Rewrite(services, a.remap);
            && Atoi(after[k][i].published) == Parsed(a.Port(g)) && avail(a.Port(g), services[k][i].Proto())
            && Claims(services, a, g, services[k][i].Proto(), a.Port(g))
  {
    assert Claims(services, a, services[k][i].published, services[k][i].Proto(), a.Port(services[k][i].published));
  }

  /** In every order of visiting the groups, a settled reference ends on a port available for the protocol it uses. */
  lemma SettledPortsAreAvailable(services: Services, order: seq<string>, avail: Oracle, k: string, i: int, p: string)
    requires IsOrderOf(order, Published(services)) && At(services, k, i) && Uses(services[k][i].protocol, p)
    requires Allocate(services, order, avail).Settled(services[k][i].published)
    ensures var port := Atoi(Rewrite(services, Allocate(services, order, avail).remap)[k][i].published);
            port.Parsed? && avail(port.value, p)
  {
    AllocateIsSound(services, order, avail);
    UsesItsProto(services[k][i], p);
    hide Sound, Claims, Uses, Protos, Atoi, Allocate, IsOrderOf;
    SettledClaims(services, Allocate(services, order, avail), order, avail, k, i);
  }

  /**
   * And two references that come from different settled groups and use the same
   * protocol, however each spells it, end on different port numbers.
   */
  lemma ClaimsAreDisjoint(services: Services, order: seq<string>, avail: Oracle, k: string, i: int, l: string, j: int,
                          p: string)
    requires IsOrderOf(order, Published(services)) && At(services, k, i) && At(services, l, j)
    requires Uses(services[k][i].protocol, p) && Uses(services[l][j].protocol, p)
    requires var a, g, h := Allocate(services, order, avail), services[k][i].published, services[l][j].published;
             g != h && a.Settled(g) && a.Settled(h)
    ensures var after := Rewrite(services, Allocate(services, order, avail).remap);
            Atoi(after[k][i].published) != Atoi(after[l][j].published)
  {
    var a := Allocate(services, order, avail);
    AllocateIsSound(services, order, avail);
    UsesItsProto(services[k][i], p);
    UsesItsProto(services[l][j], p);
    hide Uses, Protos, Atoi, Allocate, IsOrderOf, Claims;
    SettledClaims(services, a, order, avail, k, i);
    SettledClaims(services, a, order, avail, l, j);
  }

  /** Numeric group `g` asks for port `n` with protocol `p`. */
  ghost predicate Asks(services: Services, g: string, p: string, n: int) {
    g in Published(services) && Numeric(g) && p in Protos(services, g) && n == NumberOf(g)
  }

  /** Every port asked for is available, and no two groups ask for the same port and protocol. */
  ghost predicate ConflictFree(services: Services, avail: Oracle) {
    && (forall g, p, n :: Asks(services, g, p, n) ==> avail(n, p))
    && (forall g, h, p, n :: Asks(services, g, p, n) && Asks(services, h, p, n) ==> g == h)
  }

  /** While nothing has moved, a group of a conflict-free app finds its own port unclaimed. */
  lemma OwnPortUnclaimed(services: Services, a: Allocation, visited: seq<string>, g: string, avail: Oracle)
    requires ConflictFree(services, avail) && Sound(services, a, visited, avail) && a.remap == map[]
    requires g in Published(services) && Numeric(g) && g !in visited
    requires forall h :: h in visited ==> h in Published(services)
    ensures AllFree(NumberOf(g), Protos(services, g), a.used, avail)
  {
    var n := NumberOf(g);
    forall p | p in Protos(services, g) ensures UseKey(p, n) !in a.used && avail(n, p) {
      assert Asks(services, g, p, n);
      if UseKey(p, n) in a.used {
        assert Owned(services, a, UseKey(p, n));
        var h, q, m :| Claims(services, a, h, q, m) && UseKey(p, n) == UseKey(q, m);
        UseKeyInjective(p, n, q, m);
        assert Asks(services, h, p, n);
      }
    }
  }

  lemma {:induction false} ConflictFreeKeeps(services: Services, order: seq<string>, avail: Oracle)
    requires ConflictFree(services, avail)
    requires forall g :: g in order ==> g in Published(services)
    requires forall i, j :: 0 <= i < j < |order| ==> order[i] != order[j]
    ensures Allocate(services, order, avail).remap == map[]
    ensures forall g :: g in order && Numeric(g) ==> g in Allocate(services, order, avail).kept
  {
    hide FindPort, UseKey, Atoi, Protos, Published, Itoa;
    if order != [] {
      var init, g := order[..|order| - 1], order[|order| - 1];
      ConflictFreeKeeps(services, init, avail);
      AllocateIsSound(services, init, avail);
      var a := Allocate(services, init, avail);
      assert g in order;
      if Numeric(g) {
        OwnPortUnclaimed(services, a, init, g, avail);
      }
      assert order == init + [g];
    }
  }

  /** The allocator leaves an app alone, with no group stuck, exactly when nothing conflicts. */
  lemma UntouchedIffConflictFree(services: Services, order: seq<string>, avail: Oracle)
    requires IsOrderOf(order, Published(services))
    ensures var a := Allocate(services, order, avail);
            ConflictFree(services, avail) <==> a.remap == map[] && !exists g :: Stuck(services, a, g)
  {
    var a := Allocate(services, order, avail);
    AllocateIsSound(services, order, avail);
    if ConflictFree(services, avail) {
      ConflictFreeKeeps(services, order, avail);
    }
    if a.remap == map[] && !exists g :: Stuck(services, a, g) {
      forall g, p, n | Asks(services, g, p, n) ensures Claims(services, a, g, p, n) {
        assert !Stuck(services, a, g);
      }
    }
  }

  /** What a group of the rewritten app asks for is what one original group holds. */
  lemma Origin(services: Services, a: Allocation, g': string, p: string, n: int) returns (g: string)
    requires "" !in a.remap && (forall g :: g in a.remap ==> Numeric(g))
    requires !exists g :: Stuck(services, a, g)
    requires Asks(Rewrite(services, a.remap), g', p, n)
    ensures Claims(services, a, g, p, n) && a.Final(g) == g'
  {
    var after: Services := Rewrite(services, a.remap);
    var k: string, j: int :| k in after && 0 <= j < |after[k]| && after[k][j].published == g'
        && after[k][j].Proto() == p;
    assert At(services, k, j);
    g := services[k][j].published;
    assert services[k][j].Proto() == p;
    assert !Stuck(services, a, g);
  }

  lemma ResultIsConflictFree(services: Services, order: seq<string>, avail: Oracle)
    requires IsOrderOf(order, Published(services))
    requires !exists g :: Stuck(services, Allocate(services, order, avail), g)
    ensures ConflictFree(Rewrite(services, Allocate(services, order, avail).remap), avail)
  {
    AllocateIsSound(services, order, avail);
    var a := Allocate(services, order, avail);
    var after: Services := Rewrite(services, a.remap);
    assert "" !in a.remap by { assert "" in a.remap ==> a.Settled(""); }
    assert forall g :: g in a.remap ==> a.Settled(g);
    forall g', p, n | Asks(after, g', p, n) ensures avail(n, p) {
      var g := Origin(services, a, g', p, n);
    }
    forall g', h', p, n | Asks(after, g', p, n) && Asks(after, h', p, n) ensures g' == h' {
      var g := Origin(services, a, g', p, n);
      var h := Origin(services, a, h', p, n);
    }
  }

  /**
   * With no group stuck, allocating again on the result, in any order, moves
   * nothing: also when tcp and udp groups have merged on one port string.
   */
  lemma AllocatingAgainChangesNothing(services: Services, order: seq<string>, again: seq<string>, avail: Oracle)
    requires IsOrderOf(order, Published(services))
    requires IsOrderOf(again, Published(Rewrite(services, Allocate(services, order, avail).remap)))
    requires !exists g :: Stuck(services, Allocate(services, order, avail), g)
    ensures var after := Rewrite(services, Allocate(services, order, avail).remap);
            && Allocate(after, again, avail).remap == map[]
            && Rewrite(after, map[]) == after
  {
    var after: Services := Rewrite(services, Allocate(services, order, avail).remap);
    ResultIsConflictFree(services, order, avail);
    UntouchedIffConflictFree(after, again, avail);
    RewriteNothing(after);
  }

  /** A moved group goes up, by at most 1000 and not past the last port (unless its number is the greatest integer). */
  lemma {:induction false} RemapTargets(services: Services, order: seq<string>, avail: Oracle, g: string)
    requires g in Allocate(services, order, avail).remap
    ensures var port := NumberOf(Allocate(services, order, avail).remap[g]);
            && Allocate(services, order, avail).remap[g] == Itoa(port) && port != 0 && port <= 65535
            && Numeric(g) && (NumberOf(g) < MAX_INT ==> NumberOf(g) < port <= NumberOf(g) + 1000)
  {
    var init, last := order[..|order| - 1], order[|order| - 1];
    var a := Allocate(services, init, avail);
    if last == g && Choose(g, Protos(services, g), a.used, avail).Move? {
      MoveIsFree(g, Protos(services, g), a.used, avail);
    } else {
      RemapTargets(services, init, avail, g);
    }
  }

  lemma UsedGrows(services: Services, a: Allocation, g: string, avail: Oracle)
    ensures a.used <= Visit(services, a, g, avail).used
  {
  }

  lemma FreeShrinks(port: int, protos: set<string>, used: set<string>, used': set<string>, avail: Oracle)
    requires used <= used'
    ensures AllFree(port, protos, used', avail) ==> AllFree(port, protos, used, avail)
  {
  }

  /**
   * The j-th port counted from a group numbered n is the group's own, or one in
   * reach that the search went past. A search that came from below zero and found
   * nothing may have stopped at port 0 being free, which reads as nothing found.
   */
  predicate PassedOver(n: int, j: nat, moved: bool, port: int, zeroFree: bool)
    requires IsInt64(n) && j <= 1000
  {
    j == 0
    || (&& WrapAdd(n, 1) <= 65535 && WrapAdd(n, j) <= 65535
        && if moved then WrapAdd(n, j) < port else !(zeroFree && n < 0 <= WrapAdd(n, j)))
  }

  lemma OffsetsAscend(n: int, j: nat, k: nat)
    requires IsInt64(n) && 1 <= j < k <= 1000 && WrapAdd(n, 1) <= 65535
    ensures WrapAdd(n, j) < WrapAdd(n, k)
  {
  }

  /** No smaller move was possible when group `g` was visited. */
  lemma ChoiceIsFirstFit(g: string, protos: set<string>, used: set<string>, avail: Oracle, j: nat)
    requires Numeric(g) && j <= 1000
    requires var choice := Choose(g, protos, used, avail);
             !choice.Keep? && PassedOver(NumberOf(g), j, choice.Move?, if choice.Move? then choice.port else 0,
                                         AllFree(0, protos, {}, avail))
    ensures !AllFree(WrapAdd(NumberOf(g), j), protos, used, avail)
  {
    var n := NumberOf(g);
    assert !AllFree(n, protos, used, avail);
    if j > 0 {
      var k := FindPortIsFirst(n, 1, protos, used, avail);
      FreeShrinks(0, protos, {}, used, avail);
      hide FindPort, AllFree, Atoi;
      if k < j {
        OffsetsAscend(n, k, j);
      }
    }
  }

  /** Visiting one group leaves what became of the others. */
  lemma VisitOther(services: Services, a: Allocation, last: string, avail: Oracle, g: string)
    requires last != g
    ensures var b := Visit(services, a, last, avail);
            (g in a.kept <==> g in b.kept) && (g in a.remap <==> g in b.remap) && a.Port(g) == b.Port(g)
  {
    hide Choose, Protos, UseKey, Atoi, Itoa;
    assert a.Final(g) == Visit(services, a, last, avail).Final(g);
  }

  lemma FirstFitWhenVisited(services: Services, a: Allocation, g: string, avail: Oracle, j: nat)
    requires !a.Settled(g) && Numeric(g) && j <= 1000
    requires var b, protos := Visit(services, a, g, avail), Protos(services, g);
             g !in b.kept && PassedOver(NumberOf(g), j, g in b.remap, b.Port(g), AllFree(0, protos, {}, avail))
    ensures !AllFree(WrapAdd(NumberOf(g), j), Protos(services, g), a.used, avail)
  {
    var protos, b := Protos(services, g), Visit(services, a, g, avail);
    var choice := Choose(g, protos, a.used, avail);
    if choice.Move? {
      MoveIsFree(g, protos, a.used, avail);
      assert b.Port(g) == choice.port;
    }
    hide AllFree, FindPort, Protos, UseKey, Atoi, Itoa;
    ChoiceIsFirstFit(g, protos, a.used, avail, j);
  }

  /**
   * A group with a number leaves its port only if that is taken, goes no further
   * than it has to, and is stuck only if nothing in reach is free: every port
   * passed over is unavailable, or claimed by some group, for one of its
   * protocols.
   */
  lemma {:induction false} FirstFit(services: Services, order: seq<string>, avail: Oracle, g: string, j: nat)
    requires g in order && (forall i, k :: 0 <= i < k < |order| ==> order[i] != order[k])
    requires Numeric(g) && j <= 1000
    requires var a := Allocate(services, order, avail);
             && g !in a.kept
             && PassedOver(NumberOf(g), j, g in a.remap, a.Port(g), AllFree(0, Protos(services, g), {}, avail))
    ensures !AllFree(WrapAdd(NumberOf(g), j), Protos(services, g), Allocate(services, order, avail).used, avail)
  {
    hide Visit, Choose, AllFree, FindPort, Protos, UseKey, Atoi, Itoa, PassedOver;
    var init, last := order[..|order| - 1], order[|order| - 1];
    var a, b := Allocate(services, init, avail), Allocate(services, order, avail);
    assert order == init + [last];
    UsedGrows(services, a, last, avail);
    FreeShrinks(WrapAdd(NumberOf(g), j), Protos(services, g), a.used, b.used, avail);
    if last == g {
      AllocateIsSound(services, init, avail);
      FirstFitWhenVisited(services, a, g, avail, j);
    } else {
      VisitOther(services, a, last, avail, g);
      FirstFit(services, init, avail, g, j);
    }
  }

  /** In terms of ports, for a group with a port number from 0 up. */
  lemma NoPortIsPassedOver(services: Services, order: seq<string>, avail: Oracle, g: string, c: int)
    requires IsOrderOf(order, Published(services)) && g in Published(services)
    requires Numeric(g) && 0 <= NumberOf(g) <= c <= NumberOf(g) + 1000 && c <= 65535
    requires var a := Allocate(services, order, avail);
             g !in a.kept && (g in a.remap ==> c < NumberOf(a.remap[g]))
    ensures exists p :: p in Protos(services, g)
                        && (!avail(c, p) || UseKey(p, c) in Allocate(services, order, avail).used)
  {
    var n, a := NumberOf(g), Allocate(services, order, avail);
    hide Allocate, Protos, Published, Atoi, Itoa, UseKey;
    assert WrapAdd(n, c - n) == c;
    FirstFit(services, order, avail, g, c - n);
  }

  /**
   * A reference ends on its group's new port or where it was; its target and
   * protocol stay, and references that shared a published string share it still.
   */
  lemma ReferencesMoveTogether(services: Services, order: seq<string>, avail: Oracle, k: string, i: int, l: string,
                               j: int)
    requires At(services, k, i) && At(services, l, j)
    ensures var remap := Allocate(services, order, avail).remap;
            var after := Rewrite(services, remap);
            var old', new' := services[k][i].published, after[k][i].published;
            && (if old' in remap then new' == Itoa(NumberOf(remap[old'])) else new' == old')
            && after[k][i].target == services[k][i].target && after[k][i].protocol == services[k][i].protocol
            && (old' == services[l][j].published ==> new' == after[l][j].published)
  {
    var old' := services[k][i].published;
    if old' in Allocate(services, order, avail).remap {
      RemapTargets(services, order, avail, old');
    }
  }

  lemma AllocateTwo(services: Services, x: string, y: string, avail: Oracle)
    ensures Allocate(services, [x, y], avail)
         == Visit(services, Visit(services, NOTHING_ALLOCATED, x, avail), y, avail)
  {
    var s, t := [x], [x, y];
    assert s[..|s| - 1] == [] && t[..|t| - 1] == s;
    assert Allocate(services, [], avail) == NOTHING_ALLOCATED;
    assert Allocate(services, s, avail) == Visit(services, NOTHING_ALLOCATED, x, avail);
  }

  lemma NeighbourUsed(m: int, used: set<string>, avail: Oracle)
    requires 0 <= m < 65535 && UseKey("tcp", m + 1) in used
    requires forall p :: avail(p, "tcp") <==> p == m + 1
    ensures FindPort(m, 1, {"tcp"}, used, avail) == 0
  {
    var k := FindPortIsFirst(m, 1, {"tcp"}, used, avail);
    assert "tcp" in {"tcp"};
    hide FindPort, UseKey;
  }

  lemma NeighbourFirst(services: Services, a: string, b: string, avail: Oracle, m: int)
    requires 0 <= m < 65535 && Atoi(a) == Parsed(m) && Atoi(b) == Parsed(m + 1)
    requires Protos(services, a) == {"tcp"} && Protos(services, b) == {"tcp"}
    requires forall p :: avail(p, "tcp") <==> p == m + 1
    ensures Allocate(services, [b, a], avail).remap == map[] && !Allocate(services, [b, a], avail).Settled(a)
  {
    hide FindPort, Atoi, Protos, Published, Itoa, UseKey;
    AllocateTwo(services, b, a, avail);
    assert Choose(b, {"tcp"}, {}, avail) == Keep(m + 1);
    var one := Visit(services, NOTHING_ALLOCATED, b, avail);
    assert UseKey("tcp", m + 1) in one.used;
    NeighbourUsed(m, one.used, avail);
    assert "tcp" in {"tcp"} && Choose(a, {"tcp"}, one.used, avail) == Leave;
  }

  lemma NeighbourGiven(services: Services, a: string, b: string, avail: Oracle, m: int)
    requires 0 <= m < 65535 && Atoi(a) == Parsed(m) && Protos(services, a) == {"tcp"}
    requires forall p :: avail(p, "tcp") <==> p == m + 1
    ensures a in Allocate(services, [a, b], avail).remap
  {
    AllocateTwo(services, a, b, avail);
    var k := FindPortIsFirst(m, 1, {"tcp"}, {}, avail);
    assert "tcp" in {"tcp"};
    hide FindPort, Atoi, Protos, Itoa, UseKey;
    assert AllFree(WrapAdd(m, 1), {"tcp"}, {}, avail);
    assert Choose(a, {"tcp"}, {}, avail) == Move(m + 1);
    assert a in Visit(services, NOTHING_ALLOCATED, a, avail).remap;
  }

  lemma TwoPortApp(services: Services, a: string, b: string)
    requires a != "" && b != "" && a != b
    requires services == map["web" := [PortConfig(1, a, "tcp"), PortConfig(2, b, "tcp")]]
    ensures Published(services) == {a, b}
    ensures Protos(services, a) == {"tcp"} && Protos(services, b) == {"tcp"}
  {
    var ports := services["web"];
    assert ToLower("tcp") == "tcp";
    assert ports[0].Proto() == "tcp" && ports[1].Proto() == "tcp";
    assert a in Published(services) && b in Published(services);
    assert "tcp" in Protos(services, a) && "tcp" in Protos(services, b);
  }

  lemma NeighboursDiffer(services: Services, a: string, b: string, avail: Oracle, m: int)
    requires 0 <= m < 65535 && Atoi(a) == Parsed(m) && Atoi(b) == Parsed(m + 1) && a != "" && b != ""
    requires services == map["web" := [PortConfig(1, a, "tcp"), PortConfig(2, b, "tcp")]]
    requires forall p :: avail(p, "tcp") <==> p == m + 1
    ensures IsOrderOf([b, a], Published(services)) && IsOrderOf([a, b], Published(services))
    ensures Stuck(services, Allocate(services, [b, a], avail), a)
    ensures Rewrite(services, Allocate(services, [b, a], avail).remap) == services
    ensures a in Allocate(services, [a, b], avail).remap
  {
    hide FindPort, UseKey, Allocate, Rewrite, Protos, Published, Atoi, Itoa;
    TwoPortApp(services, a, b);
    NeighbourFirst(services, a, b, avail, m);
    NeighbourGiven(services, a, b, avail, m);
    RewriteNothing(services);
  }

  /**
   * The proviso of AllocatingAgainChangesNothing is needed: a group left stuck
   * can take a port from another group when the second run visits it first.
   * Here only port m + 1 is free, and it is published beside port m.
   */
  lemma StuckGroupsMayMoveLater(m: int) returns (services: Services, avail: Oracle)
    requires 0 <= m < 65535
    ensures services == map["web" := [PortConfig(1, Itoa(m), "tcp"), PortConfig(2, Itoa(m + 1), "tcp")]]
    ensures IsOrderOf([Itoa(m + 1), Itoa(m)], Published(services))
              && IsOrderOf([Itoa(m), Itoa(m + 1)], Published(services))
    ensures var a := Allocate(services, [Itoa(m + 1), Itoa(m)], avail);
            Stuck(services, a, Itoa(m)) && Rewrite(services, a.remap) == services
    ensures Itoa(m) in Allocate(services, [Itoa(m), Itoa(m + 1)], avail).remap
  {
    AtoiItoa(m);
    AtoiItoa(m + 1);
    hide *;
    NothingNotNumeric();
    services := map["web" := [PortConfig(1, Itoa(m), "tcp"), PortConfig(2, Itoa(m + 1), "tcp")]];
    avail := (port, p) => port == m + 1;
    NeighboursDiffer(services, Itoa(m), Itoa(m + 1), avail, m);
  }

  lemma NothingNotNumeric()
    ensures Atoi("") == SyntaxError
  {
  }

  // ---- the store metadata follows -----------------------------------------

  datatype Field = Str(s: string) | Num(n: int) | OtherField

  /** The value of a compose extension: null, a table of fields, or something else. */
  datatype Extension = Null | Table(fields: map<string, Field>) | NotTable

  type Extensions = map<string, Extension>

  const EXTENSION_PRIORITY: seq<string> := ["x-powerlab", "x-web", "x-casaos"]

  const PORT_FIELDS: seq<string> := ["port_map", "web", "port"]

  /** The alias the app's extension is written under: the first present one that is not null. */
  function ExtensionKey(extensions: Extensions, priority: seq<string>): Option<string> {
    if priority == [] then None
    else if priority[0] in extensions && extensions[priority[0]] != Null then Some(priority[0])
    else ExtensionKey(extensions, priority[1..])
  }

  /** The extension's table, when the first alias present holds one. */
  function StoreTable(extensions: Extensions): (key: Option<string>)
    ensures key.Some? ==> key.value in extensions && extensions[key.value].Table?
  {
    var key := ExtensionKey(extensions, EXTENSION_PRIORITY);
    if key.Some? && key.value in extensions && extensions[key.value].Table? then key else None
  }

  function FollowField(f: Field, remap: map<string, string>): Field {
    match f
    case Str(s) => Str(Renamed(remap, s))
    case Num(n) =>
      if Itoa(n) in remap && Atoi(remap[Itoa(n)]).Parsed? then Num(Atoi(remap[Itoa(n)]).value) else f
    case OtherField => f
  }

  function FollowTable(fields: map<string, Field>, remap: map<string, string>): map<string, Field> {
    map k | k in fields :: if k in PORT_FIELDS then FollowField(fields[k], remap) else fields[k]
  }

  function Follow(extensions: Extensions, remap: map<string, string>): Extensions {
    var key := StoreTable(extensions);
    if key.None? then extensions
    else extensions[key.value := Table(FollowTable(extensions[key.value].fields, remap))]
  }

  /**
   * A port field that named a reference's published port before the allocation
   * (as that very string, or as the integer it prints) names its port afterwards.
   */
  lemma StoreFieldFollows(services: Services, order: seq<string>, avail: Oracle, k: string, j: int, f: Field)
    requires IsOrderOf(order, Published(services)) && At(services, k, j)
    requires f.Num? ==> IsInt64(f.n)
    ensures var remap := Allocate(services, order, avail).remap;
            var before := services[k][j].published;
            var after := Rewrite(services, remap)[k][j].published;
            && (f == Str(before) ==> FollowField(f, remap) == Str(after))
            && (f.Num? && Itoa(f.n) == before ==>
                  FollowField(f, remap).Num? && Itoa(FollowField(f, remap).n) == after)
  {
    var a := Allocate(services, order, avail);
    var before := services[k][j].published;
    if f.Num? && Itoa(f.n) == before {
      AtoiItoa(f.n);
      if before in a.remap {
        RemapTargets(services, order, avail, before);
        AtoiItoa(NumberOf(a.remap[before]));
      }
    }
  }

  predicate Present(extensions: Extensions, key: string) {
    key in extensions && extensions[key] != Null
  }

  /** The alias that counts: x-powerlab before x-web before x-casaos. */
  predicate Governs(extensions: Extensions, key: string) {
    && Present(extensions, key)
    && (key == "x-powerlab"
        || (key == "x-web" && !Present(extensions, "x-powerlab"))
        || (key == "x-casaos" && !Present(extensions, "x-powerlab") && !Present(extensions, "x-web")))
  }

  lemma GoverningIsFirst(extensions: Extensions, key: string)
    ensures Governs(extensions, key) <==> ExtensionKey(extensions, EXTENSION_PRIORITY) == Some(key)
  {
    var all := EXTENSION_PRIORITY;
    assert all[1..][1..][1..] == [] && all[1..] == ["x-web", "x-casaos"] && all[1..][1..] == ["x-casaos"];
    assert ExtensionKey(extensions, []) == None;
    KeyStep(extensions, all[1..][1..]);
    KeyStep(extensions, all[1..]);
    KeyStep(extensions, all);
  }

  lemma KeyStep(extensions: Extensions, priority: seq<string>)
    requires priority != []
    ensures ExtensionKey(extensions, priority)
         == if Present(extensions, priority[0]) then Some(priority[0]) else ExtensionKey(extensions, priority[1..])
  {
  }

  /**
   * Of the extensions only the table of the alias that counts changes, in it only
   * the fields port_map, web and port, and of those only ones that name a moved
   * group.
   */
  lemma FollowChangesOnly(extensions: Extensions, remap: map<string, string>, key: string, name: string)
    ensures var after := Follow(extensions, remap);
            && after.Keys == extensions.Keys
            && (key in extensions && !(Governs(extensions, key) && extensions[key].Table?) ==>
                  after[key] == extensions[key])
            && (key in extensions && extensions[key].Table? ==>
                  && after[key].Table? && after[key].fields.Keys == extensions[key].fields.Keys
                  && (name in extensions[key].fields && after[key].fields[name] != extensions[key].fields[name] ==>
                        && name in {"port_map", "web", "port"}
                        && match extensions[key].fields[name]
                           case Str(s) => s in remap
                           case Num(n) => Itoa(n) in remap
                           case OtherField => false))
  {
    GoverningIsFirst(extensions, key);
    PortFieldNames(name);
    hide ExtensionKey, Itoa, Atoi, PORT_FIELDS;
  }

  lemma PortFieldNames(name: string)
    ensures name in PORT_FIELDS <==> name in {"port_map", "web", "port"}
  {
  }

  /**
   * The store metadata names the ports of the app after it is settled: in the
   * table of the alias that counts, a field port_map, web or port that named a
   * reference's published port names the one it has now.
   */
  lemma MetadataFollows(services: Services, order: seq<string>, avail: Oracle, k: string, j: int,
                        extensions: Extensions, key: string, name: string)
    requires IsOrderOf(order, Published(services)) && At(services, k, j)
    requires Governs(extensions, key) && extensions[key].Table? && name in {"port_map", "web", "port"}
    requires name in extensions[key].fields
    requires extensions[key].fields[name].Num? ==> IsInt64(extensions[key].fields[name].n)
    ensures var remap := Allocate(services, order, avail).remap;
            var before, after := services[k][j].published, Rewrite(services, remap)[k][j].published;
            var f, t := extensions[key].fields[name], Follow(extensions, remap)[key];
            && t.Table? && name in t.fields
            && (f == Str(before) ==> t.fields[name] == Str(after))
            && (f.Num? && Itoa(f.n) == before ==> t.fields[name].Num? && Itoa(t.fields[name].n) == after)
  {
    GoverningIsFirst(extensions, key);
    PortFieldNames(name);
    StoreFieldFollows(services, order, avail, k, j, extensions[key].fields[name]);
    hide ExtensionKey, Itoa, Atoi, PORT_FIELDS, Allocate, Published, FollowField, Rewrite;
  }

  // ---- the loops, on the app in place -------------------------------------

  datatype Ref = Ref(svc: string, port: nat, proto: string)

  type Groups = map<string, seq<Ref>>

  ghost predicate IsRefTo(services: Services, r: Ref, g: string) {
    At(services, r.svc, r.port) && services[r.svc][r.port].published == g && services[r.svc][r.port].Proto() == r.proto
  }

  /** Position (k, j) has been reached: its service is done, or it is the current one and j is below `upto`. */
  ghost predicate Reached(services: Services, todo: set<string>, current: string, upto: nat, k: string, j: int) {
    At(services, k, j) && (k !in todo || (k == current && j < upto))
  }

  ghost predicate Grouped(services: Services, groups: Groups, todo: set<string>, current: string, upto: nat) {
    && (forall g, r :: g in groups && r in groups[g] ==> IsRefTo(services, r, g))
    && (forall g :: g in groups ==> g != "" && groups[g] != [])
    && (forall k, j :: Reached(services, todo, current, upto, k, j) && services[k][j].published != "" ==>
          && services[k][j].published in groups
          && Ref(k, j, services[k][j].Proto()) in groups[services[k][j].published])
  }

  ghost predicate GroupsOf(services: Services, groups: Groups) {
    && (forall g, r :: g in groups && r in groups[g] ==> IsRefTo(services, r, g))
    && (forall g :: g in groups ==> g != "" && groups[g] != [])
    && (forall k, j :: At(services, k, j) && services[k][j].published != "" ==>
          && services[k][j].published in groups
          && Ref(k, j, services[k][j].Proto()) in groups[services[k][j].published])
  }

  lemma GroupNames(services: Services, groups: Groups)
    requires GroupsOf(services, groups)
    ensures forall g :: g in groups <==> g in Published(services)
    ensures forall g :: g in groups ==> (set r | r in groups[g] :: r.proto) == Protos(services, g)
  {
    forall g | g in groups ensures g in Published(services) {
      assert IsRefTo(services, groups[g][0], g);
    }
    forall g | g in groups ensures (set r | r in groups[g] :: r.proto) == Protos(services, g) {
      forall p | p in Protos(services, g) ensures p in set r | r in groups[g] :: r.proto {
        var k: string, j: int :| k in services && 0 <= j < |services[k]| && services[k][j].published == g
            && services[k][j].Proto() == p;
        assert At(services, k, j);
        assert Ref(k, j, p) in groups[g];
      }
    }
  }

  method GroupPorts(services: Services) returns (groups: Groups)
    ensures GroupsOf(services, groups)
  {
    groups := map[];
    var todo := services.Keys;
    while todo != {}
      invariant todo <= services.Keys
      invariant Grouped(services, groups, todo, "", 0)
    {
      var k :| k in todo;
      var ports := services[k];
      for j := 0 to |ports|
        invariant Grouped(services, groups, todo, k, j)
      {
        if ports[j].published != "" {
          var g := ports[j].published;
          var refs := if g in groups then groups[g] else [];
          groups := groups[g := refs + [Ref(k, j, ports[j].Proto())]];
        }
      }
      todo := todo - {k};
    }
  }

  method RefProtos(refs: seq<Ref>) returns (protos: set<string>)
    ensures protos == set r | r in refs :: r.proto
  {
    protos := {};
    for j := 0 to |refs|
      invariant protos == set r | r in refs[..j] :: r.proto
    {
      assert refs[..j + 1] == refs[..j] + [refs[j]];
      protos := protos + {refs[j].proto};
    }
    assert refs[..|refs|] == refs;
  }

  /** Whether every protocol is free on `port`, probing them in any order and stopping at the first that is not. */
  method FreeForAll(port: int, protos: set<string>, used: set<string>, avail: Oracle) returns (ok: bool)
    ensures ok == AllFree(port, protos, used, avail)
  {
    var todo := protos;
    while todo != {}
      invariant todo <= protos
      invariant AllFree(port, protos - todo, used, avail)
    {
      var p :| p in todo;
      if UseKey(p, port) in used || !avail(port, p) {
        return false;
      }
      todo := todo - {p};
    }
    assert protos - todo == protos;
    return true;
  }

  method FindCommonAvailablePort(start: int, protos: set<string>, used: set<string>, avail: Oracle) returns (port: int)
    requires IsInt64(start)
    ensures port == FindPort(start, 1, protos, used, avail)
  {
    for i := 1 to 1001
      invariant FindPort(start, 1, protos, used, avail) == FindPort(start, i, protos, used, avail)
    {
      var candidate := WrapAdd(start, i);
      if candidate > 65535 {
        return 0;
      }
      var ok := FreeForAll(candidate, protos, used, avail);
      if ok {
        return candidate;
      }
    }
    return 0;
  }

  method ChooseFor(g: string, protos: set<string>, used: set<string>, avail: Oracle) returns (choice: Choice)
    ensures choice == Choose(g, protos, used, avail)
  {
    match Atoi(g)
    case SyntaxError => return Leave;
    case RangeError(_) => return Leave;
    case Parsed(n) =>
      var free := FreeForAll(n, protos, used, avail);
      if free {
        return Keep(n);
      }
      var port := FindCommonAvailablePort(n, protos, used, avail);
      return if port == 0 then Leave else Move(port);
  }

  class ComposeApp {
    var services: Services
    var extensions: Extensions

    /** Gives every listed reference the new published port. */
    method Publish(refs: seq<Ref>, port: string)
      requires forall r :: r in refs ==> At(services, r.svc, r.port)
      modifies this`services
      ensures forall k :: k in services <==> k in old(services)
      ensures forall k :: k in services ==> |services[k]| == |old(services)[k]|
      ensures forall k, j :: At(services, k, j) ==>
                services[k][j] == if exists r :: r in refs && r.svc == k && r.port == j
                                  then old(services)[k][j].(published := port) else old(services)[k][j]
    {
      for i := 0 to |refs|
        invariant forall k :: k in services <==> k in old(services)
        invariant forall k :: k in services ==> |services[k]| == |old(services)[k]|
        invariant forall k, j :: At(services, k, j) ==>
                    services[k][j] == if exists r :: r in refs[..i] && r.svc == k && r.port == j
                                      then old(services)[k][j].(published := port) else old(services)[k][j]
      {
        var r := refs[i];
        assert At(services, r.svc, r.port);
        assert refs[..i + 1] == refs[..i] + [r];
        var ports := services[r.svc];
        services := services[r.svc := ports[r.port := ports[r.port].(published := port)]];
      }
      assert refs[..|refs|] == refs;
    }

    /** Moves every reference of group `g` to `port`. */
    method MoveGroup(g: string, groups: Groups, port: string, ghost start: Services, ghost remap: map<string, string>)
      requires GroupsOf(start, groups) && g in groups && services == Rewrite(start, remap)
      modifies this`services
      ensures services == Rewrite(start, remap[g := port])
    {
      forall r | r in groups[g] ensures At(services, r.svc, r.port) {
        assert IsRefTo(start, r, g);
      }
      Publish(groups[g], port);
      PublishIsRewrite(start, remap, groups, g, port, services);
    }

    /** One turn of the allocation loop: keep the group, move all its references, or leave it. */
    method SettleGroup(g: string, groups: Groups, used: set<string>, remap: map<string, string>, avail: Oracle,
                       ghost start: Services, ghost a: Allocation)
      returns (used': set<string>, remap': map<string, string>)
      requires GroupsOf(start, groups) && g in groups
      requires services == Rewrite(start, remap) && a.used == used && a.remap == remap
      modifies this`services
      ensures services == Rewrite(start, remap')
      ensures used' == Visit(start, a, g, avail).used && remap' == Visit(start, a, g, avail).remap
    {
      used', remap' := used, remap;
      GroupNames(start, groups);
      var protos := RefProtos(groups[g]);
      var choice := ChooseFor(g, protos, used, avail);
      match choice
      case Leave =>
      case Keep(n) =>
        used' := used + set p | p in protos :: UseKey(p, n);
      case Move(port) =>
        used', remap' := used + (set p | p in protos :: UseKey(p, port)), remap[g := Itoa(port)];
        MoveGroup(g, groups, Itoa(port), start, remap);
    }

    method AutoRemapPorts(avail: Oracle, order: seq<string>) returns (remap: map<string, string>)
      requires IsOrderOf(order, Published(services))
      modifies this`services
      ensures remap == Allocate(old(services), order, avail).remap
      ensures services == Rewrite(old(services), remap)
    {
      hide Visit, Protos, Rewrite, GroupsOf;
      var groups := GroupPorts(services);
      GroupNames(services, groups);
      remap := map[];
      RewriteNothing(services);
      var used: set<string> := {};
      ghost var a := NOTHING_ALLOCATED;
      for i := 0 to |order|
        invariant a == Allocate(old(services), order[..i], avail) && a.used == used && a.remap == remap
        invariant services == Rewrite(old(services), remap)
      {
        assert order[..i + 1][..i] == order[..i];
        assert order[i] in order;
        used, remap := SettleGroup(order[i], groups, used, remap, avail, old(services), a);
        a := Visit(old(services), a, order[i], avail);
      }
      assert order[..|order|] == order;
    }

    method UpdateStorePortMap(remap: map<string, string>)
      modifies this`extensions
      ensures extensions == Follow(old(extensions), remap)
    {
      var key := StoreTable(extensions);
      if |remap| == 0 {
        FollowNothing(extensions, remap);
        return;
      }
      if key.None? {
        return;
      }
      var fields := extensions[key.value].fields;
      ghost var start := fields;
      for i := 0 to |PORT_FIELDS|
        invariant fields.Keys == start.Keys
        invariant forall k :: k in fields ==>
                    fields[k] == if k in PORT_FIELDS[..i] then FollowField(start[k], remap) else start[k]
      {
        var name := PORT_FIELDS[i];
        assert PORT_FIELDS[..i + 1] == PORT_FIELDS[..i] + [name];
        assert name !in PORT_FIELDS[..i];
        if name in fields {
          match fields[name]
          case Str(s) =>
            if s in remap {
              fields := fields[name := Str(remap[s])];
            }
          case Num(n) =>
            if Itoa(n) in remap {
              match Atoi(remap[Itoa(n)])
              case Parsed(m) => fields := fields[name := Num(m)];
              case SyntaxError =>
              case RangeError(_) =>
            }
          case OtherField =>
        }
      }
      assert PORT_FIELDS[..|PORT_FIELDS|] == PORT_FIELDS;
      assert fields == FollowTable(start, remap);
      extensions := extensions[key.value := Table(fields)];
    }

    /** The step of an installation that resolves port conflicts. */
    method ResolvePorts(avail: Oracle, order: seq<string>) returns (remap: map<string, string>)
      requires IsOrderOf(order, Published(services))
      modifies this
      ensures remap == Allocate(old(services), order, avail).remap
      ensures services == Rewrite(old(services), remap)
      ensures extensions == Follow(old(extensions), remap)
    {
      remap := AutoRemapPorts(avail, order);
      if |remap| > 0 {
        UpdateStorePortMap(remap);
      } else {
        FollowNothing(old(extensions), remap);
      }
    }
  }

  lemma FollowNothing(extensions: Extensions, remap: map<string, string>)
    requires |remap| == 0
    ensures Follow(extensions, remap) == extensions
  {
    assert remap == map[];
    var key := StoreTable(extensions);
    if key.Some? {
      assert FollowTable(extensions[key.value].fields, remap) == extensions[key.value].fields;
    }
  }

  /** Publishing one group's references extends the simultaneous renaming by that group. */
  lemma PublishIsRewrite(start: Services, remap: map<string, string>, groups: Groups, g: string, port: string,
                         after: Services)
    requires GroupsOf(start, groups) && g in groups
    requires forall k :: k in after <==> k in start
    requires forall k :: k in after ==> |after[k]| == |start[k]|
    requires forall k, j :: At(start, k, j) ==>
               after[k][j] == if exists r :: r in groups[g] && r.svc == k && r.port == j
                              then Rewrite(start, remap)[k][j].(published := port) else Rewrite(start, remap)[k][j]
    ensures after == Rewrite(start, remap[g := port])
  {
    var r := Rewrite(start, remap[g := port]);
    forall k | k in start ensures after[k] == r[k] {
      forall j | 0 <= j < |start[k]| ensures after[k][j] == r[k][j] {
        assert At(start, k, j);
        if start[k][j].published == g {
          assert Ref(k, j, start[k][j].Proto()) in groups[g];
        }
      }
    }
  }
}
