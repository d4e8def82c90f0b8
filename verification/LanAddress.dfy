/** The host's LAN address: the interface names sorted in place, then the first usable interface. */
module LanAddress {
  import opened Text

  datatype Address = IPv4(text: string) | OtherAddress

  /** `addrs` is none when listing the interface's addresses fails. */
  datatype Interface = Interface(name: string, up: bool, loopback: bool, addrs: Option<seq<Address>>)

  function FirstIPv4(addrs: seq<Address>): Option<string> {
    if addrs == [] then None
    else if addrs[0].IPv4? then Some(addrs[0].text)
    else FirstIPv4(addrs[1..])
  }

  /** The address an interface offers: it is up, not the loopback, and has an IPv4 address. */
  function Offer(i: Interface): Option<string> {
    if i.up && !i.loopback && i.addrs.Some? then FirstIPv4(i.addrs.value) else None
  }

  /** The first IPv4 address of an interface that is up and not the loopback, and nothing else. */
  lemma {:induction false} OfferIff(i: Interface, text: string)
    ensures Offer(i) == Some(text) <==>
              && i.up && !i.loopback && i.addrs.Some?
              && exists k :: 0 <= k < |i.addrs.value| && i.addrs.value[k] == IPv4(text)
                             && forall j :: 0 <= j < k ==> !i.addrs.value[j].IPv4?
  {
    if i.addrs.Some? {
      FirstIPv4Iff(i.addrs.value, text);
    }
  }

  lemma {:induction false} FirstIPv4Iff(addrs: seq<Address>, text: string)
    ensures FirstIPv4(addrs) == Some(text) <==>
              exists k :: 0 <= k < |addrs| && addrs[k] == IPv4(text) && forall j :: 0 <= j < k ==> !addrs[j].IPv4?
  {
    if addrs != [] && !addrs[0].IPv4? {
      FirstIPv4Iff(addrs[1..], text);
      if k :| 0 <= k < |addrs[1..]| && addrs[1..][k] == IPv4(text) && forall j :: 0 <= j < k ==> !addrs[1..][j].IPv4? {
        assert addrs[k + 1] == IPv4(text) && forall j :: 0 < j < k + 1 ==> addrs[j] == addrs[1..][j - 1];
      }
      if k :| 0 <= k < |addrs| && addrs[k] == IPv4(text) && forall j :: 0 <= j < k ==> !addrs[j].IPv4? {
        assert addrs[1..][k - 1] == IPv4(text) && forall j :: 0 <= j < k - 1 ==> addrs[1..][j] == addrs[j + 1];
      }
    }
  }

  predicate Leq(a: string, b: string) { !Less(b, a) }

  lemma LeqTransitive(a: string, b: string, c: string)
    requires Leq(a, b) && Leq(b, c)
    ensures Leq(a, c)
  {
    LessTotal(a, b);
    LessTotal(b, c);
    LessTotal(a, c);
    if Less(a, b) && Less(b, c) {
      LessTransitive(a, b, c);
    }
  }

  // ---- the sort -----------------------------------------------------------

  ghost predicate Sorted(names: seq<string>) {
    forall i, j :: 0 <= i < j < |names| ==> Leq(names[i], names[j])
  }

  /** Everything before position i is in place: in order, and not above anything after it. */
  ghost predicate Placed(names: seq<string>, i: nat) {
    forall p, q :: 0 <= p < q < |names| && p < i ==> Leq(names[p], names[q])
  }

  /** Position i holds the least of positions i to j - 1. */
  ghost predicate Least(names: seq<string>, i: nat, j: nat) {
    i < j <= |names| && forall k :: i <= k < j ==> Leq(names[i], names[k])
  }

  function Swapped(names: seq<string>, i: nat, j: nat): seq<string>
    requires i < j < |names|
  {
    names[i := names[j]][j := names[i]]
  }

  lemma SwapKeepsPlaced(names: seq<string>, i: nat, j: nat)
    requires i < j < |names| && Placed(names, i) && Least(names, i, j) && Less(names[j], names[i])
    ensures Placed(Swapped(names, i, j), i) && Least(Swapped(names, i, j), i, j + 1)
    ensures multiset(Swapped(names, i, j)) == multiset(names)
  {
    var s := Swapped(names, i, j);
    forall p, q | 0 <= p < q < |s| && p < i ensures Leq(s[p], s[q]) {
      assert Leq(names[p], names[i]) && Leq(names[p], names[j]) && Leq(names[p], names[q]);
    }
    LessTotal(names[j], names[i]);
    LessTotal(names[j], names[j]);
    forall k | i <= k < j + 1 ensures Leq(s[i], s[k]) {
      if i < k < j {
        LeqTransitive(names[j], names[i], names[k]);
      }
    }
  }

  method SortNames(names: array<string>)
    modifies names
    ensures Sorted(names[..])
    ensures multiset(names[..]) == multiset(old(names[..]))
  {
    for i := 0 to names.Length
      invariant Placed(names[..], i)
      invariant multiset(names[..]) == multiset(old(names[..]))
    {
      LessTotal(names[i], names[i]);
      for j := i + 1 to names.Length
        invariant Placed(names[..], i) && Least(names[..], i, j)
        invariant multiset(names[..]) == multiset(old(names[..]))
      {
        ghost var before := names[..];
        if Less(names[j], names[i]) {
          SwapKeepsPlaced(before, i, j);
          names[i], names[j] := names[j], names[i];
          assert names[..] == Swapped(before, i, j);
        } else {
          assert Least(before, i, j + 1);
        }
      }
    }
  }

  // ---- the selection ------------------------------------------------------

  ghost predicate Distinct(ifaces: seq<Interface>) {
    forall i, j :: 0 <= i < j < |ifaces| ==> ifaces[i].name != ifaces[j].name
  }

  /** The answer is the offer of the least-named interface that has one, and "" when none has. */
  ghost predicate IsAnswer(ifaces: seq<Interface>, answer: string) {
    if forall i :: i in ifaces ==> Offer(i).None? then answer == ""
    else exists i :: i in ifaces && Offer(i) == Some(answer)
                     && forall j :: j in ifaces && Offer(j).Some? ==> Leq(i.name, j.name)
  }

  /** The answer does not depend on the order of enumeration. */
  lemma AnswerIgnoresOrder(ifaces: seq<Interface>, ifaces': seq<Interface>, answer: string, answer': string)
    requires Distinct(ifaces) && multiset(ifaces) == multiset(ifaces')
    requires IsAnswer(ifaces, answer) && IsAnswer(ifaces', answer')
    ensures answer == answer'
  {
    forall i ensures i in ifaces <==> i in ifaces' {
      assert i in multiset(ifaces) <==> i in multiset(ifaces');
    }
    if !(forall i :: i in ifaces ==> Offer(i).None?) {
      var i :| i in ifaces && Offer(i) == Some(answer)
               && forall j :: j in ifaces && Offer(j).Some? ==> Leq(i.name, j.name);
      var j :| j in ifaces' && Offer(j) == Some(answer')
               && forall k :: k in ifaces' && Offer(k).Some? ==> Leq(j.name, k.name);
      LessTotal(i.name, j.name);
      var m :| 0 <= m < |ifaces| && ifaces[m] == i;
      var n :| 0 <= n < |ifaces| && ifaces[n] == j;
      assert i.name == j.name;
      assert m == n;
    }
  }

  function ByName(ifaces: seq<Interface>): map<string, Interface> {
    if ifaces == [] then map[] else ByName(ifaces[..|ifaces| - 1])[ifaces[|ifaces| - 1].name := ifaces[|ifaces| - 1]]
  }

  lemma LastNameIsNew(init: seq<Interface>, last: Interface)
    requires Distinct(init + [last])
    ensures Distinct(init) && forall i :: i in init ==> i.name != last.name
  {
    var all := init + [last];
    assert all[|init|] == last && forall k :: 0 <= k < |init| ==> all[k] == init[k];
  }

  lemma {:induction false} ByNameFinds(ifaces: seq<Interface>)
    requires Distinct(ifaces)
    ensures forall i :: i in ifaces ==> i.name in ByName(ifaces) && ByName(ifaces)[i.name] == i
    ensures forall n :: n in ByName(ifaces) ==> ByName(ifaces)[n] in ifaces && ByName(ifaces)[n].name == n
  {
    if ifaces != [] {
      var init, last := ifaces[..|ifaces| - 1], ifaces[|ifaces| - 1];
      assert ifaces == init + [last];
      LastNameIsNew(init, last);
      hide Distinct;
      ByNameFinds(init);
      assert forall i :: i in ifaces <==> i in init || i == last;
    }
  }

  method FirstLanIPv4(ifaces: Option<seq<Interface>>) returns (answer: string)
    ensures ifaces.None? ==> answer == ""
    ensures ifaces.Some? && Distinct(ifaces.value) ==> IsAnswer(ifaces.value, answer)
  {
    if ifaces.None? {
      return "";
    }
    var list := ifaces.value;
    var names := new string[|list|](i => "");
    var byName: map<string, Interface> := map[];
    for i := 0 to |list|
      invariant byName == ByName(list[..i])
      invariant forall k :: 0 <= k < i ==> names[k] == list[k].name
    {
      assert list[..i + 1][..i] == list[..i];
      names[i] := list[i].name;
      byName := byName[list[i].name := list[i]];
    }
    assert list[..|list|] == list;
    ghost var listed := names[..];
    assert forall k :: 0 <= k < |list| ==> listed[k] == list[k].name;
    SortNames(names);
    SameNames(list, listed, names[..]);
    answer := Select(list, names[..], byName);
  }

  lemma SameNames(list: seq<Interface>, listed: seq<string>, names: seq<string>)
    requires |listed| == |list| && forall k :: 0 <= k < |list| ==> listed[k] == list[k].name
    requires multiset(names) == multiset(listed)
    ensures forall n :: n in names <==> exists i :: i in list && i.name == n
  {
    forall n ensures n in names <==> n in listed {
      assert n in multiset(names) <==> n in multiset(listed);
    }
    forall n | n in listed ensures exists i :: i in list && i.name == n {
      var k :| 0 <= k < |listed| && listed[k] == n;
      assert list[k] in list;
    }
    forall i | i in list ensures i.name in listed {
      var k :| 0 <= k < |list| && list[k] == i;
      assert listed[k] == i.name;
    }
  }

  /** The first name, in order, whose interface has an offer. */
  method Select(ghost list: seq<Interface>, names: seq<string>, byName: map<string, Interface>) returns (answer: string)
    requires byName == ByName(list) && Sorted(names)
    requires forall n :: n in names <==> exists i :: i in list && i.name == n
    ensures Distinct(list) ==> IsAnswer(list, answer)
  {
    ghost var distinct := Distinct(list);
    if distinct {
      ByNameFinds(list);
      forall n | n in names ensures n in byName {
        var i :| i in list && i.name == n;
      }
    }
    for k := 0 to |names|
      invariant forall p :: 0 <= p < k && names[p] in byName ==> Offer(byName[names[p]]).None?
    {
      assert names[k] in names;
      if names[k] in byName {
        var ip := Offer(byName[names[k]]);
        if ip.Some? {
          if distinct {
            assert forall p :: 0 <= p <= k ==> names[p] in names;
            FirstIsLeast(list, names, k);
          }
          return ip.value;
        }
      }
    }
    if distinct {
      forall i | i in list ensures Offer(i).None? {
        assert i.name in names;
        var p :| 0 <= p < |names| && names[p] == i.name;
      }
    }
    return "";
  }

  lemma FirstIsLeast(list: seq<Interface>, names: seq<string>, k: nat)
    requires Distinct(list) && Sorted(names) && k < |names|
    requires forall i :: i in list ==> i.name in names
    requires forall p :: 0 <= p <= k ==> names[p] in ByName(list)
    requires forall p :: 0 <= p < k ==> Offer(ByName(list)[names[p]]).None?
    requires Offer(ByName(list)[names[k]]).Some?
    ensures IsAnswer(list, Offer(ByName(list)[names[k]]).value)
  {
    ByNameFinds(list);
    hide Distinct, ByName, Offer, Less;
    var best := ByName(list)[names[k]];
    forall j | j in list && Offer(j).Some? ensures Leq(best.name, j.name) {
      assert j.name in names;
      var p :| 0 <= p < |names| && names[p] == j.name;
      assert p >= k;
      LessTotal(best.name, best.name);
    }
  }
}
