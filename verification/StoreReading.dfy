/**
 * Reading an app store from its files: one app per folder whose compose file
 * loads, and a category and a recommendation list. A file that cannot be read is
 * taken for an empty one, and nobody is told.
 */
module StoreReading {
  import opened Text

  type Apps = map<string, string>
  type Categories = map<string, string>

  /** A folder under Apps, with its compose files and how many of the folders that follow are inside it. */
  datatype Folder = Folder(yml: Option<string>, yaml: Option<string>, below: nat)

  datatype Entry = Entry(name: string, app: string)

  /** How one visit to a folder turns out: whether each file's presence shows, and whether it can be read. */
  datatype Look = Look(seesYml: bool, seesYaml: bool, opens: bool)

  const CLEAR: Look := Look(true, true, true)

  type Looks = nat -> Look

  const ALL_CLEAR: Looks := _ => CLEAR

  /** What the files of a tree yield: whether a store root is found, its folders in walk order, and the two lists. */
  datatype Reader = Reader(
    storeRoot: string -> bool,
    folders: string -> seq<Folder>,
    parse: string -> Option<Entry>,
    categories: string -> Categories,
    recommend: string -> seq<string>)

  /** The compose text a visit gets; empty when there is none or it cannot be read. */
  function Seen(f: Folder, l: Look): string {
    if f.yml.Some? && l.seesYml then (if l.opens then f.yml.value else "")
    else if f.yaml.Some? && l.seesYaml then (if l.opens then f.yaml.value else "")
    else ""
  }

  /** The compose text of a folder whose files show and can be read: docker-compose.yml before docker-compose.yaml. */
  predicate HasText(f: Folder, text: string) {
    f.yml == Some(text) || (f.yml.None? && f.yaml == Some(text))
  }

  /** With nothing in the way, a visit gets the folder's text; and what it gets is always of one of the two files. */
  lemma SeenText(f: Folder, l: Look, text: string)
    ensures HasText(f, text) ==> Seen(f, CLEAR) == text
    ensures f.yml.None? && f.yaml.None? ==> Seen(f, l) == ""
    ensures !l.opens ==> Seen(f, l) == ""
    ensures l.opens && l.seesYml && f.yml == Some(text) ==> Seen(f, l) == text
    ensures l.opens && !l.seesYml && l.seesYaml && f.yaml == Some(text) ==> Seen(f, l) == text
    ensures !l.seesYml && !l.seesYaml ==> Seen(f, l) == ""
  {
  }

  /** The apps met from the i-th folder on; a compose file that does not load hides the folders inside its own. */
  function Walk(r: Reader, folders: seq<Folder>, looks: Looks, i: nat): seq<Entry>
    decreases |folders| - i
  {
    if i >= |folders| then []
    else
      var text := Seen(folders[i], looks(i));
      if text == "" then Walk(r, folders, looks, i + 1)
      else match r.parse(text)
        case None => Walk(r, folders, looks, i + 1 + folders[i].below)
        case Some(e) => [e] + Walk(r, folders, looks, i + 1)
  }

  /** Of two apps of one name, the later is kept. */
  function Collected(entries: seq<Entry>): Apps {
    if entries == [] then map[]
    else Collected(entries[..|entries| - 1])[entries[|entries| - 1].name := entries[|entries| - 1].app]
  }

  function Build(r: Reader, content: string, looks: Looks): Apps {
    Collected(Walk(r, r.folders(content), looks, 0))
  }

  function CategoryList(r: Reader, content: string, lost: bool): Categories {
    if lost then map[] else r.categories(content)
  }

  function RecommendList(r: Reader, content: string, lost: bool): seq<string> {
    if lost then [] else r.recommend(content)
  }

  // ---- which losses show --------------------------------------------------

  /** No later app takes the name of the j-th. */
  predicate Stays(entries: seq<Entry>, j: nat) {
    j < |entries| && forall k :: j < k < |entries| ==> entries[k].name != entries[j].name
  }

  /** Every app that stays in one walk is one that stays in the other. */
  ghost predicate StaysIn(a: seq<Entry>, b: seq<Entry>) {
    forall j: nat :: Stays(a, j) ==> exists k: nat :: Stays(b, k) && b[k] == a[j]
  }

  /** The walk with these faults ends with the apps of the clear one. */
  ghost predicate Harmless(r: Reader, content: string, looks: Looks) {
    var got, all := Walk(r, r.folders(content), looks, 0), Walk(r, r.folders(content), ALL_CLEAR, 0);
    StaysIn(got, all) && StaysIn(all, got)
  }

  lemma {:induction false} CollectedStays(entries: seq<Entry>, j: nat)
    requires Stays(entries, j)
    ensures entries[j].name in Collected(entries) && Collected(entries)[entries[j].name] == entries[j].app
  {
    var init := entries[..|entries| - 1];
    if j < |init| {
      assert Stays(init, j);
      CollectedStays(init, j);
      assert entries[|init|].name != entries[j].name;
    }
  }

  lemma {:induction false} StayerOf(entries: seq<Entry>, name: string) returns (j: nat)
    requires name in Collected(entries)
    ensures Stays(entries, j) && entries[j] == Entry(name, Collected(entries)[name])
  {
    var init, last := entries[..|entries| - 1], entries[|entries| - 1];
    if last.name == name {
      j := |init|;
    } else {
      j := StayerOf(init, name);
      assert forall k :: j < k < |entries| ==> entries[k] == if k == |init| then last else init[k];
    }
  }

  ghost predicate Includes(a: Apps, b: Apps) {
    forall name :: name in a ==> name in b && b[name] == a[name]
  }

  lemma StaysInIncludes(a: seq<Entry>, b: seq<Entry>)
    ensures StaysIn(a, b) <==> Includes(Collected(a), Collected(b))
  {
    if StaysIn(a, b) {
      forall name | name in Collected(a) ensures name in Collected(b) && Collected(b)[name] == Collected(a)[name] {
        var j := StayerOf(a, name);
        var k: nat :| Stays(b, k) && b[k] == a[j];
        CollectedStays(b, k);
      }
    }
    if Includes(Collected(a), Collected(b)) {
      forall j: nat | Stays(a, j) ensures exists k: nat :: Stays(b, k) && b[k] == a[j] {
        CollectedStays(a, j);
        var k := StayerOf(b, a[j].name);
        assert b[k] == a[j];
      }
    }
  }

  lemma IncludesBoth(a: Apps, b: Apps)
    ensures a == b <==> Includes(a, b) && Includes(b, a)
  {
  }

  /** A catalog built under faults is the store's if and only if the same apps stay. */
  lemma BuildIsWholeIff(r: Reader, content: string, looks: Looks)
    ensures Build(r, content, looks) == Build(r, content, ALL_CLEAR) <==> Harmless(r, content, looks)
  {
    var got, all := Walk(r, r.folders(content), looks, 0), Walk(r, r.folders(content), ALL_CLEAR, 0);
    StaysInIncludes(got, all);
    StaysInIncludes(all, got);
    IncludesBoth(Collected(got), Collected(all));
  }

  /** A compose file of folder i goes unread. */
  predicate Loses(folders: seq<Folder>, looks: Looks, i: nat) {
    i < |folders| && Seen(folders[i], looks(i)) != Seen(folders[i], CLEAR)
  }

  /** Each folder has at most one compose file, which loads, and no two give the same name. */
  ghost predicate Tidy(r: Reader, folders: seq<Folder>) {
    && (forall i :: 0 <= i < |folders| ==> folders[i].yml.None? || folders[i].yaml.None?)
    && (forall i :: 0 <= i < |folders| && Seen(folders[i], CLEAR) != "" ==> r.parse(Seen(folders[i], CLEAR)).Some?)
    && (forall i, j :: 0 <= i < j < |folders| && Seen(folders[i], CLEAR) != "" && Seen(folders[j], CLEAR) != "" ==>
          r.parse(Seen(folders[i], CLEAR)).value.name != r.parse(Seen(folders[j], CLEAR)).value.name)
  }

  /** What the walk of a tidy store meets: the app of each folder read. */
  lemma {:induction false} TidyWalk(r: Reader, folders: seq<Folder>, looks: Looks, i: nat)
    requires Tidy(r, folders) && i <= |folders|
    ensures forall e :: e in Walk(r, folders, looks, i) <==>
              exists j :: i <= j < |folders| && Seen(folders[j], looks(j)) != ""
                  && r.parse(Seen(folders[j], looks(j))) == Some(e)
    decreases |folders| - i
  {
    if i < |folders| {
      TidyWalk(r, folders, looks, i + 1);
      var text := Seen(folders[i], looks(i));
      assert text == "" || text == Seen(folders[i], CLEAR);
      var rest := Walk(r, folders, looks, i + 1);
      forall e ensures e in Walk(r, folders, looks, i) <==>
        exists j :: i <= j < |folders| && Seen(folders[j], looks(j)) != ""
            && r.parse(Seen(folders[j], looks(j))) == Some(e)
      {
        if text != "" && r.parse(text) == Some(e) {
          assert e in [e] + rest;
        }
      }
    }
  }

  /** When every compose file is read, nothing is missing, in any store. */
  lemma {:induction false} NoLossSameWalk(r: Reader, folders: seq<Folder>, looks: Looks, i: nat)
    requires forall j :: i <= j < |folders| ==> !Loses(folders, looks, j)
    ensures Walk(r, folders, looks, i) == Walk(r, folders, ALL_CLEAR, i)
    decreases |folders| - i
  {
    if i < |folders| {
      assert !Loses(folders, looks, i);
      NoLossSameWalk(r, folders, looks, i + 1);
      NoLossSameWalk(r, folders, looks, i + 1 + folders[i].below);
    }
  }

  lemma {:induction false} CollectedHas(entries: seq<Entry>)
    ensures forall e :: e in entries ==> e.name in Collected(entries)
  {
    if entries != [] {
      CollectedHas(entries[..|entries| - 1]);
    }
  }

  /** What a folder of a tidy store gives when its file is read. */
  function AppOf(r: Reader, f: Folder): Option<Entry> {
    if Seen(f, CLEAR) == "" then None else r.parse(Seen(f, CLEAR))
  }

  /** In a tidy store a name in the catalog is given by a folder whose file was read. */
  lemma GivenBy(r: Reader, content: string, looks: Looks, name: string) returns (j: nat)
    requires Tidy(r, r.folders(content)) && name in Build(r, content, looks)
    ensures var folders := r.folders(content);
            && j < |folders| && !Loses(folders, looks, j)
            && AppOf(r, folders[j]).Some? && AppOf(r, folders[j]).value.name == name
  {
    hide Collected, Walk;
    var folders, entries := r.folders(content), Walk(r, r.folders(content), looks, 0);
    TidyWalk(r, folders, looks, 0);
    var k := StayerOf(entries, name);
    assert entries[k] in entries;
    j :| 0 <= j < |folders| && Seen(folders[j], looks(j)) != ""
         && r.parse(Seen(folders[j], looks(j))) == Some(entries[k]);
  }

  /** In a tidy store the app of a folder left unread is missing. */
  lemma LostIsMissing(r: Reader, content: string, looks: Looks, i: nat)
    requires Tidy(r, r.folders(content)) && Loses(r.folders(content), looks, i)
    ensures var app := AppOf(r, r.folders(content)[i]);
            app.Some? && app.value.name in Build(r, content, ALL_CLEAR) && app.value.name !in Build(r, content, looks)
  {
    hide Collected, Walk;
    var folders := r.folders(content);
    var e := r.parse(Seen(folders[i], CLEAR)).value;
    TidyWalk(r, folders, ALL_CLEAR, 0);
    CollectedHas(Walk(r, folders, ALL_CLEAR, 0));
    if e.name in Build(r, content, looks) {
      var j := GivenBy(r, content, looks, e.name);
    }
  }

  /** A catalog of a tidy store is whole if and only if every compose file was read. */
  lemma TidyIsWholeIff(r: Reader, content: string, looks: Looks)
    requires Tidy(r, r.folders(content))
    ensures Build(r, content, looks) == Build(r, content, ALL_CLEAR)
       <==> forall i: nat :: !Loses(r.folders(content), looks, i)
  {
    if forall i: nat :: !Loses(r.folders(content), looks, i) {
      NoLossSameWalk(r, r.folders(content), looks, 0);
    } else {
      var i: nat :| Loses(r.folders(content), looks, i);
      LostIsMissing(r, content, looks, i);
    }
  }

  // ---- what a catalog holds -----------------------------------------------

  /** Visiting folder i gives this text, and it does not load. */
  predicate Spoils(r: Reader, folders: seq<Folder>, looks: Looks, i: nat) {
    i < |folders| && Seen(folders[i], looks(i)) != "" && r.parse(Seen(folders[i], looks(i))).None?
  }

  /** No folder around the i-th one spoils it; one that is itself spoiled away is never visited, and spoils nothing. */
  predicate Visited(r: Reader, folders: seq<Folder>, looks: Looks, i: nat) {
    forall j: nat :: j < i && Spoils(r, folders, looks, j) && Visited(r, folders, looks, j) ==> i > j + folders[j].below
  }

  /** Folder i is visited and gives this app. */
  predicate Gives(r: Reader, folders: seq<Folder>, looks: Looks, i: nat, e: Entry) {
    && i < |folders| && Visited(r, folders, looks, i)
    && Seen(folders[i], looks(i)) != "" && r.parse(Seen(folders[i], looks(i))) == Some(e)
  }

  lemma {:induction false} CollectedCons(e: Entry, rest: seq<Entry>)
    ensures Collected([e] + rest) == map[e.name := e.app] + Collected(rest)
  {
    var all := [e] + rest;
    if rest == [] {
      assert all[..0] == [] && all == [e];
    } else {
      assert all[..|all| - 1] == [e] + rest[..|rest| - 1];
      CollectedCons(e, rest[..|rest| - 1]);
    }
  }

  /** The walk goes from a visited folder to the next one. */
  lemma NextVisited(r: Reader, folders: seq<Folder>, looks: Looks, i: nat)
    requires i < |folders| && Visited(r, folders, looks, i)
    ensures var next := if Spoils(r, folders, looks, i) then i + 1 + folders[i].below else i + 1;
            Visited(r, folders, looks, next) && forall k :: i < k < next ==> !Visited(r, folders, looks, k)
  {
    var next := if Spoils(r, folders, looks, i) then i + 1 + folders[i].below else i + 1;
    assert forall k :: i < k < next ==> !Visited(r, folders, looks, k);
    assert Visited(r, folders, looks, next);
  }

  /** The last folder visited that gives a name decides its app. */
  lemma {:induction false} GivenIsKept(r: Reader, folders: seq<Folder>, looks: Looks, i: nat, k: nat, e: Entry)
    requires i <= k && Visited(r, folders, looks, i) && Gives(r, folders, looks, k, e)
    requires forall m, other :: k < m && Gives(r, folders, looks, m, other) ==> other.name != e.name
    ensures var got := Collected(Walk(r, folders, looks, i)); e.name in got && got[e.name] == e.app
    decreases |folders| - i
  {
    NextVisited(r, folders, looks, i);
    var text := Seen(folders[i], looks(i));
    var next := if Spoils(r, folders, looks, i) then i + 1 + folders[i].below else i + 1;
    if text != "" && r.parse(text).Some? {
      CollectedCons(r.parse(text).value, Walk(r, folders, looks, i + 1));
    }
    if i < k {
      GivenIsKept(r, folders, looks, next, k, e);
    } else if e.name in Collected(Walk(r, folders, looks, next)) {
      var m, other := KeptIsGiven(r, folders, looks, next, e.name);
    }
  }

  /** And every name in the catalog is given by a folder visited. */
  lemma {:induction false} KeptIsGiven(r: Reader, folders: seq<Folder>, looks: Looks, i: nat, name: string)
    returns (k: nat, e: Entry)
    requires Visited(r, folders, looks, i) && name in Collected(Walk(r, folders, looks, i))
    ensures i <= k && Gives(r, folders, looks, k, e) && e.name == name
    decreases |folders| - i
  {
    NextVisited(r, folders, looks, i);
    var text := Seen(folders[i], looks(i));
    var next := if Spoils(r, folders, looks, i) then i + 1 + folders[i].below else i + 1;
    if text != "" && r.parse(text).Some? {
      CollectedCons(r.parse(text).value, Walk(r, folders, looks, i + 1));
    }
    if text != "" && r.parse(text).Some? && r.parse(text).value.name == name {
      k, e := i, r.parse(text).value;
    } else {
      k, e := KeptIsGiven(r, folders, looks, next, name);
    }
  }

  lemma {:induction false} LastGiver(r: Reader, folders: seq<Folder>, looks: Looks, first: nat, given: Entry)
    returns (k: nat, e: Entry)
    requires Gives(r, folders, looks, first, given)
    ensures Gives(r, folders, looks, k, e) && e.name == given.name
    ensures forall m, other :: k < m && Gives(r, folders, looks, m, other) ==> other.name != e.name
    decreases |folders| - first
  {
    if m: nat, other :| first < m && Gives(r, folders, looks, m, other) && other.name == given.name {
      k, e := LastGiver(r, folders, looks, m, other);
    } else {
      k, e := first, given;
    }
  }

  /**
   * A catalog has exactly the apps given by folders visited, and of several of
   * one name the last; a compose file that does not load hides the folders inside
   * its own, unless it is hidden itself.
   */
  lemma BuildHolds(r: Reader, content: string, looks: Looks, e: Entry)
    ensures e.name in Build(r, content, looks) && Build(r, content, looks)[e.name] == e.app <==>
              exists k :: Gives(r, r.folders(content), looks, k, e)
                          && forall m, other :: k < m && Gives(r, r.folders(content), looks, m, other) ==>
                               other.name != e.name
  {
    var folders := r.folders(content);
    assert Visited(r, folders, looks, 0);
    if e.name in Build(r, content, looks) {
      var first, given := KeptIsGiven(r, folders, looks, 0, e.name);
      var k, other := LastGiver(r, folders, looks, first, given);
      GivenIsKept(r, folders, looks, 0, k, other);
    }
    if k: nat :| Gives(r, folders, looks, k, e)
                 && forall m, other :: k < m && Gives(r, folders, looks, m, other) ==> other.name != e.name {
      GivenIsKept(r, folders, looks, 0, k, e);
    }
  }

  /**
   * Read with nothing in the way, a store whose compose files load, under distinct
   * names, has exactly the apps of its non-empty compose texts.
   */
  lemma TidyHolds(r: Reader, content: string, e: Entry)
    requires Tidy(r, r.folders(content))
    ensures e.name in Build(r, content, ALL_CLEAR) && Build(r, content, ALL_CLEAR)[e.name] == e.app <==>
              exists k, text :: 0 <= k < |r.folders(content)| && HasText(r.folders(content)[k], text) && text != ""
                                && r.parse(text) == Some(e)
  {
    var folders := r.folders(content);
    BuildHolds(r, content, ALL_CLEAR, e);
    forall k: nat ensures Visited(r, folders, ALL_CLEAR, k) && !Spoils(r, folders, ALL_CLEAR, k) {
    }
    forall k: nat, text | k < |folders| && text != ""
      ensures HasText(folders[k], text) <==> Seen(folders[k], CLEAR) == text
    {
      SeenText(folders[k], CLEAR, text);
    }
    if k: nat, text :| k < |folders| && HasText(folders[k], text) && text != "" && r.parse(text) == Some(e) {
      assert Gives(r, folders, ALL_CLEAR, k, e);
    }
    hide Build;
    if k: nat :| Gives(r, folders, ALL_CLEAR, k, e) {
      assert HasText(folders[k], Seen(folders[k], CLEAR));
    }
  }

  // ---- the loop -----------------------------------------------------------

  lemma CollectedOneMore(entries: seq<Entry>, e: Entry)
    ensures Collected(entries + [e]) == Collected(entries)[e.name := e.app]
  {
    assert (entries + [e])[..|entries|] == entries;
  }

  method BuildCatalog(r: Reader, content: string, looks: Looks) returns (catalog: Apps)
    ensures catalog == Build(r, content, looks)
  {
    var folders := r.folders(content);
    catalog := map[];
    ghost var met: seq<Entry> := [];
    var i := 0;
    assert met + Walk(r, folders, looks, 0) == Walk(r, folders, looks, 0);
    while i < |folders|
      invariant catalog == Collected(met)
      invariant met + Walk(r, folders, looks, i) == Walk(r, folders, looks, 0)
      decreases |folders| - i
    {
      var text := Seen(folders[i], looks(i));
      if text == "" {
        i := i + 1;
      } else {
        match r.parse(text)
        case None =>
          i := i + 1 + folders[i].below;
        case Some(e) =>
          CollectedOneMore(met, e);
          catalog := catalog[e.name := e.app];
          met := met + [e];
          i := i + 1;
      }
    }
    assert met + [] == met;
  }
}
