/**
 * The catalog merged from all registered stores: the first store in configuration
 * order wins, ids compared without case.
 */
module CatalogMerge {
  import opened Text

  type Apps = map<string, string>

  /** The store of a configured URL, if it exists and its catalog loads. */
  function Loaded(stores: map<string, Option<Apps>>, url: string): (r: Option<Apps>)
    ensures forall apps :: r == Some(apps) <==> url in stores && stores[url] == Some(apps)
  {
    if url in stores then stores[url] else None
  }

  ghost predicate Offers(stores: map<string, Option<Apps>>, url: string, folded: string) {
    Loaded(stores, url).Some? && exists id :: id in Loaded(stores, url).value && ToLower(id) == folded
  }

  /** Entry (id, app) is from store j, and no earlier store offers that id in any case. */
  ghost predicate FromFirst(config: seq<string>, stores: map<string, Option<Apps>>, j: nat, id: string, app: string) {
    && j < |config| && Loaded(stores, config[j]).Some?
    && id in Loaded(stores, config[j]).value && Loaded(stores, config[j]).value[id] == app
    && forall i :: 0 <= i < j ==> !Offers(stores, config[i], ToLower(id))
  }

  /** What a merged catalog is, whatever the order within each store. */
  ghost predicate IsMerge(config: seq<string>, stores: map<string, Option<Apps>>, catalog: Apps) {
    && (forall id :: id in catalog ==> exists j: nat :: FromFirst(config, stores, j, id, catalog[id]))
    && (forall id, id' :: id in catalog && id' in catalog && ToLower(id) == ToLower(id') ==> id == id')
    && (forall j, folded :: 0 <= j < |config| && Offers(stores, config[j], folded) ==>
          exists id :: id in catalog && ToLower(id) == folded)
  }

  /** No store has two ids that differ only in case. */
  ghost predicate CaseDistinct(stores: map<string, Option<Apps>>) {
    forall url, id, id' :: Loaded(stores, url).Some? && id in Loaded(stores, url).value
                           && id' in Loaded(stores, url).value && ToLower(id) == ToLower(id')
      ==> id == id'
  }

  /** An app of a store that loads is in the catalog, unless an earlier store that loads has its id in some case. */
  lemma MergeTakesFirst(config: seq<string>, stores: map<string, Option<Apps>>, catalog: Apps, i: nat, apps: Apps,
                        id: string)
    requires IsMerge(config, stores, catalog) && CaseDistinct(stores)
    requires i < |config| && config[i] in stores && stores[config[i]] == Some(apps) && id in apps
    requires forall j, others, other ::
               0 <= j < i && config[j] in stores && stores[config[j]] == Some(others) && other in others ==>
                 ToLower(other) != ToLower(id)
    ensures id in catalog && catalog[id] == apps[id]
  {
    hide ToLower;
    assert Loaded(stores, config[i]) == Some(apps);
    assert Offers(stores, config[i], ToLower(id));
    var found :| found in catalog && ToLower(found) == ToLower(id);
    var k: nat :| FromFirst(config, stores, k, found, catalog[found]);
    assert Offers(stores, config[k], ToLower(id));
    assert k <= i;
    assert k == i;
  }

  /** And every app of the catalog is one of a store that loads. */
  lemma MergeAddsNothing(config: seq<string>, stores: map<string, Option<Apps>>, catalog: Apps, id: string)
    requires IsMerge(config, stores, catalog) && id in catalog
    ensures exists i, apps :: 0 <= i < |config| && config[i] in stores && stores[config[i]] == Some(apps)
                              && id in apps && apps[id] == catalog[id]
  {
    hide ToLower;
    var i: nat :| FromFirst(config, stores, i, id, catalog[id]);
    assert Loaded(stores, config[i]).Some?;
  }

  lemma MergeIncludes(config: seq<string>, stores: map<string, Option<Apps>>, a: Apps, b: Apps, id: string)
    requires IsMerge(config, stores, a) && IsMerge(config, stores, b) && CaseDistinct(stores) && id in a
    ensures id in b && b[id] == a[id]
  {
    hide ToLower;
    var j: nat :| FromFirst(config, stores, j, id, a[id]);
    assert Offers(stores, config[j], ToLower(id));
    var id' :| id' in b && ToLower(id') == ToLower(id);
    var k: nat :| FromFirst(config, stores, k, id', b[id']);
    assert Offers(stores, config[k], ToLower(id));
    assert j == k;
  }

  /** When no store has case twins, the merge does not depend on any order but that of the configuration. */
  lemma MergeIsUnique(config: seq<string>, stores: map<string, Option<Apps>>, a: Apps, b: Apps)
    requires IsMerge(config, stores, a) && IsMerge(config, stores, b) && CaseDistinct(stores)
    ensures a == b
  {
    hide IsMerge, CaseDistinct;
    forall id | id in a ensures id in b && b[id] == a[id] {
      MergeIncludes(config, stores, a, b, id);
    }
    forall id | id in b ensures id in a {
      MergeIncludes(config, stores, b, a, id);
    }
  }

  lemma LaterStoreKeeps(config: seq<string>, url: string, stores: map<string, Option<Apps>>, a: Apps, b: Apps,
                        id: string)
    requires IsMerge(config, stores, a) && IsMerge(config + [url], stores, b) && CaseDistinct(stores) && id in a
    ensures id in b && b[id] == a[id]
  {
    hide ToLower, CaseDistinct;
    var config' := config + [url];
    var j: nat :| FromFirst(config, stores, j, id, a[id]);
    assert config'[j] == config[j] && Offers(stores, config'[j], ToLower(id));
    var id' :| id' in b && ToLower(id') == ToLower(id);
    var k: nat :| FromFirst(config', stores, k, id', b[id']);
    assert Offers(stores, config'[k], ToLower(id));
    assert forall i :: 0 <= i < j ==> config'[i] == config[i];
    assert j == k;
    SameStoreSameId(stores, config[j], id, id');
  }

  lemma SameStoreSameId(stores: map<string, Option<Apps>>, url: string, id: string, id': string)
    requires CaseDistinct(stores) && Loaded(stores, url).Some?
    requires id in Loaded(stores, url).value && id' in Loaded(stores, url).value && ToLower(id) == ToLower(id')
    ensures id == id'
  {
    hide ToLower, Loaded;
  }

  /** Adding a store behind the others changes no entry there was. */
  lemma LaterStoreAddsOnly(config: seq<string>, url: string, stores: map<string, Option<Apps>>, a: Apps, b: Apps)
    requires IsMerge(config, stores, a) && IsMerge(config + [url], stores, b) && CaseDistinct(stores)
    ensures forall id :: id in a ==> id in b && b[id] == a[id]
  {
    hide IsMerge, CaseDistinct;
    forall id | id in a ensures id in b && b[id] == a[id] {
      LaterStoreKeeps(config, url, stores, a, b, id);
    }
  }

  // ---- the loops ----------------------------------------------------------

  ghost predicate Progress(config: seq<string>, stores: map<string, Option<Apps>>, i: nat, catalog: Apps,
                           seen: set<string>) {
    && i <= |config|
    && (forall id :: id in catalog ==> exists j: nat :: FromFirst(config, stores, j, id, catalog[id]))
    && (forall id, id' :: id in catalog && id' in catalog && ToLower(id) == ToLower(id') ==> id == id')
    && (forall folded :: folded in seen <==> exists id :: id in catalog && ToLower(id) == folded)
    && (forall j, folded :: 0 <= j < i && Offers(stores, config[j], folded) ==> folded in seen)
  }

  lemma ProgressMade(config: seq<string>, stores: map<string, Option<Apps>>, catalog: Apps, seen: set<string>)
    requires Progress(config, stores, |config|, catalog, seen)
    ensures IsMerge(config, stores, catalog)
  {
    forall j, folded | 0 <= j < |config| && Offers(stores, config[j], folded)
      ensures exists id :: id in catalog && ToLower(id) == folded
    {
      assert folded in seen;
    }
  }

  lemma NothingMerged(config: seq<string>, stores: map<string, Option<Apps>>)
    ensures Progress(config, stores, 0, map[], {})
  {
  }

  lemma StoreSkipped(config: seq<string>, stores: map<string, Option<Apps>>, i: nat, catalog: Apps, seen: set<string>)
    requires i < |config| && Loaded(stores, config[i]).None? && Progress(config, stores, i, catalog, seen)
    ensures Progress(config, stores, i + 1, catalog, seen)
  {
    forall j, folded | 0 <= j < i + 1 && Offers(stores, config[j], folded) ensures folded in seen {
    }
    hide Offers, FromFirst, ToLower, Loaded;
  }

  /** One store's entries, in any order. */
  method MergeStore(config: seq<string>, stores: map<string, Option<Apps>>, i: nat, catalog: Apps, seen: set<string>)
    returns (catalog': Apps, seen': set<string>)
    requires i < |config| && Loaded(stores, config[i]).Some? && Progress(config, stores, i, catalog, seen)
    ensures Progress(config, stores, i + 1, catalog', seen')
  {
    var c := Loaded(stores, config[i]).value;
    catalog', seen' := catalog, seen;
    var todo := c.Keys;
    while todo != {}
      invariant todo <= c.Keys
      invariant Progress(config, stores, i, catalog', seen')
      invariant forall id :: id in c && id !in todo ==> ToLower(id) in seen'
    {
      var id :| id in todo;
      var lower := ToLower(id);
      if lower !in seen' {
        assert FromFirst(config, stores, i, id, c[id]);
        AddedOne(config, stores, i, catalog', seen', catalog'[id := c[id]], seen' + {lower}, id);
        seen' := seen' + {lower};
        catalog' := catalog'[id := c[id]];
      }
      todo := todo - {id};
    }
    StoreDone(config, stores, i, catalog', seen');
  }

  lemma StoreDone(config: seq<string>, stores: map<string, Option<Apps>>, i: nat, catalog: Apps, seen: set<string>)
    requires i < |config| && Loaded(stores, config[i]).Some? && Progress(config, stores, i, catalog, seen)
    requires forall id :: id in Loaded(stores, config[i]).value ==> ToLower(id) in seen
    ensures Progress(config, stores, i + 1, catalog, seen)
  {
    forall j, folded | 0 <= j < i + 1 && Offers(stores, config[j], folded) ensures folded in seen {
      if j == i {
        var id :| id in Loaded(stores, config[i]).value && ToLower(id) == folded;
      }
    }
    hide Offers, FromFirst, ToLower, Loaded;
  }

  lemma AddedOne(config: seq<string>, stores: map<string, Option<Apps>>, i: nat, a: Apps, seen: set<string>,
                 b: Apps, seen': set<string>, id: string)
    requires Progress(config, stores, i, a, seen) && ToLower(id) !in seen
    requires id in b && b == a[id := b[id]] && seen' == seen + {ToLower(id)} && FromFirst(config, stores, i, id, b[id])
    ensures Progress(config, stores, i, b, seen')
  {
    hide ToLower, FromFirst, Offers, Loaded;
    assert id !in a;
    forall x | x in b ensures exists j: nat :: FromFirst(config, stores, j, x, b[x]) {
      if x != id {
        var j: nat :| FromFirst(config, stores, j, x, a[x]);
        assert FromFirst(config, stores, j, x, b[x]);
      }
    }
    forall folded | folded in seen' ensures exists x :: x in b && ToLower(x) == folded {
      if folded in seen {
        var x :| x in a && ToLower(x) == folded;
        assert x in b;
      }
    }
  }

  /** `fallback` is the default store: absent, or its catalog if that loads. */
  method Catalog(config: seq<string>, stores: map<string, Option<Apps>>, fallback: Option<Option<Apps>>)
    returns (catalog: Apps, ok: bool)
    ensures (exists i :: 0 <= i < |config| && Loaded(stores, config[i]).Some?) ==>
              ok && IsMerge(config, stores, catalog)
    ensures (forall i :: 0 <= i < |config| ==> Loaded(stores, config[i]).None?) ==>
              if fallback.None? then ok && catalog == map[]
              else ok == fallback.value.Some? && catalog == if ok then fallback.value.value else map[]
  {
    hide IsMerge, Progress;
    NothingMerged(config, stores);
    catalog := map[];
    var seen: set<string> := {};
    var allFailed := true;
    for i := 0 to |config|
      invariant Progress(config, stores, i, catalog, seen)
      invariant allFailed <==> forall j :: 0 <= j < i ==> Loaded(stores, config[j]).None?
    {
      if Loaded(stores, config[i]).Some? {
        allFailed := false;
        catalog, seen := MergeStore(config, stores, i, catalog, seen);
      } else {
        StoreSkipped(config, stores, i, catalog, seen);
      }
    }
    if !allFailed {
      ProgressMade(config, stores, catalog, seen);
      return catalog, true;
    }
    if fallback.None? {
      return map[], true;
    }
    return match fallback.value case Some(apps) => apps case None => map[], fallback.value.Some?;
  }

  /** The apps of the catalog whose metadata loads and names the category. */
  function InCategory(catalog: Apps, info: string -> Option<string>, category: string): set<string> {
    set id | id in catalog && info(catalog[id]) == Some(category)
  }

  /** Counts start at zero; each app, in any order, adds one to its category, if that is known. */
  method CountCategories(categories: set<string>, catalog: Apps, info: string -> Option<string>)
    returns (counts: map<string, nat>)
    ensures counts.Keys == categories
    ensures forall c :: c in categories ==> counts[c] == |InCategory(catalog, info, c)|
  {
    counts := map c | c in categories :: 0;
    var todo := catalog.Keys;
    ghost var done: Apps := map[];
    while todo != {}
      invariant todo <= catalog.Keys && counts.Keys == categories
      invariant done == map id | id in catalog && id !in todo :: catalog[id]
      invariant forall c :: c in categories ==> counts[c] == |InCategory(done, info, c)|
    {
      var id :| id in todo;
      var category := info(catalog[id]);
      CountOne(done, info, id, catalog[id]);
      if category.Some? && category.value in counts {
        counts := counts[category.value := counts[category.value] + 1];
      }
      done := done[id := catalog[id]];
      todo := todo - {id};
    }
    assert done == catalog;
  }

  lemma CountOne(done: Apps, info: string -> Option<string>, id: string, app: string)
    requires id !in done
    ensures forall c :: |InCategory(done[id := app], info, c)|
                     == |InCategory(done, info, c)| + if info(app) == Some(c) then 1 else 0
  {
    forall c ensures |InCategory(done[id := app], info, c)|
                  == |InCategory(done, info, c)| + if info(app) == Some(c) then 1 else 0
    {
      assert InCategory(done[id := app], info, c)
          == if info(app) == Some(c) then InCategory(done, info, c) + {id} else InCategory(done, info, c);
    }
  }
}
