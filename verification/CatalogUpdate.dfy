/**
 * The refresh of a remote app store: download next to the work directory, move
 * the old tree aside, move the new one in, build the catalog, and undo on the
 * way out when anything failed. Any step may fail; a removal that fails may
 * leave anything behind, and files that cannot be read are silently missing.
 */
module CatalogUpdate {
  import opened Text
  import opened StoreReading

  /** A directory tree: what it holds, and the marker file at its store root. */
  datatype Tree = Tree(content: string, marker: Option<string>)

  type Dir = Option<Tree>

  /** A store's address, how its trees are read, and what unpacking an archive over an old tree gives. */
  datatype Site = Site(url: string, reader: Reader, over: (Tree, Tree) -> Tree)

  datatype Disk = Disk(work: Dir, tmp: Dir, backup: Dir)

  /**
   * The appStore fields and its directories; a nil catalog and an empty one are
   * told apart nowhere. `catalogLooks` and `categoriesLost` are history: what
   * went unread when the catalog and the categories were last filled.
   */
  datatype Store = Store(
    disk: Disk,
    catalog: Apps,
    categoryMap: Option<Categories>,
    recommend: seq<string>,
    lastSize: int,
    catalogLooks: Looks,
    categoriesLost: bool)

  datatype Download = Downloaded(archive: Tree) | DownloadFails(left: Dir)

  datatype Removal = Removed | RemovalFails(left: Dir) {
    function Left(): Dir { if Removed? then None else left }
  }

  /** Writing the marker: it may lose its text past `kept` in a flush whose error is dropped, or fail openly. */
  datatype Marking = Written | FlushLost(kept: nat) | MarkingFails(left: Option<string>)

  /** The files that go unread in a load. */
  datatype Losses = Losses(looks: Looks, categories: bool, recommend: bool)

  /** How every step of one update turns out, should it be reached. */
  datatype World = World(
    head: Option<int>,
    workDirKnown: bool,
    download: Download,
    seesWork: bool,
    clearBackup: Removal,
    moveAside: bool,
    moveIn: bool,
    walkRoot: bool,
    marking: Marking,
    walkApps: bool,
    losses: Losses,
    dropBackup: Removal,
    clearWork: Removal,
    moveBack: bool,
    clearTmp: Removal)

  datatype Outcome = Unchanged | Updated | Failed

  /** Writing the marker does not truncate a longer file that was there. */
  function MarkerText(before: Option<string>, url: string): (r: string)
    ensures url <= r && (before.None? ==> r == url)
    ensures before.Some? ==> |r| == if |before.value| > |url| then |before.value| else |url|
    ensures before.Some? ==> forall i :: |url| <= i < |r| ==> r[i] == before.value[i]
  {
    if before.Some? && |before.value| > |url| then url + before.value[|url|..] else url
  }

  function Marked(tree: Tree, url: string, marking: Marking): (r: Tree)
    ensures r.content == tree.content
  {
    match marking
    case Written => tree.(marker := Some(MarkerText(tree.marker, url)))
    case FlushLost(kept) => tree.(marker := Some(MarkerText(tree.marker, if kept < |url| then url[..kept] else url)))
    case MarkingFails(left) => tree.(marker := left)
  }

  /** What is in the temporary directory after unpacking an archive there; nothing clears it first. */
  function Unpacked(site: Site, before: Dir, archive: Tree): Tree {
    if before.None? then archive else site.over(before.value, archive)
  }

  /** The tree that an update of this disk downloads. */
  function NewTree(site: Site, s: Store, w: World): Tree
    requires w.download.Downloaded?
  {
    Unpacked(site, s.disk.tmp, w.download.archive)
  }

  /** Reading a tree into memory; a walk that fails leaves no catalog. */
  function Load(site: Site, s: Store, content: string, w: World): (r: (Store, bool))
    ensures r.0.disk == s.disk && r.0.lastSize == s.lastSize
  {
    if !w.walkApps then (s.(catalog := map[]), false)
    else
      (s.(catalog := Build(site.reader, content, w.losses.looks), catalogLooks := w.losses.looks,
          categoryMap := Some(CategoryList(site.reader, content, w.losses.categories)),
          categoriesLost := w.losses.categories,
          recommend := RecommendList(site.reader, content, w.losses.recommend)), true)
  }

  /** Moving the new tree in and reading it, up to the first failure. */
  function Install(site: Site, s: Store, w: World): (Store, bool) {
    if !w.moveIn || s.disk.tmp.None? || s.disk.work.Some? then (s, false)
    else
      var tree := s.disk.tmp.value;
      var moved := s.(disk := s.disk.(work := Some(tree), tmp := None));
      if !w.walkRoot || !site.reader.storeRoot(tree.content) then (moved, false)
      else
        var marked := moved.(disk := moved.disk.(work := Some(Marked(tree, site.url, w.marking))));
        if w.marking.MarkingFails? then (marked, false) else Load(site, marked, tree.content, w)
  }

  /** The deferred action that drops the backup, or puts it back. */
  function Settle(s: Store, ok: bool, w: World): Store {
    if ok then s.(disk := s.disk.(backup := w.dropBackup.Left()))
    else
      var cleared := s.disk.(work := w.clearWork.Left());
      if w.moveBack && cleared.work.None? then s.(disk := cleared.(work := cleared.backup, backup := None))
      else s.(disk := cleared)
  }

  function ClearTmp(s: Store, w: World): Store {
    s.(disk := s.disk.(tmp := w.clearTmp.Left()))
  }

  function Swap(site: Site, s: Store, w: World): (Store, bool) {
    if s.disk.work.None? || !w.seesWork then Install(site, s, w)
    else if w.clearBackup.RemovalFails? then (s.(disk := s.disk.(backup := w.clearBackup.left)), false)
    else
      var cleared := s.(disk := s.disk.(backup := None));
      if !w.moveAside then (cleared, false)
      else
        var (t, ok) := Install(site, cleared.(disk := cleared.disk.(work := None, backup := s.disk.work)), w);
        (Settle(t, ok, w), ok)
  }

  /** UpdateCatalog for a remote store. */
  function Update(site: Site, s: Store, w: World): (Store, Outcome) {
    if w.head.None? then (s, Failed)
    else if w.head.value == s.lastSize then (s, Unchanged)
    else if !w.workDirKnown then (s, Failed)
    else match w.download
      case DownloadFails(left) => (ClearTmp(s.(disk := s.disk.(tmp := left)), w), Failed)
      case Downloaded(archive) =>
        var (t, ok) := Swap(site, s.(disk := s.disk.(tmp := Some(Unpacked(site, s.disk.tmp, archive)))), w);
        var done := ClearTmp(t, w);
        if ok then (done.(lastSize := w.head.value), Updated) else (done, Failed)
  }

  // ---- one update ---------------------------------------------------------

  /** The two steps that put the old tree back. */
  ghost predicate RestoreWorks(w: World) {
    w.clearWork.Removed? && w.moveBack
  }

  /** Memory holds what a load of this content, with these losses, gives. */
  ghost predicate HoldsLoad(site: Site, s: Store, content: string, losses: Losses) {
    && s.catalog == Build(site.reader, content, losses.looks) && s.catalogLooks == losses.looks
    && s.categoryMap == Some(if losses.categories then map[] else site.reader.categories(content))
    && s.categoriesLost == losses.categories
    && s.recommend == if losses.recommend then [] else site.reader.recommend(content)
  }

  /** Memory is as before, but that the catalog may have been dropped. */
  ghost predicate SameMemory(s: Store, t: Store) {
    && t.lastSize == s.lastSize && t.catalog in {s.catalog, map[]} && t.catalogLooks == s.catalogLooks
    && t.categoryMap == s.categoryMap && t.categoriesLost == s.categoriesLost && t.recommend == s.recommend
  }

  /**
   * An update of an existing store ends, whatever fails on the way, with exactly
   * the old tree or exactly the unpacked one, marked as far as the flush went,
   * and says which; memory is then what the reading of the new tree gave, or as
   * it was.
   */
  lemma OldTreeOrNewTree(site: Site, s: Store, w: World)
    requires s.disk.work.Some? && RestoreWorks(w)
    ensures var (t, outcome) := Update(site, s, w);
            match outcome
            case Updated =>
              && w.download.Downloaded? && !w.marking.MarkingFails? && t.lastSize == w.head.value
              && t.disk.work == Some(Marked(NewTree(site, s, w), site.url, w.marking))
              && HoldsLoad(site, t, NewTree(site, s, w).content, w.losses)
            case _ => t.disk.work == s.disk.work && SameMemory(s, t)
  {
    hide Marked;
  }

  /** An update goes through exactly when there is a new size, every step works and the new tree is a store. */
  lemma UpdatedIff(site: Site, s: Store, w: World)
    ensures Update(site, s, w).1.Updated? <==>
              && w.head.Some? && w.head.value != s.lastSize && w.workDirKnown && w.download.Downloaded?
              && (s.disk.work.Some? ==> w.seesWork && w.clearBackup.Removed? && w.moveAside)
              && w.moveIn && w.walkRoot && site.reader.storeRoot(NewTree(site, s, w).content)
              && !w.marking.MarkingFails? && w.walkApps
    ensures Update(site, s, w).1.Updated? && w.dropBackup.Removed? && w.clearTmp.Removed? && s.disk.work.Some? ==>
              Update(site, s, w).0.disk == Disk(Some(Marked(NewTree(site, s, w), site.url, w.marking)), None, None)
  {
    hide Marked;
  }

  /** Whatever happened before, a successful update leaves memory that matches the tree in place. */
  lemma UpdatedLoads(site: Site, s: Store, w: World)
    requires Update(site, s, w).1.Updated?
    ensures w.download.Downloaded? && !w.marking.MarkingFails? && w.head.Some?
    ensures var t := Update(site, s, w).0;
            && t.disk.work == Some(Marked(NewTree(site, s, w), site.url, w.marking)) && t.lastSize == w.head.value
            && site.reader.storeRoot(NewTree(site, s, w).content)
            && HoldsLoad(site, t, NewTree(site, s, w).content, w.losses)
  {
    hide Marked;
  }

  /**
   * The new tree holds exactly the archive if and only if no other tree had been
   * left in the temporary directory, or unpacking over that one does not show.
   */
  lemma NewTreeIsArchiveIff(site: Site, s: Store, w: World)
    requires Update(site, s, w).1.Updated?
    ensures w.download.Downloaded? && Update(site, s, w).0.disk.work.Some?
    ensures Update(site, s, w).0.disk.work.value.content == w.download.archive.content
       <==> s.disk.tmp.None? || site.over(s.disk.tmp.value, w.download.archive).content == w.download.archive.content
  {
    UpdatedLoads(site, s, w);
  }

  /**
   * A tree left in the temporary directory is mixed into the next one, which is
   * installed as the archive: its size is recorded and later refreshes skip it.
   */
  lemma LeftoverIsMixedIn(site: Site, s: Store, w: World, left: Tree, w': World, next: World)
    requires w.clearTmp == RemovalFails(Some(left)) && w.workDirKnown && w.head.Some? && w.head.value != s.lastSize
    requires !Update(site, s, w).1.Updated?
    requires Update(site, Update(site, s, w).0, w').1.Updated? && next.head == w'.head
    ensures var t := Update(site, Update(site, s, w).0, w').0;
            && w'.download.Downloaded? && t.disk.work.Some?
            && t.disk.work.value.content == site.over(left, w'.download.archive).content
            && Update(site, t, next) == (t, Unchanged)
  {
    UpdatedLoads(site, Update(site, s, w).0, w');
    hide Marked;
  }

  /** The flush lost something that matters: the file does not already hold the rest of the text. */
  predicate MarkerLost(before: Option<string>, url: string, marking: Marking) {
    marking.FlushLost? && marking.kept < |url|
    && !(before.Some? && |before.value| >= |url| && before.value[marking.kept..|url|] == url[marking.kept..])
  }

  /** After a successful update the marker is whole if and only if the flush lost nothing. */
  lemma MarkerWholeIff(site: Site, s: Store, w: World)
    requires Update(site, s, w).1.Updated?
    ensures w.download.Downloaded? && Update(site, s, w).0.disk.work.Some?
    ensures var tree := NewTree(site, s, w);
            Update(site, s, w).0.disk.work == Some(Marked(tree, site.url, Written))
            <==> !MarkerLost(tree.marker, site.url, w.marking)
  {
    UpdatedLoads(site, s, w);
    hide MarkerText, Update;
    var before := NewTree(site, s, w).marker;
    if w.marking.FlushLost? && w.marking.kept < |site.url| {
      LostFlush(before, site.url, w.marking.kept);
    }
  }

  lemma LostFlush(before: Option<string>, url: string, kept: nat)
    requires kept < |url|
    ensures MarkerText(before, url[..kept]) == MarkerText(before, url) <==>
              before.Some? && |before.value| >= |url| && before.value[kept..|url|] == url[kept..]
  {
    var cut, whole := MarkerText(before, url[..kept]), MarkerText(before, url);
    assert whole[..|url|] == url && url == url[..kept] + url[kept..];
    if before.Some? && |before.value| > kept {
      assert cut == url[..kept] + before.value[kept..];
      if |before.value| >= |url| {
        assert before.value[kept..] == before.value[kept..|url|] + before.value[|url|..];
        assert whole == url + before.value[|url|..];
        assert cut[kept..|url|] == before.value[kept..|url|] && whole[kept..|url|] == url[kept..];
      }
    }
  }

  /**
   * A flush that loses the whole text of a new marker does not stop the update,
   * and the size is recorded: the next refresh leaves the empty marker there.
   */
  lemma LostMarkerStays(site: Site, s: Store, w: World, next: World)
    requires Update(site, s, w.(marking := Written)).1.Updated? && site.url != ""
    requires w.marking == FlushLost(0) && NewTree(site, s, w).marker.None? && next.head == w.head
    ensures var (t, outcome) := Update(site, s, w);
            && outcome == Updated && t.disk.work == Some(Tree(NewTree(site, s, w).content, Some("")))
            && Update(site, t, next) == (t, Unchanged)
  {
    UpdatedIff(site, s, w);
    UpdatedIff(site, s, w.(marking := Written));
    UpdatedLoads(site, s, w);
  }

  /** When everything works but the walk for the apps, the catalog in memory is dropped; the lists stay. */
  lemma FailedWalkDropsCatalog(site: Site, s: Store, w: World)
    requires Update(site, s, w.(walkApps := true)).1.Updated? && !w.walkApps
    ensures var (t, outcome) := Update(site, s, w);
            outcome == Failed && t.catalog == map[] && t.categoryMap == s.categoryMap && t.recommend == s.recommend
  {
    UpdatedIff(site, s, w.(walkApps := true));
    hide Marked;
  }

  /**
   * Even when putting it back fails too, a failed update does not lose the old tree:
   * it is in place or it is the backup.
   */
  lemma OneFailureKeepsOldTree(site: Site, s: Store, w: World)
    requires s.disk.work.Some? && Update(site, s, w).1 != Updated
    ensures s.disk.work in {Update(site, s, w).0.disk.work, Update(site, s, w).0.disk.backup}
  {
    hide Marked, Load;
  }

  /** The update gets as far as removing the backup. */
  predicate DropsBackup(s: Store, w: World) {
    && w.head.Some? && w.head.value != s.lastSize && w.workDirKnown && w.download.Downloaded?
    && s.disk.work.Some? && w.seesWork
  }

  /**
   * When the old tree is only in the backup and another one, or a rest of one,
   * is in its place, the next failing update keeps it if and only if it does not
   * get as far as the backup, or a failing removal happens to leave just that tree.
   */
  lemma BackupSurvivesIff(site: Site, s: Store, w: World, old': Tree)
    requires s.disk.backup == Some(old') && s.disk.work.Some? && s.disk.work != Some(old')
    requires Update(site, s, w).1 != Updated
    ensures Some(old') in {Update(site, s, w).0.disk.work, Update(site, s, w).0.disk.backup} <==>
              || !DropsBackup(s, w)
              || w.clearBackup == RemovalFails(Some(old'))
              || (w.clearBackup.Removed? && w.moveAside && w.clearWork == RemovalFails(Some(old')))
  {
    hide Marked, Load;
  }

  /** So two failures can lose it: a restore that fails, and then any update that stops after removing the backup. */
  lemma TwoFailuresLoseOldTree(site: Site, s: Store, w: World, w': World, junk: Tree)
    requires s.disk.work.Some? && s.disk.work != Some(junk)
    requires Update(site, s, w).1 != Updated && DropsBackup(s, w) && w.clearBackup.Removed? && w.moveAside
    requires w.clearWork == RemovalFails(Some(junk))
    requires w'.head == w.head && w'.workDirKnown && w'.download.Downloaded? && w'.seesWork
    requires w'.clearBackup.Removed? && !w'.moveAside && w'.clearTmp.Removed?
    ensures var t := Update(site, Update(site, s, w).0, w').0;
            t.disk == Disk(Some(junk), None, None)
  {
    hide Marked, Load;
  }

  /**
   * A first download puts a tree in place exactly when it is moved in, whatever
   * fails after that: a failure leaves it there when no store root is found, the
   * marker cannot be written or the walk fails.
   */
  lemma FirstDownload(site: Site, s: Store, w: World)
    requires s.disk.work.None?
    ensures var (t, outcome) := Update(site, s, w);
            var moved := w.head.Some? && w.head.value != s.lastSize && w.workDirKnown && w.download.Downloaded?
                         && w.moveIn;
            && (t.disk.work.Some? <==> moved)
            && (moved ==> t.disk.work.value.content == NewTree(site, s, w).content)
            && (outcome == Failed && t.disk.work.Some? <==>
                  moved && !(w.walkRoot && site.reader.storeRoot(NewTree(site, s, w).content)
                             && !w.marking.MarkingFails? && w.walkApps))
  {
    hide Marked;
  }

  // ---- reading through the cache ------------------------------------------

  /** What the disk alone yields; `io` is whether the walks over it work. */
  function FromDisk(site: Site, disk: Disk, io: bool, looks: Looks): Option<Apps> {
    if io && disk.work.Some? && site.reader.storeRoot(disk.work.value.content)
    then Some(Build(site.reader, disk.work.value.content, looks)) else None
  }

  function CategoriesFromDisk(site: Site, disk: Disk, io: bool, lost: bool): Option<Categories> {
    if io && disk.work.Some? && site.reader.storeRoot(disk.work.value.content)
    then Some(CategoryList(site.reader, disk.work.value.content, lost)) else None
  }

  function RecommendFromDisk(site: Site, disk: Disk, io: bool, lost: bool): Option<seq<string>> {
    if io && disk.work.Some? && site.reader.storeRoot(disk.work.value.content)
    then Some(RecommendList(site.reader, disk.work.value.content, lost)) else None
  }

  /** The cached catalog unless it is empty, else the one on disk, which is then cached. */
  function CatalogOf(site: Site, s: Store, io: bool, looks: Looks): (Store, Option<Apps>) {
    if s.catalog != map[] then (s, Some(s.catalog))
    else
      var loaded := FromDisk(site, s.disk, io, looks);
      if loaded.None? then (s, None) else (s.(catalog := loaded.value, catalogLooks := looks), loaded)
  }

  /** Likewise for the categories, of which an empty list is cached too. */
  function CategoryMapOf(site: Site, s: Store, io: bool, lost: bool): (Store, Option<Categories>) {
    if s.categoryMap.Some? then (s, s.categoryMap)
    else
      var loaded := CategoriesFromDisk(site, s.disk, io, lost);
      (if loaded.None? then s else s.(categoryMap := loaded, categoriesLost := lost), loaded)
  }

  /** The recommendations are cached by an update only. */
  function RecommendOf(site: Site, s: Store, io: bool, lost: bool): Option<seq<string>> {
    if s.recommend != [] then Some(s.recommend) else RecommendFromDisk(site, s.disk, io, lost)
  }

  /** Read with nothing in the way, the disk yields what its tree holds, if that is a store. */
  lemma DiskYields(site: Site, disk: Disk, tree: Tree)
    requires disk.work == Some(tree)
    ensures site.reader.storeRoot(tree.content) ==>
              && FromDisk(site, disk, true, ALL_CLEAR) == Some(Build(site.reader, tree.content, ALL_CLEAR))
              && CategoriesFromDisk(site, disk, true, false) == Some(site.reader.categories(tree.content))
              && RecommendFromDisk(site, disk, true, false) == Some(site.reader.recommend(tree.content))
    ensures !site.reader.storeRoot(tree.content) ==>
              && FromDisk(site, disk, true, ALL_CLEAR) == None && CategoriesFromDisk(site, disk, true, false) == None
              && RecommendFromDisk(site, disk, true, false) == None
  {
  }

  /** What a read returns it also keeps, but for an empty catalog: the next one gives the same without the disk. */
  lemma ReadsAreKept(site: Site, s: Store, io: bool, looks: Looks, lost: bool, io': bool, looks': Looks, lost': bool)
    ensures RecommendOf(site, s, io, lost)
         == if s.recommend != [] then Some(s.recommend) else RecommendFromDisk(site, s.disk, io, lost)
    ensures var (t, apps) := CatalogOf(site, s, io, looks);
            && t.disk == s.disk && t.lastSize == s.lastSize
            && (apps.Some? && apps.value != map[] ==> CatalogOf(site, t, io', looks') == (t, apps))
    ensures var (t, list) := CategoryMapOf(site, s, io, lost);
            && t.disk == s.disk && t.lastSize == s.lastSize
            && (list.Some? ==> CategoryMapOf(site, t, io', lost') == (t, list))
  {
  }

  // ---- over all runs ------------------------------------------------------

  datatype Event =
    | Refresh(w: World)
    | ReadCatalog(io: bool, looks: Looks)
    | ReadCategories(io: bool, lost: bool)
    | Unregister(known: bool, removal: Removal)

  /** The work directory goes when the store is unregistered; the store object stays. */
  function Unregistered(s: Store, known: bool, removal: Removal): Store {
    if known && s.disk.work.Some? then s.(disk := s.disk.(work := removal.Left())) else s
  }

  function Step(site: Site, s: Store, e: Event): Store {
    match e
    case Refresh(w) => Update(site, s, w).0
    case ReadCatalog(io, looks) => CatalogOf(site, s, io, looks).0
    case ReadCategories(io, lost) => CategoryMapOf(site, s, io, lost).0
    case Unregister(known, removal) => Unregistered(s, known, removal)
  }

  function Run(site: Site, s: Store, es: seq<Event>): Store {
    if es == [] then s else Step(site, Run(site, s, es[..|es| - 1]), es[|es| - 1])
  }

  /** What one more event does at the end of a run. */
  lemma RunGoesOn(site: Site, s: Store, es: seq<Event>, e: Event)
    ensures var t, u := Run(site, s, es), Run(site, s, es + [e]);
            && (e.Refresh? ==> u == Update(site, t, e.w).0)
            && (e.ReadCatalog? ==> u == CatalogOf(site, t, e.io, e.looks).0)
            && (e.ReadCategories? ==> u == CategoryMapOf(site, t, e.io, e.lost).0)
            && (e.Unregister? ==>
                  u == if e.known && t.disk.work.Some? then t.(disk := t.disk.(work := e.removal.Left())) else t)
    ensures Run(site, s, []) == s
  {
    assert (es + [e])[..|es|] == es;
  }

  /** The size asked for and the archive fetched within one update are of the same archive. */
  ghost predicate SameArchive(sizeOf: Tree -> int, w: World) {
    w.head.Some? && w.download.Downloaded? ==> w.head.value == sizeOf(w.download.archive)
  }

  /** Restores succeed, sizes are those of the archives, and the store stays registered. */
  ghost predicate Sane(sizeOf: Tree -> int, es: seq<Event>) {
    forall i :: 0 <= i < |es| ==>
      && !es[i].Unregister?
      && (es[i].Refresh? ==> RestoreWorks(es[i].w) && SameArchive(sizeOf, es[i].w))
  }

  /** The tree in place was unpacked, over `left` if that was there, from an archive of this size, and marked. */
  ghost predicate Installed(site: Site, sizeOf: Tree -> int, work: Dir, left: Dir, size: int) {
    exists archive, marking: Marking ::
      && !marking.MarkingFails? && sizeOf(archive) == size
      && work == Some(Marked(Unpacked(site, left, archive), site.url, marking))
  }

  /** What is in memory is the reading of the tree on disk, but for what went unread; the size is its archive's. */
  ghost predicate Consistent(site: Site, sizeOf: Tree -> int, s: Store) {
    && (s.catalog != map[] ==> FromDisk(site, s.disk, true, s.catalogLooks) == Some(s.catalog))
    && (s.categoryMap.Some? ==> CategoriesFromDisk(site, s.disk, true, s.categoriesLost) == s.categoryMap)
    && (s.recommend != [] ==> RecommendFromDisk(site, s.disk, true, false) == Some(s.recommend))
    && (s.lastSize != 0 ==> exists left :: Installed(site, sizeOf, s.disk.work, left, s.lastSize))
  }

  function Fresh(disk: Disk): Store {
    Store(disk, map[], None, [], 0, ALL_CLEAR, false)
  }

  /** A successful update makes memory consistent, whatever state it found. */
  lemma UpdatedIsConsistent(site: Site, sizeOf: Tree -> int, s: Store, w: World)
    requires Update(site, s, w).1.Updated? && SameArchive(sizeOf, w)
    ensures Consistent(site, sizeOf, Update(site, s, w).0)
    ensures Installed(site, sizeOf, Update(site, s, w).0.disk.work, s.disk.tmp, w.head.value)
  {
    UpdatedLoads(site, s, w);
    hide Update, Marked, Build, CategoryList, Unpacked;
    var t, tree := Update(site, s, w).0, NewTree(site, s, w);
    assert t.disk.work.value.content == tree.content;
    assert t.disk.work == Some(Marked(Unpacked(site, s.disk.tmp, w.download.archive), site.url, w.marking));
    assert Installed(site, sizeOf, t.disk.work, s.disk.tmp, w.head.value);
  }

  lemma UpdateKeepsConsistent(site: Site, sizeOf: Tree -> int, s: Store, w: World)
    requires Consistent(site, sizeOf, s) && RestoreWorks(w) && SameArchive(sizeOf, w)
    ensures Consistent(site, sizeOf, Update(site, s, w).0)
  {
    if Update(site, s, w).1.Updated? {
      UpdatedIsConsistent(site, sizeOf, s, w);
    } else if s.disk.work.Some? {
      OldTreeOrNewTree(site, s, w);
      hide Update, Marked, Build, CategoryList, RecommendList, Installed;
    } else {
      NotInstalled(site, sizeOf, s);
      EmptyStays(site, s, w);
      hide Update, Marked, Build, CategoryList, RecommendList, Installed;
    }
  }

  lemma NotInstalled(site: Site, sizeOf: Tree -> int, s: Store)
    requires s.disk.work.None? && Consistent(site, sizeOf, s)
    ensures s.catalog == map[] && s.categoryMap.None? && s.recommend == [] && s.lastSize == 0
  {
  }

  lemma EmptyStays(site: Site, s: Store, w: World)
    requires s.disk.work.None? && !Update(site, s, w).1.Updated?
    ensures SameMemory(s, Update(site, s, w).0)
  {
    hide Marked;
  }

  /**
   * From a fresh object on any disk, or from any consistent state, over any
   * sequence of refreshes and reads: a non-empty catalog, the categories and the
   * recommendations in memory are the reading of the tree on disk, short of what
   * went unread when each was last filled, and a recorded size is that of the
   * archive the tree came from.
   */
  lemma {:induction false} MemoryFollowsDisk(site: Site, sizeOf: Tree -> int, s: Store, es: seq<Event>)
    requires Sane(sizeOf, es) && Consistent(site, sizeOf, s)
    ensures Consistent(site, sizeOf, Run(site, s, es))
  {
    hide Update, Consistent, SameArchive;
    if es != [] {
      var init, e := es[..|es| - 1], es[|es| - 1];
      assert Sane(sizeOf, init) by {
        assert forall i :: 0 <= i < |init| ==> init[i] == es[i];
      }
      MemoryFollowsDisk(site, sizeOf, s, init);
      var before := Run(site, s, init);
      match e
      case Refresh(w) => UpdateKeepsConsistent(site, sizeOf, before, w);
      case ReadCatalog(io, looks) => ReadKeepsConsistent(site, sizeOf, before, io, looks, false);
      case ReadCategories(io, lost) => ReadKeepsConsistent(site, sizeOf, before, io, ALL_CLEAR, lost);
    }
  }

  lemma ReadKeepsConsistent(site: Site, sizeOf: Tree -> int, s: Store, io: bool, looks: Looks, lost: bool)
    requires Consistent(site, sizeOf, s)
    ensures Consistent(site, sizeOf, CatalogOf(site, s, io, looks).0)
    ensures Consistent(site, sizeOf, CategoryMapOf(site, s, io, lost).0)
  {
    hide Installed, Build, CategoryList, RecommendList;
  }

  lemma FreshIsConsistent(site: Site, sizeOf: Tree -> int, disk: Disk)
    ensures Consistent(site, sizeOf, Fresh(disk))
  {
  }

  /**
   * A read through the cache gives what a clear read of the disk would give if
   * and only if the cache is empty, or the load that filled it lost nothing that
   * shows: for the catalog, the same apps stay; for the categories, the list was
   * read, or holds none. The recommendations are always fresh.
   */
  lemma CachedReadsAreFreshIff(site: Site, sizeOf: Tree -> int, s: Store)
    requires Consistent(site, sizeOf, s)
    ensures CatalogOf(site, s, true, ALL_CLEAR).1 == FromDisk(site, s.disk, true, ALL_CLEAR)
       <==> s.catalog == map[] || Harmless(site.reader, s.disk.work.value.content, s.catalogLooks)
    ensures CategoryMapOf(site, s, true, false).1 == CategoriesFromDisk(site, s.disk, true, false)
       <==> s.categoryMap.None? || !s.categoriesLost || site.reader.categories(s.disk.work.value.content) == map[]
    ensures RecommendOf(site, s, true, false) == RecommendFromDisk(site, s.disk, true, false)
  {
    if s.catalog != map[] {
      BuildIsWholeIff(site.reader, s.disk.work.value.content, s.catalogLooks);
    }
    hide Build, Harmless, Installed;
  }

  /**
   * An app whose compose file could not be read during a refresh, in a store
   * otherwise in order, stays missing: the refresh succeeds, the partial catalog
   * is served from memory, and refreshes of the same size change nothing.
   */
  lemma UnreadAppStaysMissing(site: Site, s: Store, w: World, i: nat, next: World, io: bool, looks: Looks)
    requires Update(site, s, w).1.Updated? && w.download.Downloaded? && next.head == w.head
    requires var folders := site.reader.folders(NewTree(site, s, w).content);
             Tidy(site.reader, folders) && Loses(folders, w.losses.looks, i)
    requires Update(site, s, w).0.catalog != map[]
    ensures var t, app := Update(site, s, w).0, AppOf(site.reader, site.reader.folders(NewTree(site, s, w).content)[i]);
            && Update(site, t, next) == (t, Unchanged)
            && CatalogOf(site, t, io, looks) == (t, Some(t.catalog))
            && app.Some? && app.value.name !in t.catalog
            && app.value.name in Build(site.reader, NewTree(site, s, w).content, ALL_CLEAR)
            && t.disk.work.Some? && t.disk.work.value.content == NewTree(site, s, w).content
  {
    UpdatedLoads(site, s, w);
    LostIsMissing(site.reader, NewTree(site, s, w).content, w.losses.looks, i);
    hide Tidy, Loses, Build, AppOf;
  }

  /** So does a category list: its place is taken by an empty one for good. */
  lemma UnreadListStaysEmpty(site: Site, s: Store, w: World, next: World, io: bool, lost: bool)
    requires Update(site, s, w).1.Updated? && w.losses.categories && next.head == w.head
    ensures var t := Update(site, s, w).0;
            Update(site, t, next) == (t, Unchanged) && CategoryMapOf(site, t, io, lost) == (t, Some(map[]))
  {
    UpdatedLoads(site, s, w);
  }

  /**
   * The size shortcut hides no failed update: a refresh that finds a non-zero
   * size unchanged finds the tree of an archive of that size in place.
   */
  lemma ShortcutIsSound(site: Site, sizeOf: Tree -> int, s: Store, es: seq<Event>, w: World)
    requires Sane(sizeOf, es) && Consistent(site, sizeOf, s)
    requires Update(site, Run(site, s, es), w).1 == Unchanged && w.head != Some(0)
    ensures exists left :: Installed(site, sizeOf, Run(site, s, es).disk.work, left, w.head.value)
  {
    MemoryFollowsDisk(site, sizeOf, s, es);
    hide Installed, Run, Sane;
  }

  // ---- leftovers ----------------------------------------------------------

  /** Every update that gets so far clears its temporary directory. */
  ghost predicate ClearsUp(es: seq<Event>) {
    forall i :: 0 <= i < |es| && es[i].Refresh? ==> es[i].w.clearTmp.Removed?
  }

  /** Nothing is left over, and a recorded size is that of exactly the archive in place. */
  ghost predicate Exact(site: Site, sizeOf: Tree -> int, s: Store) {
    s.disk.tmp.None? && (s.lastSize != 0 ==> Installed(site, sizeOf, s.disk.work, None, s.lastSize))
  }

  lemma UpdateKeepsExact(site: Site, sizeOf: Tree -> int, s: Store, w: World)
    requires Exact(site, sizeOf, s) && RestoreWorks(w) && SameArchive(sizeOf, w) && w.clearTmp.Removed?
    ensures Exact(site, sizeOf, Update(site, s, w).0)
  {
    var t := Update(site, s, w).0;
    assert t.disk.tmp.None? by { hide Marked, Load; }
    if Update(site, s, w).1.Updated? {
      UpdatedIsConsistent(site, sizeOf, s, w);
    } else if s.disk.work.Some? {
      OldTreeOrNewTree(site, s, w);
    } else {
      EmptyStays(site, s, w);
    }
    hide Update, Unpacked, Marked;
  }

  /**
   * Without leftovers at the start, and with every update clearing up after
   * itself, the shortcut finds exactly the archive of that size in place.
   */
  lemma {:induction false} ExactWithoutLeftovers(site: Site, sizeOf: Tree -> int, s: Store, es: seq<Event>)
    requires Sane(sizeOf, es) && ClearsUp(es) && Exact(site, sizeOf, s)
    ensures Exact(site, sizeOf, Run(site, s, es))
  {
    hide Update, Installed, SameArchive;
    if es != [] {
      var init, e := es[..|es| - 1], es[|es| - 1];
      assert forall i :: 0 <= i < |init| ==> init[i] == es[i];
      ExactWithoutLeftovers(site, sizeOf, s, init);
      if e.Refresh? {
        UpdateKeepsExact(site, sizeOf, Run(site, s, init), e.w);
      }
    }
  }

  // ---- unregistering ------------------------------------------------------

  /**
   * Removing the work directory under a store object keeps it consistent if and
   * only if the object held nothing yet.
   */
  lemma UnregisterIsSoundIff(site: Site, sizeOf: Tree -> int, s: Store)
    requires Consistent(site, sizeOf, s)
    ensures Consistent(site, sizeOf, Unregistered(s, true, Removed)) <==>
              s.catalog == map[] && s.categoryMap.None? && s.recommend == [] && s.lastSize == 0
  {
    var t := Unregistered(s, true, Removed);
    if Consistent(site, sizeOf, t) {
      NotInstalled(site, sizeOf, t);
    }
  }

  /** Registering the store again while its archive has the size recorded leaves it without a tree. */
  lemma RegisteredAgainIsSkipped(site: Site, sizeOf: Tree -> int, s: Store, w: World)
    requires w.head == Some(s.lastSize)
    ensures var t := Unregistered(s, true, Removed);
            && Update(site, t, w) == (t, Unchanged) && t.disk.work.None?
            && forall left, size :: !Installed(site, sizeOf, t.disk.work, left, size)
  {
  }

  /**
   * For size zero there is no promise either: as long as the size is reported as
   * zero, or not at all, nothing is ever downloaded, and no tree is installed.
   */
  lemma {:induction false} ZeroSizeNeverDownloads(site: Site, sizeOf: Tree -> int, disk: Disk, es: seq<Event>)
    requires disk.work.None?
    requires forall i :: 0 <= i < |es| && es[i].Refresh? ==> es[i].w.head in {None, Some(0)}
    ensures Run(site, Fresh(disk), es) == Fresh(disk)
    ensures forall left, size :: !Installed(site, sizeOf, Run(site, Fresh(disk), es).disk.work, left, size)
  {
    if es != [] {
      var init := es[..|es| - 1];
      assert forall i :: 0 <= i < |init| ==> init[i] == es[i];
      ZeroSizeNeverDownloads(site, sizeOf, disk, init);
    }
  }

  // ---- the object ---------------------------------------------------------

  class AppStore {
    const site: Site
    var work: Dir
    var tmp: Dir
    var backup: Dir
    var catalog: Apps
    var categoryMap: Option<Categories>
    var recommend: seq<string>
    var lastAPPStoreSize: int
    ghost var catalogLooks: Looks
    ghost var categoriesLost: bool

    constructor (site: Site, disk: Disk)
      ensures this.site == site && View() == Fresh(disk)
    {
      this.site := site;
      work, tmp, backup := disk.work, disk.tmp, disk.backup;
      catalog, categoryMap, recommend, lastAPPStoreSize := map[], None, [], 0;
      catalogLooks, categoriesLost := ALL_CLEAR, false;
    }

    ghost function View(): Store
      reads this
    {
      Store(Disk(work, tmp, backup), catalog, categoryMap, recommend, lastAPPStoreSize, catalogLooks, categoriesLost)
    }

    method UpdateCatalog(w: World) returns (outcome: Outcome)
      modifies this
      ensures (View(), outcome) == Update(site, old(View()), w)
    {
      hide Marked, Build, Unpacked;
      if w.head.None? {
        return Failed;
      }
      if w.head.value == lastAPPStoreSize {
        return Unchanged;
      }
      if !w.workDirKnown {
        return Failed;
      }
      var isSuccessful, backedUp := false, false;
      label body: {
        if w.download.DownloadFails? {
          tmp := w.download.left;
          break body;
        }
        tmp := Some(Unpacked(site, tmp, w.download.archive));
        if work.Some? && w.seesWork {
          backup := w.clearBackup.Left();
          if w.clearBackup.RemovalFails? || !w.moveAside {
            break body;
          }
          work, backup := None, work;
          backedUp := true;
        }
        if !w.moveIn || work.Some? {
          break body;
        }
        work, tmp := tmp, None;
        isSuccessful := InstallTree(w);
      }
      if backedUp {
        if isSuccessful {
          backup := w.dropBackup.Left();
        } else {
          work := w.clearWork.Left();
          if w.moveBack && work.None? {
            work, backup := backup, None;
          }
        }
      }
      tmp := w.clearTmp.Left();
      if isSuccessful {
        lastAPPStoreSize := w.head.value;
      }
      return if isSuccessful then Updated else Failed;
    }

    /** The steps on the tree just moved in: find its root, mark it, read it. */
    method InstallTree(w: World) returns (ok: bool)
      requires work.Some? && tmp.None? && w.moveIn
      modifies this
      ensures (View(), ok) == Install(site, old(View()).(disk := Disk(None, old(work), old(backup))), w)
    {
      hide Marked, Build;
      if !w.walkRoot || !site.reader.storeRoot(work.value.content) {
        return false;
      }
      work := Some(Marked(work.value, site.url, w.marking));
      if w.marking.MarkingFails? {
        return false;
      }
      if !w.walkApps {
        catalog := map[];
        return false;
      }
      catalog := BuildCatalog(site.reader, work.value.content, w.losses.looks);
      catalogLooks := w.losses.looks;
      categoryMap := Some(CategoryList(site.reader, work.value.content, w.losses.categories));
      categoriesLost := w.losses.categories;
      recommend := RecommendList(site.reader, work.value.content, w.losses.recommend);
      return true;
    }

    method ReadCatalog(io: bool, looks: Looks) returns (apps: Option<Apps>)
      modifies this`catalog, this`catalogLooks
      ensures (View(), apps) == CatalogOf(site, old(View()), io, looks)
    {
      if |catalog| > 0 {
        return Some(catalog);
      }
      if !io || work.None? || !site.reader.storeRoot(work.value.content) {
        return None;
      }
      catalog := BuildCatalog(site.reader, work.value.content, looks);
      catalogLooks := looks;
      return Some(catalog);
    }

    method ReadCategoryMap(io: bool, lost: bool) returns (categories: Option<Categories>)
      modifies this`categoryMap, this`categoriesLost
      ensures (View(), categories) == CategoryMapOf(site, old(View()), io, lost)
    {
      if categoryMap.Some? {
        return categoryMap;
      }
      if !io || work.None? || !site.reader.storeRoot(work.value.content) {
        return None;
      }
      categoryMap := Some(CategoryList(site.reader, work.value.content, lost));
      categoriesLost := lost;
      return categoryMap;
    }

    method ReadRecommend(io: bool, lost: bool) returns (list: Option<seq<string>>)
      ensures list == RecommendOf(site, View(), io, lost)
    {
      if |recommend| > 0 {
        return Some(recommend);
      }
      return RecommendFromDisk(site, Disk(work, tmp, backup), io, lost);
    }

    /** Any event of a run. */
    method Perform(e: Event)
      modifies this
      ensures View() == Step(site, old(View()), e)
    {
      match e
      case Refresh(w) =>
        var outcome := UpdateCatalog(w);
      case ReadCatalog(io, looks) =>
        var apps := ReadCatalog(io, looks);
      case ReadCategories(io, lost) =>
        var categories := ReadCategoryMap(io, lost);
      case Unregister(known, removal) => RemoveWorkDir(known, removal);
    }

    /** The work directory of a store that is unregistered goes; the object is kept for the next time. */
    method RemoveWorkDir(known: bool, removal: Removal)
      modifies this`work
      ensures View() == Unregistered(old(View()), known, removal)
    {
      if known && work.Some? {
        work := removal.Left();
      }
    }
  }
}
