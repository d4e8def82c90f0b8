/** What repeated installations of an app do with its stored secrets. */
module SecretsStore {
  import opened Text
  import opened Secrets
  import opened SecretsFile

  // ---- one installation ---------------------------------------------------

  /** Random bytes for a name, if the system yields any. */
  type Entropy = string -> Option<seq<Byte>>

  function Draw(entropy: Entropy, name: string): Option<string> {
    var bytes := entropy(name);
    if bytes.Some? && |bytes.value| == EntropyLength(name) then Some(GenerateSecret(name, bytes.value)) else None
  }

  /** The stored secrets, and a fresh one for every wanted name that has none. */
  function Extended(stored: Values, wanted: set<string>, entropy: Entropy): Option<Values> {
    if forall name | name in wanted && name !in stored :: Draw(entropy, name).Some?
    then Some(map name | name in stored.Keys + wanted ::
                if name in stored then stored[name] else Draw(entropy, name).value)
    else None
  }

  /**
   * What becomes of the file: it cannot be read or replaced, or it is replaced by
   * the entries printed in the order the map yields them, cut as the disk cuts them.
   */
  datatype Writing = Refused | Replaced(order: seq<string>, kept: nat -> nat)

  /** What SubstituteSecrets may do with a template. */
  ghost predicate Substitutes(file: Option<string>, yaml: string, entropy: Entropy, writing: Writing,
                              file': Option<string>, out: Option<string>) {
    var pieces := Scan(yaml);
    if Names(pieces) == {} then file' == file && out == Some(yaml)
    else
      var values := Extended(Load(file), Names(pieces), entropy);
      if values.None? || writing.Refused? then file' == file && out == None
      else out == Some(Fill(pieces, values.value))
           && file'.Some? && Prints(file'.value, values.value, writing.order, writing.kept)
  }

  /** The values a successful call works with. */
  function Used(file: Option<string>, yaml: string, entropy: Entropy): Option<Values> {
    if Names(Scan(yaml)) == {} then Some(Load(file)) else Extended(Load(file), Names(Scan(yaml)), entropy)
  }

  /** The call replaces no file, or loses nothing of it that matters. */
  ghost predicate Spares(file: Option<string>, yaml: string, entropy: Entropy, writing: Writing) {
    var values := Extended(Load(file), Names(Scan(yaml)), entropy);
    Names(Scan(yaml)) != {} && values.Some? && writing.Replaced? ==>
      (forall k :: k in writing.order ==> k in values.value) && Intact(values.value, writing.order, writing.kept)
  }

  lemma SecretEntryIsClean(name: string, value: string)
    requires IsSecretName(name) && Generated(value)
    ensures Clean(Entry(name, value))
  {
    var line := Entry(name, value).Line();
    assert name[0] == 'A';
    assert line[0] == name[0] && line[|line| - 1] == value[|value| - 1];
    assert forall i :: 0 <= i < |name| ==> NameChar(name[i]);
  }

  lemma ExtendedIsClean(file: Option<string>, yaml: string, entropy: Entropy)
    requires Extended(Load(file), Names(Scan(yaml)), entropy).Some?
    ensures CleanValues(Extended(Load(file), Names(Scan(yaml)), entropy).value)
  {
    LoadIsClean(file);
    ScanSpells(yaml);
    var stored, values := Load(file), Extended(Load(file), Names(Scan(yaml)), entropy).value;
    forall name | name in values ensures Clean(Entry(name, values[name])) {
      if name !in stored {
        GeneratedShape(name, entropy(name).value);
        SecretEntryIsClean(name, values[name]);
      }
    }
  }

  /**
   * A failed call leaves the file. A successful one works with all that was
   * stored and a value for each name, and the file afterwards loads to just
   * those values if and only if nothing that matters was cut from it.
   */
  lemma SubstitutionStores(file: Option<string>, yaml: string, entropy: Entropy, writing: Writing,
                           file': Option<string>, out: Option<string>)
    requires Substitutes(file, yaml, entropy, writing, file', out)
    ensures out.None? ==> file' == file
    ensures out.Some? ==>
      var used := Used(file, yaml, entropy);
      && used.Some? && Names(Scan(yaml)) <= used.value.Keys && Holds(used.value, Load(file))
      && out.value == Fill(Scan(yaml), used.value)
      && (Load(file') == used.value <==> Spares(file, yaml, entropy, writing))
  {
    hide Load, Fill, Scan, Print, Intact;
    var pieces := Scan(yaml);
    if Names(pieces) == {} {
      FillDependsOnNames(pieces, Load(file'), map[]);
      NoNamesNoChange(pieces);
      ScanSpells(yaml);
    } else if out.Some? {
      ExtendedIsClean(file, yaml, entropy);
      LoadPrintIff(Extended(Load(file), Names(pieces), entropy).value, writing.order, writing.kept);
    }
  }

  /**
   * A call succeeds exactly when there is no placeholder, or when a value can be
   * drawn for each name that has none and the file can be replaced; a name that
   * had no value gets the one generated from its random bytes.
   */
  lemma SucceedsIff(file: Option<string>, yaml: string, entropy: Entropy, writing: Writing,
                    file': Option<string>, out: Option<string>, name: string)
    requires Substitutes(file, yaml, entropy, writing, file', out)
    ensures out.Some? <==>
              || !HasPlaceholder(yaml)
              || (writing.Replaced?
                  && forall x :: x in Names(Scan(yaml)) && x !in Load(file) ==>
                       entropy(x).Some? && |entropy(x).value| == EntropyLength(x))
    ensures out.Some? && name in Names(Scan(yaml)) && name !in Load(file) ==>
              && entropy(name).Some? && name in Used(file, yaml, entropy).value
              && Used(file, yaml, entropy).value[name] == GenerateSecret(name, entropy(name).value)
  {
    HolesIffPlaceholder(yaml);
    hide Scan, HasPlaceholder, Load, Fill, Print, Names, EntropyLength, GenerateSecret, Prints;
    var wanted, stored := Names(Scan(yaml)), Load(file);
    assert forall x :: x in wanted && x !in stored ==>
      (Draw(entropy, x).Some? <==> entropy(x).Some? && |entropy(x).value| == EntropyLength(x));
  }

  /** Everything in `stored` is in `values`, unchanged. */
  ghost predicate Holds(values: Values, stored: Values) {
    forall name :: name in stored ==> name in values && values[name] == stored[name]
  }

  lemma {:induction false} NoNamesNoChange(pieces: seq<Piece>)
    requires Names(pieces) == {}
    ensures Fill(pieces, map[]) == Unscan(pieces)
  {
    if pieces != [] {
      assert pieces == [pieces[0]] + pieces[1..];
      NamesCons(pieces[0], pieces[1..]);
      NoNamesNoChange(pieces[1..]);
    }
  }

  /** Installing again when all names are stored: exactly then are the stored secrets what they were. */
  lemma ReinstallKeepsIff(file: Option<string>, yaml: string, entropy: Entropy, writing: Writing,
                          file': Option<string>, out: Option<string>)
    requires Substitutes(file, yaml, entropy, writing, file', out)
    requires Names(Scan(yaml)) <= Load(file).Keys && !writing.Refused?
    ensures Load(file') == Load(file) <==> Spares(file, yaml, entropy, writing)
  {
    AllStored(Load(file), Names(Scan(yaml)), entropy);
    hide Load, Fill, Scan, Print, Intact, Spares, Extended, Names, Prints, Holds;
    assert out.Some?;
    hide Substitutes;
    SubstitutionStores(file, yaml, entropy, writing, file', out);
  }

  lemma AllStored(stored: Values, wanted: set<string>, entropy: Entropy)
    requires wanted <= stored.Keys
    ensures Extended(stored, wanted, entropy) == Some(stored)
  {
    hide Draw;
    assert stored.Keys + wanted == stored.Keys;
    assert Extended(stored, wanted, entropy).value == stored;
  }

  /**
   * When the disk is full from some point of the printing on, the stored secrets
   * survive a call, also one that adds names, if and only if the line of each of
   * them was printed whole, newline apart; what is cut of the new ones is no matter.
   */
  lemma StoredSurviveIff(file: Option<string>, yaml: string, entropy: Entropy, writing: Writing,
                         file': Option<string>, out: Option<string>)
    requires Substitutes(file, yaml, entropy, writing, file', out)
    requires Names(Scan(yaml)) != {} && writing.Replaced?
    requires var used := Used(file, yaml, entropy);
             && used.Some? && IsOrderOf(writing.order, used.value.Keys)
             && Truncated([HEADER, HINT] + EntryLines(used.value, writing.order), writing.kept, 0)
    ensures var order, lines := writing.order, EntryLines(Used(file, yaml, entropy).value, writing.order);
            Holds(Load(file'), Load(file)) <==>
              forall i :: 0 <= i < |order| && order[i] in Load(file) ==> writing.kept(2 + i) >= |lines[i]|
  {
    var used, order := Used(file, yaml, entropy).value, writing.order;
    ExtendedIsClean(file, yaml, entropy);
    AllHeld(Load(file), Names(Scan(yaml)), entropy);
    assert file' == Some(Print(used, order, writing.kept));
    hide Load, Scan, Print, Truncated, Extended, Names, CleanValues, HEADER, HINT, EntryLines, Substitutes;
    forall i | 0 <= i < |order|
      ensures Loads(Load(file'), used, order[i]) <==> writing.kept(2 + i) >= |EntryLines(used, order)[i]|
    {
      TruncatedLoadsIff(used, order, writing.kept, i);
    }
    HeldIffLoads(Load(file'), Load(file), used, order);
  }

  lemma AllHeld(stored: Values, wanted: set<string>, entropy: Entropy)
    requires Extended(stored, wanted, entropy).Some?
    ensures Holds(Extended(stored, wanted, entropy).value, stored)
  {
  }

  lemma HeldIffLoads(got: Values, stored: Values, used: Values, order: seq<string>)
    requires Holds(used, stored) && IsOrderOf(order, used.Keys)
    ensures Holds(got, stored) <==> forall i :: 0 <= i < |order| && order[i] in stored ==> Loads(got, used, order[i])
  {
    if forall i :: 0 <= i < |order| && order[i] in stored ==> Loads(got, used, order[i]) {
      forall name | name in stored ensures name in got && got[name] == stored[name] {
        assert name in order;
        var i :| 0 <= i < |order| && order[i] == name;
      }
    }
  }

  // ---- over the life of an app --------------------------------------------

  datatype Install = Install(yaml: string, entropy: Entropy, writing: Writing)

  /** `files` are the file before, between and after the installations, `outs` their results. */
  ghost predicate Life(installs: seq<Install>, files: seq<Option<string>>, outs: seq<Option<string>>) {
    && |files| == |installs| + 1 && |outs| == |installs|
    && forall i :: 0 <= i < |installs| ==> Installed(installs[i], files[i], files[i + 1], outs[i])
  }

  ghost predicate Installed(i: Install, file: Option<string>, file': Option<string>, out: Option<string>) {
    Substitutes(file, i.yaml, i.entropy, i.writing, file', out)
  }

  /** Installations i to j - 1 cut nothing that matters. */
  ghost predicate AllSpare(installs: seq<Install>, files: seq<Option<string>>, i: nat, j: nat)
    requires i <= j <= |installs| <= |files|
  {
    forall k :: i <= k < j ==> Spares(files[k], installs[k].yaml, installs[k].entropy, installs[k].writing)
  }

  /**
   * A secret, once stored, is never changed or lost, whatever is installed, with
   * whatever randomness and failures, as long as no file is replaced by a cut one.
   */
  lemma {:induction false} SecretsNeverChange(installs: seq<Install>, files: seq<Option<string>>,
                                              outs: seq<Option<string>>,
                                              i: nat, j: nat)
    requires Life(installs, files, outs) && i <= j < |files| && AllSpare(installs, files, i, j)
    ensures Holds(Load(files[j]), Load(files[i]))
    decreases j
  {
    hide Load, Substitutes, Spares;
    if i < j {
      SecretsNeverChange(installs, files, outs, i, j - 1);
      var step := installs[j - 1];
      assert Installed(step, files[j - 1], files[j], outs[j - 1]);
      SubstitutionStores(files[j - 1], step.yaml, step.entropy, step.writing, files[j], outs[j - 1]);
    }
  }

  /** Then two successful installations of the same template, any time apart, give identical bytes. */
  lemma SameTemplateSameBytes(installs: seq<Install>, files: seq<Option<string>>, outs: seq<Option<string>>, i: nat,
                              j: nat)
    requires Life(installs, files, outs) && i <= j < |installs| && AllSpare(installs, files, i, j)
    requires installs[i].yaml == installs[j].yaml && outs[i].Some? && outs[j].Some?
    ensures outs[i] == outs[j]
  {
    hide Load, Fill, Scan, Substitutes, Spares;
    if i < j {
      var yaml, first, last := installs[i].yaml, installs[i], installs[j];
      assert Installed(first, files[i], files[i + 1], outs[i]) && Installed(last, files[j], files[j + 1], outs[j]);
      SubstitutionStores(files[i], yaml, first.entropy, first.writing, files[i + 1], outs[i]);
      SubstitutionStores(files[j], yaml, last.entropy, last.writing, files[j + 1], outs[j]);
      SecretsNeverChange(installs, files, outs, i + 1, j);
      var used, used' := Used(files[i], yaml, first.entropy).value, Used(files[j], yaml, last.entropy).value;
      FillDependsOnNames(Scan(yaml), used, used');
    }
  }

  lemma SeedAlone(v: string)
    ensures Names(Scan(Placeholder("APP_SEED"))) == {"APP_SEED"}
    ensures Fill(Scan(Placeholder("APP_SEED")), map["APP_SEED" := v]) == v
  {
    var name, yaml := "APP_SEED", Placeholder("APP_SEED");
    SeedIsSecret();
    FillHole(name, "", map[name := v]);
    FillNothing(map[name := v]);
    assert yaml + "" == yaml && yaml[..|name| + 3] == yaml;
    MatchIsPrefix(yaml, name);
    hide MatchAt;
    var (first, rest) := FirstPiece(yaml);
    assert rest == "" && Scan(rest) == [];
    NamesCons(first, Scan(rest));
    assert v + "" == v;
  }

  lemma NothingKept(values: Values, order: seq<string>, kept: nat -> nat)
    requires (forall k :: k in order ==> k in values) && forall n :: kept(n) == 0
    ensures Print(values, order, kept) == "" && Load(Some("")) == map[]
  {
    NothingPrinted([HEADER, HINT] + EntryLines(values, order), kept, 0);
    NothingYieldsNothing();
    LoadNothing([""]);
  }

  lemma {:induction false} NothingPrinted(lines: seq<string>, kept: nat -> nat, k: nat)
    requires forall n :: kept(n) == 0
    ensures Printed(lines, kept, k) == ""
  {
    if lines != [] {
      NothingPrinted(lines[1..], kept, k + 1);
    }
  }

  lemma FullDiskCall(file: Option<string>, yaml: string, name: string, v: string, entropy: Entropy, kept: nat -> nat)
    requires Extended(Load(file), {name}, entropy) == Some(map[name := v]) && forall n :: kept(n) == 0
    requires Names(Scan(yaml)) == {name} && Fill(Scan(yaml), map[name := v]) == v
    ensures Substitutes(file, yaml, entropy, Replaced([name], kept), Some(""), Some(v))
  {
    hide Load, Scan, Print, Fill, Extended, Names, Prints;
    OnePrinted(name, v, kept);
  }

  lemma OnePrinted(name: string, v: string, kept: nat -> nat)
    requires forall n :: kept(n) == 0
    ensures Prints("", map[name := v], [name], kept)
  {
    NothingKept(map[name := v], [name], kept);
    hide Print;
  }

  lemma ExtendedOne(stored: Values, name: string, v: string, entropy: Entropy)
    requires stored == map[name := v] || (stored == map[] && Draw(entropy, name) == Some(v))
    ensures Extended(stored, {name}, entropy) == Some(map[name := v])
  {
    hide Draw;
    assert Extended(stored, {name}, entropy).value == map[name := v];
  }

  /** Two installations of one template on a disk that takes nothing. */
  lemma FullDiskLife(stored: Option<string>, install: Install, name: string, v: string, w: string)
    requires install.writing.Replaced? && install.writing.order == [name] && forall n :: install.writing.kept(n) == 0
    requires Names(Scan(install.yaml)) == {name}
    requires forall x :: Fill(Scan(install.yaml), map[name := x]) == x
    requires Load(stored) == map[name := v] && Draw(install.entropy, name) == Some(w)
    ensures Life([install, install], [stored, Some(""), Some("")], [Some(v), Some(w)]) && Load(Some("")) == map[]
  {
    NothingKept(map[], [], install.writing.kept);
    hide Load, Scan, Print, Fill, Draw, Extended, Substitutes, Names, Life;
    ExtendedOne(Load(stored), name, v, install.entropy);
    FullDiskCall(stored, install.yaml, name, v, install.entropy, install.writing.kept);
    ExtendedOne(map[], name, w, install.entropy);
    FullDiskCall(Some(""), install.yaml, name, w, install.entropy, install.writing.kept);
    LifeOfTwo(install, stored, Some(""), Some(""), Some(v), Some(w));
  }

  lemma LifeOfTwo(i: Install, f: Option<string>, g: Option<string>, h: Option<string>, o: Option<string>,
                  o': Option<string>)
    requires Installed(i, f, g, o) && Installed(i, g, h, o')
    ensures Life([i, i], [f, g, h], [o, o'])
  {
    hide Installed;
  }

  /**
   * A disk that takes nothing of the new file loses every secret, although the
   * call succeeds; the next one draws a new seed, and the same template reads
   * differently.
   */
  lemma FullDiskLosesSecrets(stored: Option<string>, v: string, bytes: seq<Byte>, kept: nat -> nat)
    returns (install: Install)
    requires Load(stored) == map["APP_SEED" := v] && |bytes| == 32 && forall n :: kept(n) == 0
    ensures install.yaml == Placeholder("APP_SEED")
    ensures Life([install, install], [stored, Some(""), Some("")], [Some(v), Some(RandomHex(bytes))])
    ensures Load(Some("")) == map[]
  {
    var entropy: Entropy := _ => Some(bytes);
    SeedDrawn(entropy, bytes);
    forall x ensures Fill(Scan(Placeholder("APP_SEED")), map["APP_SEED" := x]) == x {
      SeedAlone(x);
    }
    SeedAlone(v);
    install := Install(Placeholder("APP_SEED"), entropy, Replaced(["APP_SEED"], kept));
    hide *;
    FullDiskLife(stored, install, "APP_SEED", v, RandomHex(bytes));
  }

  lemma SeedDrawn(entropy: Entropy, bytes: seq<Byte>)
    requires entropy("APP_SEED") == Some(bytes) && |bytes| == 32
    ensures Draw(entropy, "APP_SEED") == Some(RandomHex(bytes))
  {
  }

  /**
   * One successful installation: its output is the template, spelled by its
   * pieces, with the holes filled; and when every value used is inert, no
   * placeholder is left.
   */
  lemma NoPlaceholderLeft(file: Option<string>, yaml: string, entropy: Entropy, writing: Writing,
                          file': Option<string>, out: Option<string>)
    requires Substitutes(file, yaml, entropy, writing, file', out) && out.Some?
    ensures var used := Used(file, yaml, entropy);
            && Unscan(Scan(yaml)) == yaml && used.Some? && out.value == Fill(Scan(yaml), used.value)
            && ((forall name :: name in Names(Scan(yaml)) ==> name in used.value && Inert(used.value[name])) ==>
                  !HasPlaceholder(out.value))
  {
    hide Scan, Substitutes, Inert, Spares, Load, Fill, Unscan, Names, HasPlaceholder, Used, Holds;
    SubstitutionStores(file, yaml, entropy, writing, file', out);
    ScanSpells(yaml);
    var used := Used(file, yaml, entropy).value;
    if forall name :: name in Names(Scan(yaml)) ==> name in used && Inert(used[name]) {
      NothingLeft(yaml, used);
    }
  }

  // ---- the loops ----------------------------------------------------------

  /** Draws a value for each wanted name that has none, in any order, stopping at the first that fails. */
  method EnsureSecrets(existing: Values, wanted: set<string>, entropy: Entropy) returns (values: Option<Values>)
    ensures values == Extended(existing, wanted, entropy)
  {
    var all := existing;
    var todo := wanted;
    assert wanted - todo == {};
    ExtendedByNone(existing, entropy);
    while todo != {}
      invariant todo <= wanted && Extended(existing, wanted - todo, entropy) == Some(all)
    {
      var name :| name in todo;
      if name !in all {
        assert name !in existing;
        var v := Draw(entropy, name);
        if v.None? {
          UndrawableSpoils(existing, wanted, name, entropy);
          return None;
        }
        all := all[name := v.value];
      }
      assert wanted - (todo - {name}) == (wanted - todo) + {name};
      ExtendedByOne(existing, wanted - todo, name, entropy);
      todo := todo - {name};
    }
    assert wanted - todo == wanted;
    return Some(all);
  }

  lemma ExtendedByNone(existing: Values, entropy: Entropy)
    ensures Extended(existing, {}, entropy) == Some(existing)
  {
    assert existing.Keys + {} == existing.Keys;
    assert Extended(existing, {}, entropy).value == existing;
  }

  lemma ExtendedByOne(existing: Values, done: set<string>, name: string, entropy: Entropy)
    requires Extended(existing, done, entropy).Some?
    ensures var all := Extended(existing, done, entropy).value;
            if name in all then Extended(existing, done + {name}, entropy) == Some(all)
            else if Draw(entropy, name).None? then Extended(existing, done + {name}, entropy) == None
            else Extended(existing, done + {name}, entropy) == Some(all[name := Draw(entropy, name).value])
  {
    hide Draw;
    var all := Extended(existing, done, entropy).value;
    if name in all {
      assert existing.Keys + (done + {name}) == existing.Keys + done;
    } else if Draw(entropy, name).Some? {
      assert Extended(existing, done + {name}, entropy).value == all[name := Draw(entropy, name).value];
    }
  }

  /** One undrawable name spoils the whole. */
  lemma UndrawableSpoils(existing: Values, wanted: set<string>, name: string, entropy: Entropy)
    requires name in wanted && name !in existing && Draw(entropy, name).None?
    ensures Extended(existing, wanted, entropy).None?
  {
  }

  class SecretsDir {
    var file: Option<string>

    constructor (file: Option<string>)
      ensures this.file == file
    {
      this.file := file;
    }

    /** `io` is whether the file can be read and replaced, `kept` how much of each print reaches the new one. */
    method SubstituteSecrets(yaml: string, entropy: Entropy, io: bool, kept: nat -> nat) returns (out: Option<string>)
      modifies this
      ensures if io then exists order :: Substitutes(old(file), yaml, entropy, Replaced(order, kept), file, out)
              else Substitutes(old(file), yaml, entropy, Refused, file, out)
    {
      hide Scan, Load, Extended, Fill;
      ghost var before := file;
      var pieces := Scan(yaml);
      var wanted := Names(pieces);
      if wanted == {} {
        assert Substitutes(before, yaml, entropy, Replaced([], kept), file, Some(yaml));
        return Some(yaml);
      }
      var existing := LoadSecretsFile(file);
      var values := EnsureSecrets(existing, wanted, entropy);
      if values.None? || !io {
        assert values.None? ==> Substitutes(before, yaml, entropy, Replaced([], kept), file, None);
        return None;
      }
      var text := WriteSecretsFile(values.value, kept);
      file := Some(text);
      out := Some(Fill(pieces, values.value));
      ghost var order :| Prints(text, values.value, order, kept);
      assert Substitutes(before, yaml, entropy, Replaced(order, kept), file, out);
    }
  }
}
