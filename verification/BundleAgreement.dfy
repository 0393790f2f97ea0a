/** Creation and verification agree: exactly when a staged bundle passes the verifier. */
module BundleAgreement {
  import opened Wrappers
  import opened Collections
  import opened BundlePaths
  import opened KeyIndex
  import opened TransferBundle
  import opened BundleExactness
  import opened BundleCreation

  // ---- which items a payload holds ----

  /** Item `i` of the payload belongs to table `t`. */
  predicate Belongs(item: Item, path: string, facts: TableFacts) {
    item == Item(path, Dbf) || (facts.memo && item == Item(Companion(path), Fpt))
  }

  lemma {:induction false} PayloadOwner(tables: seq<string>, facts: seq<TableFacts>, item: Item) returns (t: nat)
    requires |tables| == |facts| && item in Payload(tables, facts)
    ensures t < |tables| && Belongs(item, tables[t], facts[t])
    decreases |tables|
  {
    var n := |tables| - 1;
    if item in TableItems(tables[n], facts[n]) {
      t := n;
    } else {
      t := PayloadOwner(tables[..n], facts[..n], item);
    }
  }

  lemma {:induction false} PayloadHolds(tables: seq<string>, facts: seq<TableFacts>, t: nat)
    requires t < |tables| == |facts|
    ensures Item(tables[t], Dbf) in Payload(tables, facts)
    ensures facts[t].memo ==> Item(Companion(tables[t]), Fpt) in Payload(tables, facts)
    decreases |tables|
  {
    var n := |tables| - 1;
    if t < n {
      PayloadHolds(tables[..n], facts[..n], t);
    } else {
      var items := TableItems(tables[n], facts[n]);
      assert items[0] == Item(tables[t], Dbf);
      assert facts[t].memo ==> items[1] == Item(Companion(tables[t]), Fpt);
    }
  }

  // ---- laws and conditions ----

  predicate IsTableName(path: string, rules: Rules) {
    EndsWith(Key(path, rules), DBF)
  }

  /** The table paths are normal forms, and so are the companions of table names. */
  ghost predicate CanonicalTables(tables: seq<string>, rules: Rules) {
    forall i :: 0 <= i < |tables| ==>
      rules.normalize(tables[i]) == Some(tables[i]) &&
      (IsTableName(tables[i], rules) && !DotName(Key(tables[i], rules)) ==>
         rules.normalize(Companion(tables[i])) == Some(Companion(tables[i])))
  }

  /** The manifest name is a normal form. */
  predicate PathLaw(normalize: Normalizer) {
    normalize(MANIFEST) == Some(MANIFEST)
  }

  predicate DigestsBounded(e: Entry) {
    e.sha256 != "" && |e.sha256| <= MAX_TOKEN_LENGTH && e.schemaFingerprint != Some("")
  }

  /** The payload a caller can check before creating: its number, the table extensions, the
      digests, and that on this file system every artifact path is what its fold leads to. */
  ghost predicate TransferablePayload(q: Request, rules: Rules, paths: seq<string>, entries: seq<Entry>) {
    && 0 < |entries| <= MAX_MANIFEST_ARTIFACTS
    && (forall i :: 0 <= i < |q.tables| ==> IsTableName(q.tables[i], rules))
    && (forall i :: 0 <= i < |entries| ==> DigestsBounded(entries[i]))
    && (forall i :: 0 <= i < |paths| ==> LeadsBack(paths[i], rules))
  }

  /** A transferable request: the payload, and metadata and manifest within the limits. */
  ghost predicate Transferable(q: Request, rules: Rules, sealed: Content, paths: seq<string>, entries: seq<Entry>) {
    && HeaderAccepted(q.header) && AssuranceAccepted(WrittenAssurance(q.assurance, rules.vocabulary), rules.vocabulary)
    && sealed.size <= MAX_MANIFEST_BYTES
    && TransferablePayload(q, rules, paths, entries)
  }

  // ---- names of payload items ----

  /** The extension of an item follows its kind. */
  lemma ItemTypeBound(item: Item, path: string, facts: TableFacts, rules: Rules)
    requires PlatformLaws(rules) && Belongs(item, path, facts)
    requires IsTableName(path, rules) && !Barred(path, rules)
    ensures TypeBound(item.kind, Key(item.path, rules)) && item.kind != OtherKind
  {
    var key := Key(path, rules);
    FoldCommutesWithCompanion(path, rules.letter);
    NotBarredHasNoDot(path, rules);
    CompanionOfTable(key);
    ExtensionsDiffer(key);
    ExtensionsDiffer(Companion(key));
  }

  lemma ExtensionsDiffer(s: string)
    ensures !(EndsWith(s, DBF) && EndsWith(s, FPT))
  {
  }

  lemma CompanionKeyOfFold(path: string, rules: Rules)
    requires LetterLaws(rules.letter)
    ensures CompanionKey(Key(path, rules), rules) == Key(Companion(path), rules)
  {
    FoldCommutesWithCompanion(path, rules.letter);
    FoldIdempotent(Companion(path), rules.letter);
  }

  // ---- from creation to acceptance ----

  /** Tables with canonical names and the table extension, all of whose items are allowed. */
  ghost predicate SoundTables(tables: seq<string>, facts: seq<TableFacts>, items: seq<Item>, rules: Rules) {
    && |tables| == |facts| && items == Payload(tables, facts)
    && PlatformLaws(rules) && PathLaw(rules.normalize) && CanonicalTables(tables, rules)
    && (forall i :: 0 <= i < |items| ==> ItemAllowed(items[i], rules))
    && (forall i :: 0 <= i < |tables| ==> IsTableName(tables[i], rules))
  }

  predicate SoundItem(item: Item, rules: Rules) {
    && rules.normalize(item.path) == Some(item.path) && !Barred(item.path, rules)
    && TypeBound(item.kind, Key(item.path, rules)) && item.kind != OtherKind
  }

  lemma TableIsAllowed(tables: seq<string>, facts: seq<TableFacts>, items: seq<Item>, rules: Rules, t: nat)
    requires SoundTables(tables, facts, items, rules) && t < |tables|
    ensures !Barred(tables[t], rules)
  {
    PayloadHolds(tables, facts, t);
    assert ItemAllowed(Item(tables[t], Dbf), rules);
  }

  lemma ItemIsSound(tables: seq<string>, facts: seq<TableFacts>, items: seq<Item>, rules: Rules, i: nat)
    requires SoundTables(tables, facts, items, rules) && i < |items|
    ensures SoundItem(items[i], rules)
  {
    var t := PayloadOwner(tables, facts, items[i]);
    TableIsAllowed(tables, facts, items, rules, t);
    NotBarredHasNoDot(tables[t], rules);
    ItemTypeBound(items[i], tables[t], facts[t], rules);
    assert ItemAllowed(items[i], rules);
  }

  lemma SoundKeyIsNotManifest(item: Item, rules: Rules)
    requires LetterLaws(rules.letter) && SoundItem(item, rules)
    ensures Key(item.path, rules) != MANIFEST && item.path != MANIFEST
  {
    BoundIsNotManifest(item.kind, Key(item.path, rules));
    ManifestIsPlain(rules);
  }

  /** The manifest is added beside the copies. */
  lemma ManifestIsAdded(copied: Tree, paths: seq<string>, rules: Rules, sealed: Content)
    requires PlatformLaws(rules)
    requires Paths(copied) == paths && Distinct(Folded(paths, rules)) && MANIFEST !in Folded(paths, rules)
    ensures var tree := Write(copied, rules, MANIFEST, sealed);
            && tree == copied + [File(MANIFEST, sealed)]
            && Paths(tree) == paths + [MANIFEST]
            && FileKeys(tree, rules) == Folded(paths, rules) + [MANIFEST]
            && Distinct(FileKeys(tree, rules))
  {
    ManifestIsPlain(rules);
    assert NamesFoldAlike(rules);
    forall i | 0 <= i < |copied| ensures Canons(Paths(copied), rules)[i] != rules.canon(MANIFEST) {
      assert Folded(paths, rules)[i] != MANIFEST;
      assert Key(paths[i], rules) != Key(MANIFEST, rules);
    }
  }

  /** A folded path leads back to the copy it was made from. */
  lemma OpensBack(tree: Tree, rules: Rules, i: nat)
    requires PlatformLaws(rules) && i < |tree| && Distinct(FileKeys(tree, rules))
    requires LeadsBack(tree[i].path, rules)
    ensures Open(tree, rules, Key(tree[i].path, rules)) == Some(tree[i].content)
  {
    var names := Canons(Paths(tree), rules);
    assert NamesFoldAlike(rules);
    forall j, k | 0 <= j < k < |tree| ensures names[j] != names[k] {
      assert FileKeys(tree, rules)[j] != FileKeys(tree, rules)[k];
      assert Key(tree[j].path, rules) != Key(tree[k].path, rules);
    }
    FindDistinct(names, i);
  }

  /** Items beside their sources, entries and keys. */
  ghost predicate Aligned(items: seq<Item>, sources: seq<Option<Content>>, entries: seq<Entry>, keys: seq<string>,
                          rules: Rules)
  {
    && |items| == |sources| == |entries| == |keys|
    && forall i :: 0 <= i < |items| ==>
         && Copyable(items[i].kind, sources[i])
         && entries[i] == EntryFor(items[i].path, items[i].kind, sources[i].value, rules.vocabulary)
         && keys[i] == Key(items[i].path, rules)
  }

  /** Each source is what its table's facts describe. */
  ghost predicate SourcesOf(items: seq<Item>, sources: seq<Option<Content>>, tables: seq<string>,
                            facts: seq<TableFacts>) {
    && |items| == |sources| && |tables| == |facts|
    && forall i, t :: 0 <= i < |items| && 0 <= t < |tables| && items[i] == Item(tables[t], Dbf) ==>
         sources[i].Some? && sources[i].value.table == Some(facts[t])
  }

  /** A memo table's companion is among the items. */
  lemma MemoHasCompanion(tables: seq<string>, facts: seq<TableFacts>, items: seq<Item>, sources: seq<Option<Content>>,
                         entries: seq<Entry>, keys: seq<string>, rules: Rules, i: nat)
    requires LetterLaws(rules.letter)
    requires SourcesOf(items, sources, tables, facts) && items == Payload(tables, facts)
    requires Aligned(items, sources, entries, keys, rules) && i < |items| && MemoAt(entries, sources, i)
    ensures CompanionKey(keys[i], rules) in keys
  {
    var t := PayloadOwner(tables, facts, items[i]);
    PayloadHolds(tables, facts, t);
    var j :| 0 <= j < |items| && items[j] == Item(Companion(tables[t]), Fpt);
    CompanionKeyOfFold(tables[t], rules);
    assert keys[j] == CompanionKey(keys[i], rules);
  }

  /** An FPT item is the companion of a memo table among the items. */
  lemma FptHasTable(tables: seq<string>, facts: seq<TableFacts>, items: seq<Item>, sources: seq<Option<Content>>,
                    entries: seq<Entry>, keys: seq<string>, rules: Rules, i: nat) returns (j: nat)
    requires LetterLaws(rules.letter)
    requires SourcesOf(items, sources, tables, facts) && items == Payload(tables, facts)
    requires Aligned(items, sources, entries, keys, rules) && i < |items| && entries[i].kind == Fpt
    ensures j < |items| && MemoAt(entries, sources, j) && CompanionKey(keys[j], rules) == keys[i]
  {
    var t := PayloadOwner(tables, facts, items[i]);
    PayloadHolds(tables, facts, t);
    j :| 0 <= j < |items| && items[j] == Item(tables[t], Dbf);
    CompanionKeyOfFold(tables[t], rules);
  }

  lemma PayloadAgrees(tables: seq<string>, facts: seq<TableFacts>, items: seq<Item>, sources: seq<Option<Content>>,
                      entries: seq<Entry>, keys: seq<string>, companions: seq<string>, rules: Rules)
    requires LetterLaws(rules.letter)
    requires SourcesOf(items, sources, tables, facts) && items == Payload(tables, facts)
    requires Aligned(items, sources, entries, keys, rules) && companions == CompanionKeys(keys, rules)
    ensures PayloadMatches(entries, keys, companions, sources) && FptsBelong(entries, keys, companions, sources)
  {
    forall i | 0 <= i < |items|
      ensures Matches(entries[i], sources[i]) && (MemoAt(entries, sources, i) ==> companions[i] in keys)
    {
      if MemoAt(entries, sources, i) {
        MemoHasCompanion(tables, facts, items, sources, entries, keys, rules, i);
      }
    }
    forall i | 0 <= i < |items| && entries[i].kind == Fpt
      ensures exists j :: 0 <= j < |entries| && MemoAt(entries, sources, j) && companions[j] == keys[i]
    {
      var j := FptHasTable(tables, facts, items, sources, entries, keys, rules, i);
    }
  }

  // ---- agreement ----

  /** The one manifest the staged tree can hold is the sealed one. */
  lemma StagedManifestIsSealed(copied: Tree, rules: Rules, m: Manifest, sealed: Content, m': Manifest, c: Content)
    requires PlatformLaws(rules) && Distinct(FileKeys(copied, rules)) && sealed.manifest == Some(m)
    requires HoldsManifest(Write(copied, rules, MANIFEST, sealed), m', c)
    ensures m' == m && c == sealed
  {
    var tree, at := Write(copied, rules, MANIFEST, sealed), Locate(copied, rules, MANIFEST);
    var found := Find(Paths(tree), MANIFEST);
    if found < |copied| {
      var names := Canons(Paths(copied), rules);
      assert Paths(tree)[found] == MANIFEST && tree[found].path == copied[found].path;
      assert names[found] == rules.canon(MANIFEST);
      assert names[at] == rules.canon(MANIFEST);
      assert NamesFoldAlike(rules);
      assert rules.canon(copied[at].path) == rules.canon(copied[found].path);
      assert FileKeys(copied, rules)[at] == FileKeys(copied, rules)[found];
    }
  }

  /** The names of a sound payload are its normal forms, and none folds to the manifest. */
  lemma SoundNames(tables: seq<string>, facts: seq<TableFacts>, items: seq<Item>, rules: Rules, paths: seq<string>)
    requires SoundTables(tables, facts, items, rules) && paths == NormalPaths(items, rules)
    ensures forall i :: 0 <= i < |items| ==> SoundItem(items[i], rules) && paths[i] == items[i].path
    ensures MANIFEST !in Folded(paths, rules)
  {
    forall i | 0 <= i < |items|
      ensures SoundItem(items[i], rules) && paths[i] == items[i].path && Folded(paths, rules)[i] != MANIFEST
    {
      ItemIsSound(tables, facts, items, rules, i);
      SoundKeyIsNotManifest(items[i], rules);
    }
  }

  lemma SourcesHaveFacts(working: Tree, rules: Rules, tables: seq<string>, facts: seq<TableFacts>,
                         items: seq<Item>, paths: seq<string>, sources: seq<Option<Content>>)
    requires Facts(working, rules, tables, facts) && |items| == |paths| == |sources|
    requires forall i :: 0 <= i < |items| ==> paths[i] == items[i].path
    requires sources == Opens(working, rules, paths)
    ensures SourcesOf(items, sources, tables, facts)
  {
  }

  /** Entries of sound items are accepted under their folded paths. */
  lemma EntriesOfItems(items: seq<Item>, sources: seq<Option<Content>>, entries: seq<Entry>, keys: seq<string>,
                       rules: Rules)
    requires Aligned(items, sources, entries, keys, rules) && Distinct(keys) && 0 < |items| <= MAX_MANIFEST_ARTIFACTS
    requires forall i :: 0 <= i < |items| ==> SoundItem(items[i], rules)
    requires forall i :: 0 <= i < |entries| ==> DigestsBounded(entries[i])
    requires LetterLaws(rules.letter)
    ensures EntriesAccepted(entries, rules) && KeysOf(entries, rules) == keys
  {
    forall i | 0 <= i < |items| ensures items[i].path != MANIFEST {
      SoundKeyIsNotManifest(items[i], rules);
    }
  }

  lemma NamesOfItems(copied: Tree, items: seq<Item>, rules: Rules, sealed: Content)
    requires |copied| == |items| && rules.normalize(MANIFEST).Some?
    requires forall i :: 0 <= i < |items| ==> SoundItem(items[i], rules) && copied[i].path == items[i].path
    ensures NamesAccepted(copied + [File(MANIFEST, sealed)], rules)
  {
  }

  lemma OpensAreSources(tree: Tree, copied: Tree, paths: seq<string>, keys: seq<string>, rules: Rules,
                        sources: seq<Option<Content>>)
    requires PlatformLaws(rules) && Distinct(FileKeys(tree, rules)) && keys == Folded(paths, rules)
    requires |copied| == |paths| == |sources| <= |tree| && copied == tree[..|copied|]
    requires forall i :: 0 <= i < |paths| ==> sources[i].Some? && copied[i] == File(paths[i], sources[i].value)
    requires forall i :: 0 <= i < |paths| ==> LeadsBack(paths[i], rules)
    ensures Opens(tree, rules, keys) == sources
  {
    forall i | 0 <= i < |paths| ensures Opens(tree, rules, keys)[i] == sources[i] {
      assert tree[i] == copied[i];
      OpensBack(tree, rules, i);
    }
  }

  lemma HoldsSealed(copied: Tree, sealed: Content, m: Manifest)
    requires MANIFEST !in Paths(copied) && sealed.manifest == Some(m) && sealed.size <= MAX_MANIFEST_BYTES
    ensures HoldsManifest(copied + [File(MANIFEST, sealed)], m, sealed)
  {
    var tree := copied + [File(MANIFEST, sealed)];
    assert Paths(tree)[|copied|] == MANIFEST;
    forall i | 0 <= i < |copied| ensures Paths(tree)[i] != MANIFEST {
      assert Paths(copied)[i] in Paths(copied);
    }
  }

  lemma InventoryOfCopies(keys: seq<string>)
    ensures KeySet(keys + [MANIFEST]) == KeySet(keys) + {MANIFEST}
  {
  }

  /** The payload of a transferable request is accepted beside its manifest. */
  lemma PayloadIsAccepted(q: Request, rules: Rules, seal: Sealer, facts: seq<TableFacts>, copied: Tree, staged: Staged)
    requires Stages(q, rules, seal, facts, copied, staged)
    requires PlatformLaws(rules) && PathLaw(rules.normalize) && CanonicalTables(q.tables, rules)
    requires TransferablePayload(q, rules, Paths(copied), staged.manifest.entries)
    ensures NamesAccepted(staged.tree, rules) && PayloadAccepted(staged.tree, rules, staged.manifest.entries)
    ensures staged.tree == copied + [File(MANIFEST, seal(staged.manifest))] && MANIFEST !in Paths(copied)
  {
    var items, entries, sealed := Payload(q.tables, facts), staged.manifest.entries, seal(staged.manifest);
    var paths := NormalPaths(items, rules);
    var keys, sources := Folded(paths, rules), Opens(q.working, rules, paths);
    assert Paths(copied) == paths;
    SoundNames(q.tables, facts, items, rules, paths);
    SourcesHaveFacts(q.working, rules, q.tables, facts, items, paths, sources);
    ManifestIsAdded(copied, paths, rules, sealed);
    EntriesOfItems(items, sources, entries, keys, rules);
    NamesOfItems(copied, items, rules, sealed);
    OpensAreSources(staged.tree, copied, paths, keys, rules, sources);
    PayloadAgrees(q.tables, facts, items, sources, entries, keys, CompanionKeys(keys, rules), rules);
    InventoryOfCopies(keys);
    ManifestNotAPath(paths, rules);
  }

  /** A transferable request is accepted. */
  lemma TransferableIsAccepted(q: Request, rules: Rules, seal: Sealer, facts: seq<TableFacts>,
                               copied: Tree, staged: Staged)
    requires Stages(q, rules, seal, facts, copied, staged)
    requires PlatformLaws(rules) && PathLaw(rules.normalize) && CanonicalTables(q.tables, rules)
    requires seal(staged.manifest).manifest == Some(staged.manifest)
    requires Transferable(q, rules, seal(staged.manifest), Paths(copied), staged.manifest.entries)
    ensures CoreAccepts(staged.tree, rules, staged.manifest, seal(staged.manifest))
  {
    PayloadIsAccepted(q, rules, seal, facts, copied, staged);
    HoldsSealed(copied, seal(staged.manifest), staged.manifest);
  }

  lemma ManifestNotAPath(paths: seq<string>, rules: Rules)
    requires LetterLaws(rules.letter) && MANIFEST !in Folded(paths, rules)
    ensures MANIFEST !in paths
  {
    ManifestIsPlain(rules);
    forall i | 0 <= i < |paths| ensures paths[i] != MANIFEST {
      assert Folded(paths, rules)[i] in Folded(paths, rules);
    }
  }

  /** An accepted payload came from a transferable one. */
  lemma PayloadIsTransferable(q: Request, rules: Rules, seal: Sealer, facts: seq<TableFacts>,
                              copied: Tree, staged: Staged)
    requires Stages(q, rules, seal, facts, copied, staged)
    requires PlatformLaws(rules) && CanonicalTables(q.tables, rules)
    requires PayloadAccepted(staged.tree, rules, staged.manifest.entries) && MANIFEST in Paths(staged.tree)
    ensures TransferablePayload(q, rules, Paths(copied), staged.manifest.entries)
  {
    var entries := staged.manifest.entries;
    var sources := Opens(q.working, rules, NormalPaths(Payload(q.tables, facts), rules));
    forall t | 0 <= t < |q.tables| ensures IsTableName(q.tables[t], rules) {
      AcceptedTableName(q.tables, facts, rules, entries, copied, sources, t);
    }
    forall i | 0 <= i < |entries| ensures DigestsBounded(entries[i]) {
      assert EntryAccepted(entries[i], rules);
    }
    forall i | 0 <= i < |copied| ensures LeadsBack(Paths(copied)[i], rules) {
      WriteKeepsPaths(copied, rules, MANIFEST, seal(staged.manifest));
      NameLeadsBack(staged.tree, rules, entries, i);
    }
  }

  /** An accepted staged tree came from a transferable request. */
  lemma AcceptedIsTransferable(q: Request, rules: Rules, seal: Sealer, facts: seq<TableFacts>,
                               copied: Tree, staged: Staged)
    requires Stages(q, rules, seal, facts, copied, staged)
    requires PlatformLaws(rules) && CanonicalTables(q.tables, rules)
    requires CoreAccepts(staged.tree, rules, staged.manifest, seal(staged.manifest))
    ensures Transferable(q, rules, seal(staged.manifest), Paths(copied), staged.manifest.entries)
  {
    PayloadIsTransferable(q, rules, seal, facts, copied, staged);
  }

  lemma AcceptedTableName(tables: seq<string>, facts: seq<TableFacts>, rules: Rules, entries: seq<Entry>,
                          copied: Tree, sources: seq<Option<Content>>, t: nat)
    requires |tables| == |facts| && t < |tables| && CanonicalTables(tables, rules)
    requires Copies(Payload(tables, facts), NormalPaths(Payload(tables, facts), rules), sources,
                    rules.vocabulary, copied, entries)
    requires forall i :: 0 <= i < |entries| ==> EntryAccepted(entries[i], rules)
    ensures IsTableName(tables[t], rules)
  {
    var items := Payload(tables, facts);
    PayloadHolds(tables, facts, t);
    var i :| 0 <= i < |items| && items[i] == Item(tables[t], Dbf);
    assert entries[i].path == tables[t] && entries[i].kind == Dbf;
    assert EntryAccepted(entries[i], rules);
  }

  lemma WriteKeepsPaths(copied: Tree, rules: Rules, path: string, c: Content)
    ensures Paths(copied) <= Paths(Write(copied, rules, path, c))
  {
    var tree := Write(copied, rules, path, c);
    forall i | 0 <= i < |copied| ensures Paths(copied)[i] == Paths(tree)[i] {
    }
  }

  /** Creation and the verifier agree: the staged tree is accepted exactly when the request
      is transferable, and then under the fingerprint and artifact count of creation. */
  lemma CreateVerifyAgree(q: Request, rules: Rules, seal: Sealer, facts: seq<TableFacts>, copied: Tree, staged: Staged)
    requires Stages(q, rules, seal, facts, copied, staged)
    requires PlatformLaws(rules) && PathLaw(rules.normalize) && CanonicalTables(q.tables, rules)
    requires seal(staged.manifest).manifest == Some(staged.manifest)
    ensures (exists m, c :: CoreAccepts(staged.tree, rules, m, c)) <==>
            Transferable(q, rules, seal(staged.manifest), Paths(copied), staged.manifest.entries)
    ensures forall m, c :: CoreAccepts(staged.tree, rules, m, c) ==>
              m == staged.manifest && c.sha256 == staged.fingerprint &&
              |m.entries| == |Payload(q.tables, facts)|
  {
    var paths, sealed := NormalPaths(Payload(q.tables, facts), rules), seal(staged.manifest);
    assert Paths(copied) == paths;
    assert FileKeys(copied, rules) == Folded(paths, rules);
    forall m, c | CoreAccepts(staged.tree, rules, m, c) ensures m == staged.manifest && c == sealed {
      StagedManifestIsSealed(copied, rules, staged.manifest, sealed, m, c);
    }
    if Transferable(q, rules, sealed, Paths(copied), staged.manifest.entries) {
      TransferableIsAccepted(q, rules, seal, facts, copied, staged);
    }
    if m, c :| CoreAccepts(staged.tree, rules, m, c) {
      AcceptedIsTransferable(q, rules, seal, facts, copied, staged);
    }
  }

  lemma CopiesDetermined(items: seq<Item>, paths: seq<string>, sources: seq<Option<Content>>,
                         v: Vocabulary, t1: Tree, e1: seq<Entry>, t2: Tree, e2: seq<Entry>)
    requires Copies(items, paths, sources, v, t1, e1) && Copies(items, paths, sources, v, t2, e2)
    ensures t1 == t2 && e1 == e2
  {
  }

  /** A request determines what is staged. */
  lemma StagesDetermined(q: Request, rules: Rules, seal: Sealer, f1: seq<TableFacts>, t1: Tree, s1: Staged,
                         f2: seq<TableFacts>, t2: Tree, s2: Staged)
    requires Stages(q, rules, seal, f1, t1, s1) && Stages(q, rules, seal, f2, t2, s2)
    ensures f1 == f2 && t1 == t2 && s1 == s2
  {
    AllReadDetermined(ReadTables(q.working, rules, q.tables), f1, f2);
    var items := Payload(q.tables, f1);
    var paths := NormalPaths(items, rules);
    CopiesDetermined(items, paths, Opens(q.working, rules, paths), rules.vocabulary,
                     t1, s1.manifest.entries, t2, s2.manifest.entries);
  }

  ghost predicate Exports(q: Request, rules: Rules, seal: Sealer, facts: seq<TableFacts>, copied: Tree,
                          staged: Staged) {
    && Stages(q, rules, seal, facts, copied, staged)
    && Transferable(q, rules, seal(staged.manifest), Paths(copied), staged.manifest.entries)
  }

  lemma ExportsDetermined(q: Request, rules: Rules, seal: Sealer, facts: seq<TableFacts>, copied: Tree, staged: Staged)
    requires Stages(q, rules, seal, facts, copied, staged)
    ensures forall f, t, s :: Exports(q, rules, seal, f, t, s) ==> f == facts && t == copied && s == staged
  {
    forall f, t, s | Exports(q, rules, seal, f, t, s) ensures f == facts && t == copied && s == staged {
      StagesDetermined(q, rules, seal, f, t, s, facts, copied, staged);
    }
  }

  /** Steps 3 to 6: build, then verify the staged tree. Succeeds exactly on what is
      transferable, and reports the fingerprint and the count of the staged manifest. */
  method CreateAndSelfVerify(q: Request, rules: Rules, seal: Sealer) returns (r: Checked<Accepted>)
    requires PlatformLaws(rules) && PathLaw(rules.normalize) && CanonicalTables(q.tables, rules)
    requires forall m :: seal(m).manifest == Some(m)
    ensures r.Ok? <==> exists facts, copied, staged :: Exports(q, rules, seal, facts, copied, staged)
    ensures forall facts, copied, staged :: Exports(q, rules, seal, facts, copied, staged) ==>
              r == Ok(Accepted(staged.fingerprint, |Payload(q.tables, facts)|))
  {
    var staged, facts, copied := CreateStaged(q, rules, seal);
    if staged.Err? {
      return Err(staged.error);
    }
    CreateVerifyAgree(q, rules, seal, facts, copied, staged.value);
    ExportsDetermined(q, rules, seal, facts, copied, staged.value);
    r := VerifyCore(staged.value.tree, rules);
    assert r.Ok? <==> Exports(q, rules, seal, facts, copied, staged.value);
  }
}
