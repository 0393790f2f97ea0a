/** What acceptance by the bundle verifier means: an exact inventory. */
module BundleExactness {
  import opened Wrappers
  import opened Collections
  import opened BundlePaths
  import opened KeyIndex
  import opened TransferBundle

  // ---- what the platform guarantees ----

  /** Lower-casing keeps dot-names. */
  ghost predicate LowerKeepsDots(rules: Rules) {
    forall p: string {:trigger rules.lower(p)} :: DotName(p) ==> DotName(rules.lower(p))
  }

  /** Names the file system takes for the same file fold alike. */
  ghost predicate NamesFoldAlike(rules: Rules) {
    forall p: string, q: string :: rules.canon(p) == rules.canon(q) ==> Key(p, rules) == Key(q, rules)
  }

  ghost predicate PlatformLaws(rules: Rules) {
    LetterLaws(rules.letter) && LowerKeepsDots(rules) && NamesFoldAlike(rules)
  }

  // ---- keys ----

  lemma ManifestIsPlain(rules: Rules)
    requires LetterLaws(rules.letter)
    ensures Key(MANIFEST, rules) == MANIFEST
  {
    assert forall i :: 0 <= i < |MANIFEST| ==> Plain(MANIFEST[i]);
    PlainFolds(MANIFEST, rules.letter);
  }

  lemma ManifestExtension()
    ensures !EndsWith(MANIFEST, DBF) && !EndsWith(MANIFEST, FPT)
  {
    var n := |MANIFEST|;
    assert MANIFEST[n - 1] == 'n';
    assert MANIFEST[n - 4..][3] == 'n';
  }

  /** A declared key is a non-dot name bound to its type. */
  predicate KeyShape(e: Entry, key: string) {
    !DotName(key) && TypeBound(e.kind, key) && e.kind != OtherKind && key != MANIFEST
  }

  lemma BoundIsNotManifest(kind: Kind, key: string)
    requires TypeBound(kind, key) && kind != OtherKind
    ensures key != MANIFEST
  {
    ManifestExtension();
  }

  lemma NotBarredHasNoDot(path: string, rules: Rules)
    requires PlatformLaws(rules) && !Barred(path, rules)
    ensures !DotName(Key(path, rules))
  {
    FoldDotName(path, rules.letter);
    assert LowerKeepsDots(rules);
  }

  lemma AcceptedKeyShape(e: Entry, rules: Rules)
    requires PlatformLaws(rules) && EntryAccepted(e, rules)
    ensures KeyShape(e, KeyOf(e, rules)) && Key(KeyOf(e, rules), rules) == KeyOf(e, rules)
  {
    var path := rules.normalize(e.path).value;
    NotBarredHasNoDot(path, rules);
    FoldIdempotent(path, rules.letter);
    BoundIsNotManifest(e.kind, Key(path, rules));
  }

  /** On folded keys the folded companion is the companion. */
  lemma CompanionOfKey(key: string, rules: Rules)
    requires LetterLaws(rules.letter) && Key(key, rules) == key
    ensures CompanionKey(key, rules) == Companion(key)
  {
    FoldCommutesWithCompanion(key, rules.letter);
  }

  /** Entries with well-shaped keys and their companions. */
  ghost predicate Shaped(entries: seq<Entry>, keys: seq<string>, companions: seq<string>) {
    && |entries| == |keys| == |companions|
    && (forall i :: 0 <= i < |entries| ==> KeyShape(entries[i], keys[i]))
    && (forall i :: 0 <= i < |entries| ==> companions[i] == Companion(keys[i]))
  }

  lemma AcceptedIsShaped(entries: seq<Entry>, rules: Rules, keys: seq<string>, companions: seq<string>)
    requires PlatformLaws(rules) && forall i :: 0 <= i < |entries| ==> EntryAccepted(entries[i], rules)
    requires keys == KeysOf(entries, rules) && companions == CompanionKeys(keys, rules)
    ensures Shaped(entries, keys, companions)
  {
    forall i | 0 <= i < |entries| ensures KeyShape(entries[i], keys[i]) && companions[i] == Companion(keys[i]) {
      AcceptedKeyShape(entries[i], rules);
      CompanionOfKey(keys[i], rules);
    }
  }

  // ---- companions and counts ----

  /** The keys of one artifact kind. */
  ghost function KeysOfKind(entries: seq<Entry>, keys: seq<string>, kind: Kind): set<string>
    requires |entries| == |keys|
  {
    set i | 0 <= i < |entries| && entries[i].kind == kind :: keys[i]
  }

  ghost function MemoKeys(entries: seq<Entry>, keys: seq<string>, opens: seq<Option<Content>>): set<string>
    requires |entries| == |keys| == |opens|
  {
    set i | 0 <= i < |entries| && MemoAt(entries, opens, i) :: keys[i]
  }

  ghost function Companions(keys: set<string>): set<string> {
    set k | k in keys :: Companion(k)
  }

  /** Table keys have as many companions as there are keys. */
  lemma CompanionsCount(keys: set<string>)
    requires forall k :: k in keys ==> !DotName(k) && EndsWith(k, DBF)
    ensures |Companions(keys)| == |keys|
  {
    var f := map k | k in keys :: Companion(k);
    forall k, l | k in f && l in f && f[k] == f[l] ensures k == l {
      CompanionInjective(k, l);
    }
    ImageCount(f, keys);
    assert Image(f, keys) == Companions(keys);
  }

  /** A memo table's companion is declared, as an FPT. */
  lemma CompanionIsFpt(entries: seq<Entry>, keys: seq<string>, companions: seq<string>,
                       opens: seq<Option<Content>>, i: nat) returns (j: nat)
    requires Shaped(entries, keys, companions) && |opens| == |entries| && i < |entries|
    requires PayloadMatches(entries, keys, companions, opens) && MemoAt(entries, opens, i)
    ensures j < |entries| && entries[j].kind == Fpt && keys[j] == companions[i]
  {
    assert KeyShape(entries[i], keys[i]);
    CompanionOfTable(keys[i]);
    j :| 0 <= j < |keys| && keys[j] == companions[i];
    assert KeyShape(entries[j], keys[j]);
  }

  /** The declared FPTs are exactly the companions of the memo tables. */
  lemma FptsAreCompanions(entries: seq<Entry>, keys: seq<string>, companions: seq<string>,
                          opens: seq<Option<Content>>)
    requires Shaped(entries, keys, companions) && |opens| == |entries|
    requires PayloadMatches(entries, keys, companions, opens) && FptsBelong(entries, keys, companions, opens)
    ensures KeysOfKind(entries, keys, Fpt) == Companions(MemoKeys(entries, keys, opens))
  {
    var memo := MemoKeys(entries, keys, opens);
    forall k | k in memo ensures Companion(k) in KeysOfKind(entries, keys, Fpt) {
      var i :| 0 <= i < |entries| && MemoAt(entries, opens, i) && keys[i] == k;
      var j := CompanionIsFpt(entries, keys, companions, opens, i);
    }
    forall k | k in KeysOfKind(entries, keys, Fpt) ensures k in Companions(memo) {
      var i :| 0 <= i < |entries| && entries[i].kind == Fpt && keys[i] == k;
      var j :| 0 <= j < |entries| && MemoAt(entries, opens, j) && companions[j] == keys[i];
      assert keys[j] in memo;
    }
  }

  /** Tables and FPTs partition the declared keys. */
  lemma KindsPartition(entries: seq<Entry>, keys: seq<string>, companions: seq<string>)
    requires Shaped(entries, keys, companions) && Distinct(keys)
    ensures |entries| == |KeysOfKind(entries, keys, Dbf)| + |KeysOfKind(entries, keys, Fpt)|
  {
    var dbf, fpt := KeysOfKind(entries, keys, Dbf), KeysOfKind(entries, keys, Fpt);
    KeySetCount(keys);
    forall i | 0 <= i < |entries| ensures keys[i] in dbf + fpt {
      assert KeyShape(entries[i], keys[i]);
    }
    assert KeySet(keys) == dbf + fpt;
    assert dbf !! fpt;
  }

  lemma MemoKeysAreTables(entries: seq<Entry>, keys: seq<string>, companions: seq<string>,
                          opens: seq<Option<Content>>)
    requires Shaped(entries, keys, companions) && |opens| == |entries|
    ensures |Companions(MemoKeys(entries, keys, opens))| == |MemoKeys(entries, keys, opens)|
  {
    var memo := MemoKeys(entries, keys, opens);
    forall k | k in memo ensures !DotName(k) && EndsWith(k, DBF) {
      var i :| 0 <= i < |entries| && MemoAt(entries, opens, i) && keys[i] == k;
      assert KeyShape(entries[i], keys[i]);
    }
    CompanionsCount(memo);
  }

  lemma InventoryCount(files: seq<string>, keys: seq<string>, entries: seq<Entry>, companions: seq<string>)
    requires Distinct(files) && Distinct(keys) && KeySet(files) == KeySet(keys) + {MANIFEST}
    requires Shaped(entries, keys, companions)
    ensures MANIFEST !in keys && |files| == |keys| + 1
  {
    assert forall i :: 0 <= i < |keys| ==> KeyShape(entries[i], keys[i]);
    KeySetCount(files);
    KeySetCount(keys);
  }

  // ---- names ----

  /** On this file system the folded name leads to the same file as the name. */
  predicate LeadsBack(path: string, rules: Rules) {
    rules.canon(Key(path, rules)) == rules.canon(path)
  }

  /** An opened key whose file has that key is a name that leads back. */
  lemma OpenedLeadsBack(tree: Tree, rules: Rules, i: nat)
    requires PlatformLaws(rules) && i < |tree| && Distinct(FileKeys(tree, rules))
    requires Locate(tree, rules, FileKeys(tree, rules)[i]) < |tree|
    ensures LeadsBack(tree[i].path, rules)
  {
    var key := FileKeys(tree, rules)[i];
    var j := Locate(tree, rules, key);
    assert Canons(Paths(tree), rules)[j] == rules.canon(key);
    assert rules.canon(tree[j].path) == rules.canon(key);
    assert NamesFoldAlike(rules);
    FoldIdempotent(tree[i].path, rules.letter);
    assert FileKeys(tree, rules)[j] == key;
  }

  lemma NameLeadsBack(tree: Tree, rules: Rules, entries: seq<Entry>, i: nat)
    requires PlatformLaws(rules) && PayloadAccepted(tree, rules, entries) && MANIFEST in Paths(tree) && i < |tree|
    ensures LeadsBack(tree[i].path, rules)
  {
    var keys, files := KeysOf(entries, rules), FileKeys(tree, rules);
    assert files[i] in KeySet(files);
    if files[i] in keys {
      var j :| 0 <= j < |keys| && keys[j] == files[i];
      assert Matches(entries[j], Opens(tree, rules, keys)[j]);
      OpenedLeadsBack(tree, rules, i);
    } else {
      ManifestLeadsBack(tree, rules, i);
    }
  }

  /** The verifier opens folded names, so only names that lead back pass. */
  lemma AcceptedNamesLeadBack(tree: Tree, rules: Rules, m: Manifest, c: Content)
    requires PlatformLaws(rules) && CoreAccepts(tree, rules, m, c)
    ensures forall i :: 0 <= i < |tree| ==> LeadsBack(tree[i].path, rules)
  {
    forall i | 0 <= i < |tree| ensures LeadsBack(tree[i].path, rules) {
      NameLeadsBack(tree, rules, m.entries, i);
    }
  }

  lemma ManifestLeadsBack(tree: Tree, rules: Rules, i: nat)
    requires LetterLaws(rules.letter) && i < |tree| && Distinct(FileKeys(tree, rules))
    requires FileKeys(tree, rules)[i] == MANIFEST && MANIFEST in Paths(tree)
    ensures LeadsBack(tree[i].path, rules)
  {
    var at := Find(Paths(tree), MANIFEST);
    ManifestIsPlain(rules);
    assert FileKeys(tree, rules)[at] == MANIFEST;
  }

  /** Acceptance means an exact inventory: folding is a bijection between the actual files
      and the declared artifacts plus the manifest, the declared FPTs are the companions of
      the memo tables, the artifact count is the number of tables plus the number of memo
      tables, and every name leads back from its fold; on a case-sensitive file system that
      means every name is already folded. */
  lemma AcceptanceIsExact(tree: Tree, rules: Rules, m: Manifest, c: Content)
    requires PlatformLaws(rules) && CoreAccepts(tree, rules, m, c)
    ensures var keys := KeysOf(m.entries, rules);
            var memo := MemoKeys(m.entries, keys, Opens(tree, rules, keys));
            && Distinct(FileKeys(tree, rules)) && Distinct(keys) && MANIFEST !in keys
            && KeySet(FileKeys(tree, rules)) == KeySet(keys) + {MANIFEST}
            && |tree| == |m.entries| + 1
            && KeysOfKind(m.entries, keys, Fpt) == Companions(memo)
            && |m.entries| == |KeysOfKind(m.entries, keys, Dbf)| + |memo|
    ensures forall i :: 0 <= i < |tree| ==> LeadsBack(tree[i].path, rules)
    ensures (forall p: string :: rules.canon(p) == p) ==> FileKeys(tree, rules) == Paths(tree)
  {
    var keys := KeysOf(m.entries, rules);
    var companions, opens := CompanionKeys(keys, rules), Opens(tree, rules, keys);
    AcceptedIsShaped(m.entries, rules, keys, companions);
    FptsAreCompanions(m.entries, keys, companions, opens);
    MemoKeysAreTables(m.entries, keys, companions, opens);
    KindsPartition(m.entries, keys, companions);
    InventoryCount(FileKeys(tree, rules), keys, m.entries, companions);
    AcceptedNamesLeadBack(tree, rules, m, c);
  }
}
