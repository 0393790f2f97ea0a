/** What an accepted bundle proves about its bytes, its names and its manifest
    (transfer_bundle.py, _verify_bundle_core): nothing here is said through the
    verifier's own comparison. */
module BundleIntegrity {
  import opened Wrappers
  import opened Collections
  import opened BundlePaths
  import opened KeyIndex
  import opened TransferBundle
  import opened BundleExactness

  // ---- bytes ----

  /** Opening a declared key reads the one file whose path folds to it. */
  lemma DeclaredOpens(tree: Tree, rules: Rules, m: Manifest, c: Content, k: nat, i: nat)
    requires PlatformLaws(rules) && CoreAccepts(tree, rules, m, c)
    requires k < |m.entries| && i < |tree| && Key(tree[i].path, rules) == KeyOf(m.entries[k], rules)
    ensures Open(tree, rules, KeyOf(m.entries[k], rules)) == Some(tree[i].content)
  {
    var keys := KeysOf(m.entries, rules);
    var key := keys[k];
    AcceptedKeyShape(m.entries[k], rules);
    assert Matches(m.entries[k], Opens(tree, rules, keys)[k]);
    var j := Locate(tree, rules, key);
    assert Canons(Paths(tree), rules)[j] == rules.canon(key);
    assert NamesFoldAlike(rules);
    assert FileKeys(tree, rules)[j] == FileKeys(tree, rules)[i];
  }

  lemma DeclaredExists(tree: Tree, rules: Rules, m: Manifest, c: Content, k: nat) returns (i: nat)
    requires CoreAccepts(tree, rules, m, c) && k < |m.entries|
    ensures i < |tree| && Key(tree[i].path, rules) == KeyOf(m.entries[k], rules)
  {
    var keys, files := KeysOf(m.entries, rules), FileKeys(tree, rules);
    assert keys[k] in KeySet(keys);
    assert keys[k] in KeySet(files);
    i :| 0 <= i < |files| && files[i] == keys[k];
  }

  /** For every declared artifact the tree holds exactly one file whose folded path is the
      artifact's, and it has the declared size and digest; a table is readable and has the
      declared record count in its header and in its stream, and the declared schema. */
  lemma AcceptedBytes(tree: Tree, rules: Rules, m: Manifest, c: Content, k: nat) returns (i: nat)
    requires PlatformLaws(rules) && CoreAccepts(tree, rules, m, c) && k < |m.entries|
    ensures i < |tree| && Key(tree[i].path, rules) == KeyOf(m.entries[k], rules)
    ensures forall j :: 0 <= j < |tree| && Key(tree[j].path, rules) == KeyOf(m.entries[k], rules) ==> j == i
    ensures tree[i].content.size == m.entries[k].size
    ensures tree[i].content.sha256 == m.entries[k].sha256
    ensures EndsWith(Key(tree[i].path, rules), ".dbf") ==>
              && tree[i].content.table.Some?
              && Some(tree[i].content.table.value.headerCount as int) == m.entries[k].recordCount
              && Some(tree[i].content.table.value.streamed as int) == m.entries[k].recordCount
              && Some(tree[i].content.table.value.schemaFingerprint) == m.entries[k].schemaFingerprint
  {
    i := DeclaredExists(tree, rules, m, c, k);
    DeclaredOpens(tree, rules, m, c, k, i);
    AcceptedKeyShape(m.entries[k], rules);
    assert Matches(m.entries[k], Opens(tree, rules, KeysOf(m.entries, rules))[k]);
    forall j | 0 <= j < |tree| && Key(tree[j].path, rules) == KeyOf(m.entries[k], rules) ensures j == i {
      assert FileKeys(tree, rules)[j] == FileKeys(tree, rules)[i];
    }
  }

  /** Every file other than the manifest is declared. */
  lemma FileIsDeclared(tree: Tree, rules: Rules, m: Manifest, c: Content, i: nat) returns (k: nat)
    requires PlatformLaws(rules) && CoreAccepts(tree, rules, m, c)
    requires i < |tree| && tree[i].path != MANIFEST
    ensures k < |m.entries| && Key(tree[i].path, rules) == KeyOf(m.entries[k], rules)
  {
    var keys, files := KeysOf(m.entries, rules), FileKeys(tree, rules);
    ManifestIsPlain(rules);
    var at := Find(Paths(tree), MANIFEST);
    assert files[at] == MANIFEST && at != i;
    assert files[i] in KeySet(files) && files[i] != MANIFEST;
    assert files[i] in KeySet(keys);
    k :| 0 <= k < |keys| && keys[k] == files[i];
  }

  /** Tamper evidence: in trees accepted with the same manifest, files of the same folded
      path have the same size and the same digest. */
  lemma SameManifestSameBytes(x: Tree, y: Tree, rules: Rules, m: Manifest, cx: Content, cy: Content, i: nat, j: nat)
    requires PlatformLaws(rules) && CoreAccepts(x, rules, m, cx) && CoreAccepts(y, rules, m, cy)
    requires i < |x| && j < |y| && Key(x[i].path, rules) == Key(y[j].path, rules) && x[i].path != MANIFEST
    ensures x[i].content.size == y[j].content.size && x[i].content.sha256 == y[j].content.sha256
  {
    var k := FileIsDeclared(x, rules, m, cx, i);
    var here := AcceptedBytes(x, rules, m, cx, k);
    var there := AcceptedBytes(y, rules, m, cy, k);
  }

  /** Trees accepted with the same manifest hold files of the same folded paths. */
  lemma SameManifestSameFiles(x: Tree, y: Tree, rules: Rules, m: Manifest, cx: Content, cy: Content)
    requires PlatformLaws(rules) && CoreAccepts(x, rules, m, cx) && CoreAccepts(y, rules, m, cy)
    ensures |x| == |y|
    ensures forall key :: key in FileKeys(x, rules) <==> key in FileKeys(y, rules)
  {
    AcceptanceIsExact(x, rules, m, cx);
    AcceptanceIsExact(y, rules, m, cy);
    assert forall key :: key in FileKeys(x, rules) <==> key in KeySet(FileKeys(x, rules));
    assert forall key :: key in FileKeys(y, rules) <==> key in KeySet(FileKeys(y, rules));
  }

  lemma ForgedIsTheSame(tree: Tree, rules: Rules, m: Manifest, c: Content, i: nat, forged: Content,
                        tampered: Tree, n: Manifest, d: Content)
    requires PlatformLaws(rules) && CoreAccepts(tree, rules, m, c) && CoreAccepts(tampered, rules, n, d)
    requires i < |tree| && tree[i].path != MANIFEST && tampered == tree[i := File(tree[i].path, forged)]
    ensures forged.size == tree[i].content.size && forged.sha256 == tree[i].content.sha256
  {
    SameManifest(tree, tampered, m, c, n, d, i);
    SameManifestSameBytes(tree, tampered, rules, m, c, d, i, i);
  }

  lemma SameManifest(tree: Tree, tampered: Tree, m: Manifest, c: Content, n: Manifest, d: Content, i: nat)
    requires HoldsManifest(tree, m, c) && HoldsManifest(tampered, n, d)
    requires i < |tree| && tree[i].path != MANIFEST
    requires exists forged :: tampered == tree[i := File(tree[i].path, forged)]
    ensures m == n
  {
    assert Paths(tampered) == Paths(tree);
  }

  /** Replacing any file of an accepted tree but the manifest by content of another size or
      another digest makes the verifier refuse the tree. */
  lemma TamperingIsRefused(tree: Tree, rules: Rules, m: Manifest, c: Content, i: nat, forged: Content)
    requires PlatformLaws(rules) && CoreAccepts(tree, rules, m, c)
    requires i < |tree| && tree[i].path != MANIFEST
    requires forged.size != tree[i].content.size || forged.sha256 != tree[i].content.sha256
    ensures var tampered := tree[i := File(tree[i].path, forged)];
            !exists n, d :: CoreAccepts(tampered, rules, n, d)
  {
    var tampered := tree[i := File(tree[i].path, forged)];
    if n, d :| CoreAccepts(tampered, rules, n, d) {
      ForgedIsTheSame(tree, rules, m, c, i, forged, tampered, n, d);
    }
  }

  /** Dropping a file, or adding one, makes the verifier refuse the tree. */
  lemma OtherSizeIsRefused(x: Tree, y: Tree, rules: Rules, m: Manifest, cx: Content)
    requires PlatformLaws(rules) && CoreAccepts(x, rules, m, cx) && |x| != |y|
    requires Find(Paths(y), MANIFEST) < |y| && y[Find(Paths(y), MANIFEST)].content.manifest == Some(m)
    ensures !exists n, d :: CoreAccepts(y, rules, n, d)
  {
    AcceptanceIsExact(x, rules, m, cx);
    if n, d :| CoreAccepts(y, rules, n, d) {
      AcceptanceIsExact(y, rules, n, d);
    }
  }

  // ---- names ----

  /** Some text followed by the suffix. */
  ghost predicate HasEnding(s: string, suffix: string) {
    exists stem :: stem + suffix == s
  }

  /** Some text, the part, and some text. */
  ghost predicate HasPart(s: string, part: string) {
    exists before, after :: before + part + after == s
  }

  lemma EndsWithIff(s: string, suffix: string)
    ensures EndsWith(s, suffix) <==> HasEnding(s, suffix)
  {
    if EndsWith(s, suffix) {
      assert s[..|s| - |suffix|] + suffix == s;
    }
    if HasEnding(s, suffix) {
      var stem :| stem + suffix == s;
      assert s[|s| - |suffix|..] == suffix;
    }
  }

  lemma ContainsIff(s: string, part: string)
    ensures Contains(s, part) <==> HasPart(s, part)
  {
    if Contains(s, part) {
      var before, after := ContainedIsPart(s, part);
    }
    if HasPart(s, part) {
      var before, after :| before + part + after == s;
      PartIsContained(before, part, after);
    }
  }

  lemma {:induction false} PartIsContained(before: string, part: string, after: string)
    ensures Contains(before + part + after, part)
  {
    var s := before + part + after;
    if before == "" {
      assert s[..|part|] == part;
    } else {
      PartIsContained(before[1..], part, after);
      assert s[1..] == before[1..] + part + after;
    }
  }

  lemma {:induction false} ContainedIsPart(s: string, part: string) returns (before: string, after: string)
    requires Contains(s, part)
    ensures s == before + part + after
  {
    if part <= s {
      before, after := "", s[|part|..];
    } else {
      before, after := ContainedIsPart(s[1..], part);
      before := [s[0]] + before;
    }
  }

  lemma NameOfParts(folder: string, name: string)
    requires folder == "" || folder[|folder| - 1] == '/'
    requires '/' !in name
    ensures Name(folder + name) == name
  {
    NameStartIs(folder + name, |folder|);
  }

  /** A path below any folder is denied exactly if it ends in a denied suffix, or if its last
      component contains a denied marker, starts with a dot or starts with "~$". */
  lemma DeniedIff(folder: string, name: string, deny: Denylist)
    requires folder == "" || folder[|folder| - 1] == '/'
    requires '/' !in name
    ensures Forbidden(folder + name, deny) <==>
              || (exists k :: 0 <= k < |deny.suffixes| && HasEnding(folder + name, deny.suffixes[k]))
              || (exists k :: 0 <= k < |deny.markers| && HasPart(name, deny.markers[k]))
              || "." <= name || "~$" <= name
  {
    NameOfParts(folder, name);
    forall k | 0 <= k < |deny.suffixes|
      ensures EndsWith(folder + name, deny.suffixes[k]) <==> HasEnding(folder + name, deny.suffixes[k])
    {
      EndsWithIff(folder + name, deny.suffixes[k]);
    }
    forall k | 0 <= k < |deny.markers|
      ensures Contains(name, deny.markers[k]) <==> HasPart(name, deny.markers[k])
    {
      ContainsIff(name, deny.markers[k]);
    }
  }

  lemma EndingBelow(folder: string, name: string, suffix: string)
    requires HasEnding(name, suffix)
    ensures HasEnding(folder + name, suffix)
  {
    var stem :| stem + suffix == name;
    assert (folder + stem) + suffix == folder + name;
  }

  /** An accepted bundle has no denied file in any folder. */
  lemma NothingDeniedInBundle(tree: Tree, rules: Rules, m: Manifest, c: Content, i: nat, folder: string, name: string)
    requires CoreAccepts(tree, rules, m, c)
    requires i < |tree| && rules.lower(tree[i].path) == folder + name && tree[i].path != MANIFEST
    requires folder == "" || folder[|folder| - 1] == '/'
    requires '/' !in name
    ensures forall k :: 0 <= k < |rules.deny.suffixes| ==> !HasEnding(name, rules.deny.suffixes[k])
    ensures forall k :: 0 <= k < |rules.deny.markers| ==> !HasPart(name, rules.deny.markers[k])
    ensures !("." <= name) && !("~$" <= name)
  {
    assert !Barred(tree[i].path, rules);
    DeniedIff(folder, name, rules.deny);
    forall k | 0 <= k < |rules.deny.suffixes| ensures !HasEnding(name, rules.deny.suffixes[k]) {
      if HasEnding(name, rules.deny.suffixes[k]) {
        EndingBelow(folder, name, rules.deny.suffixes[k]);
      }
    }
  }

  /** The vault and its write-ahead log are denied in every folder. */
  lemma VaultIsDenied(stem: string)
    ensures Forbidden(stem + ".sqlite", DATA_ONLY_DENYLIST)
  {
    SuffixIsDenied(stem, DATA_ONLY_DENYLIST, 0);
  }

  lemma VaultLogIsDenied(stem: string)
    ensures Forbidden(stem + "-wal", DATA_ONLY_DENYLIST)
  {
    SuffixIsDenied(stem, DATA_ONLY_DENYLIST, 4);
  }

  lemma SuffixIsDenied(stem: string, deny: Denylist, k: nat)
    requires k < |deny.suffixes|
    ensures Forbidden(stem + deny.suffixes[k], deny)
  {
    assert HasEnding(stem + deny.suffixes[k], deny.suffixes[k]);
    EndsWithIff(stem + deny.suffixes[k], deny.suffixes[k]);
  }

  // ---- the manifest ----

  /** Read as a path, some component of the text is two dots. */
  ghost predicate ClimbsIn(s: string) {
    || s == ".." || "../" <= s
    || (exists before: string :: before + "/.." == s)
    || (exists before: string, after :: before + "/../" + after == s)
  }

  lemma ClimbIsUpward(s: string)
    requires ClimbsIn(s)
    ensures exists i: nat :: UpwardPart(s, i)
  {
    if s == ".." || "../" <= s {
      assert UpwardPart(s, 0);
    } else if before: string :| before + "/.." == s {
      assert s[|before|] == '/' && s[|before| + 1] == '.' && s[|before| + 2] == '.';
      assert UpwardPart(s, |before| + 1);
    } else {
      var before: string, after :| before + "/../" + after == s;
      assert s[|before|] == '/' && s[|before| + 1] == '.' && s[|before| + 2] == '.' && s[|before| + 3] == '/';
      assert UpwardPart(s, |before| + 1);
    }
  }

  lemma UpwardIsClimb(s: string, i: nat)
    requires UpwardPart(s, i)
    ensures ClimbsIn(s)
  {
    if i == 0 {
      assert s[..2] == "..";
      assert |s| == 2 || s[..3] == "../";
    } else {
      assert s == s[..i - 1] + s[i - 1..];
      if i + 2 == |s| {
        assert s[i - 1..] == "/..";
        assert s[..i - 1] + "/.." == s;
      } else {
        assert s[i - 1..i + 3] == "/../";
        assert s[..i - 1] + "/../" + s[i + 3..] == s;
      }
    }
  }

  /** A bounded printable text without blanks or backslashes that names no place outside. */
  ghost predicate Harmless(s: string) {
    && |s| <= 128 && !("/" <= s) && !ClimbsIn(s)
    && forall i :: 0 <= i < |s| ==> 33 <= s[i] as int <= 126 && s[i] != '\\'
  }

  lemma TokenIffHarmless(s: string)
    ensures Token(s) <==> Harmless(s)
  {
    if ClimbsIn(s) {
      ClimbIsUpward(s);
    } else {
      forall i: nat | i < |s| ensures !UpwardPart(s, i) {
        if UpwardPart(s, i) {
          UpwardIsClimb(s, i);
        }
      }
    }
  }

  /** An accepted manifest declares pseudonymized data only, at most 4096 artifacts in at
      most a million bytes, and its free texts are harmless. */
  lemma AcceptedHeaderStates(tree: Tree, rules: Rules, m: Manifest, c: Content)
    requires CoreAccepts(tree, rules, m, c)
    ensures m.header.schemaVersion == "1.1"
    ensures m.header.profile == "DATA_ONLY" && m.header.classification == "PSEUDONYMIZED"
    ensures m.header.indexState == "DATA_ONLY_INDEX_OMITTED"
    ensures m.header.dataState == "STANDALONE_REDUCED_SEMANTICS"
    ensures m.header.verificationStatus == "CREATION_SELF_VERIFIED"
    ensures "ds-" <= m.header.datasetId && |m.header.datasetId| == 19
    ensures Harmless(m.header.packageVersion) && Harmless(m.header.bridgeVersion) && Harmless(m.header.datasetId)
    ensures 1 <= |m.entries| <= 4096 && c.size <= 1_000_000
  {
    HeaderStates(m.header);
  }

  lemma HeaderStates(h: Header)
    requires HeaderAccepted(h)
    ensures Harmless(h.packageVersion) && Harmless(h.bridgeVersion) && Harmless(h.datasetId)
  {
    TokenIffHarmless(h.packageVersion);
    TokenIffHarmless(h.bridgeVersion);
    TokenIffHarmless(h.datasetId);
  }

  /** Accepted assurance counts every relation exactly once, and its level follows from the
      counts: no relation at all, some relation failed or incomplete, or all verified. */
  lemma AcceptedAssuranceStates(a: Assurance, v: Vocabulary)
    requires AssuranceAccepted(a, v)
    ensures 0 <= a.verified && 0 <= a.failed && 0 <= a.incomplete
    ensures a.declared == a.verified + a.failed + a.incomplete
    ensures a.level == GlobalExactValue <==> a.declared == 0
    ensures a.level == Incomplete <==> a.failed > 0 || a.incomplete > 0
    ensures a.level == DeclaredVerified || a.level == MetadataVerified <==> 0 < a.declared == a.verified
    ensures a.evidenceFingerprint.Some? ==>
              && |a.evidenceFingerprint.value| == 64
              && forall c :: c in a.evidenceFingerprint.value ==> c in "0123456789abcdef"
    ensures v.relationToken(a.relationshipFingerprint)
    ensures a.keys == v.assurance && a.evidenceVersion == v.evidenceVersion && a.scopeNote == v.scopeNote
  {
  }

  /** An accepted entry: a portable path that is neither the manifest nor denied, of the kind
      its extension says; a table with a count and a schema, a memo file with neither. */
  lemma AcceptedEntryStates(e: Entry, rules: Rules)
    requires EntryAccepted(e, rules)
    ensures rules.normalize(e.path).Some? && rules.normalize(e.path).value != "transfer-manifest.json"
    ensures !Forbidden(rules.lower(rules.normalize(e.path).value), rules.deny)
    ensures e.kind == Dbf <==> HasEnding(KeyOf(e, rules), ".dbf")
    ensures e.kind == Fpt <==> HasEnding(KeyOf(e, rules), ".fpt")
    ensures e.kind != OtherKind && e.size >= 0 && 1 <= |e.sha256| <= 128 && e.keys == rules.vocabulary.artifact
    ensures e.kind == Dbf ==>
              && e.recordCount.Some? && e.recordCount.value >= 0
              && e.schemaFingerprint.Some? && e.schemaFingerprint.value != ""
    ensures e.kind == Fpt ==> e.recordCount.None? && e.schemaFingerprint.None?
  {
    EndsWithIff(KeyOf(e, rules), ".dbf");
    EndsWithIff(KeyOf(e, rules), ".fpt");
  }
}
