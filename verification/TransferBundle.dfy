/** The standalone bundle verifier (transfer_bundle.py, _validate_manifest_contract,
    _casefold_inventory, _verify_bundle_core) and the exactness of its acceptance. */
module TransferBundle {
  import opened Wrappers
  import opened Collections
  import opened BundlePaths
  import opened KeyIndex

  datatype TransferError =
    | ManifestMissing | ManifestTooLarge | ManifestUnreadable | HeaderInvalid | EntryInvalid
    | PathCollision | PathInvalid | ForbiddenArtifact | CaseCollision | InventoryMismatch
    | FileUnreadable | HashMismatch | RecordCountMismatch | SchemaMismatch
    | CompanionMissing | UnexpectedFpt | AssuranceInvalid

  type Checked<T> = Result<T, TransferError>

  datatype Kind = Dbf | Fpt | OtherKind

  datatype Entry = Entry(keys: set<string>, path: string, kind: Kind, size: int, sha256: string,
                         recordCount: Option<int>, schemaFingerprint: Option<string>)

  datatype Header = Header(schemaVersion: string, packageVersion: string, bridgeVersion: string,
                           profile: string, classification: string, datasetId: string,
                           indexState: string, dataState: string, verificationStatus: string)

  datatype Level = GlobalExactValue | DeclaredVerified | MetadataVerified | Incomplete

  datatype Assurance = Assurance(
    keys: set<string>, level: Level, declared: int, verified: int, failed: int, incomplete: int,
    evidenceFingerprint: Option<string>, relationshipFingerprint: string,
    evidenceVersion: string, scopeNote: string)

  datatype Manifest = Manifest(keys: set<string>, header: Header, entries: seq<Entry>, assurance: Assurance)

  /** What the reader finds in a DBF: header count, streamed records, schema, memo fields. */
  datatype TableFacts = TableFacts(headerCount: nat, streamed: nat, schemaFingerprint: string, memo: bool)

  /** A file by what the verifier can learn from its bytes. */
  datatype Content = Content(size: nat, sha256: string, table: Option<TableFacts>, manifest: Option<Manifest>)

  datatype File = File(path: string, content: Content)

  /** A walked tree: every relative path once. */
  type Tree = seq<File>

  /** The canonical relative path, or nothing for a path that is not portable. */
  type Normalizer = string -> Option<string>

  /** The closed vocabulary of the manifest schema. */
  datatype Vocabulary = Vocabulary(
    top: set<string>, artifact: set<string>, assurance: set<string>,
    relationToken: string -> bool, evidenceVersion: string, scopeNote: string)

  /** What the verifier takes from the platform and the schema: the folding of characters,
      the name a file system files a path under, lower-casing, the normal form of a path, the
      denylist and the vocabulary. */
  datatype Rules = Rules(letter: Letter, canon: string -> string, lower: string -> string,
                         normalize: Normalizer, deny: Denylist, vocabulary: Vocabulary)

  function Key(path: string, rules: Rules): string {
    Fold(path, rules.letter)
  }

  predicate Barred(path: string, rules: Rules) {
    Forbidden(rules.lower(path), rules.deny)
  }

  const MANIFEST := "transfer-manifest.json"
  const MAX_MANIFEST_BYTES := 1_000_000
  const MAX_MANIFEST_ARTIFACTS := 4096
  const MAX_TOKEN_LENGTH := 128

  // ---- manifest contract ----

  /** `_bounded_manifest_token`: short, printable, no blanks, no absolute or upward path. */
  predicate Token(s: string) {
    && |s| <= MAX_TOKEN_LENGTH
    && (forall i :: 0 <= i < |s| ==> '!' <= s[i] <= '~' && s[i] != '\\')
    && (s != "" ==> s[0] != '/')
    && (forall i :: 0 <= i < |s| ==> !UpwardPart(s, i))
  }

  /** The part at `i` is exactly two dots. */
  predicate UpwardPart(s: string, i: nat) {
    && i + 2 <= |s| && s[i] == '.' && s[i + 1] == '.'
    && (i == 0 || s[i - 1] == '/') && (i + 2 == |s| || s[i + 2] == '/')
  }

  predicate HeaderAccepted(h: Header) {
    && Token(h.packageVersion) && Token(h.bridgeVersion) && Token(h.datasetId)
    && h.schemaVersion == "1.1" && h.profile == "DATA_ONLY" && h.classification == "PSEUDONYMIZED"
    && h.indexState == "DATA_ONLY_INDEX_OMITTED" && h.dataState == "STANDALONE_REDUCED_SEMANTICS"
    && h.verificationStatus == "CREATION_SELF_VERIFIED"
    && "ds-" <= h.datasetId && |h.datasetId| == 3 + 16
  }

  predicate TopAccepted(m: Manifest, rules: Rules) {
    m.keys == rules.vocabulary.top && HeaderAccepted(m.header)
  }

  predicate HexDigest(s: string) {
    |s| == 64 && forall i :: 0 <= i < |s| ==> '0' <= s[i] <= '9' || 'a' <= s[i] <= 'f'
  }

  /** `_manifest_assurance`: the closed keys and tokens, every declared relation in exactly
      one category, and a level that fits the counts. */
  predicate AssuranceAccepted(a: Assurance, v: Vocabulary) {
    && a.keys == v.assurance
    && a.declared >= 0 && a.verified >= 0 && a.failed >= 0 && a.incomplete >= 0
    && a.verified + a.failed + a.incomplete == a.declared
    && (a.evidenceFingerprint.Some? ==> HexDigest(a.evidenceFingerprint.value))
    && v.relationToken(a.relationshipFingerprint)
    && a.evidenceVersion == v.evidenceVersion && a.scopeNote == v.scopeNote
    && match a.level
       case GlobalExactValue => a.declared == 0
       case Incomplete => a.declared != 0 && (a.failed != 0 || a.incomplete != 0)
       case _ => a.declared > 0 && a.verified == a.declared
  }

  predicate EntryValues(e: Entry) {
    && e.size >= 0 && e.sha256 != "" && |e.sha256| <= MAX_TOKEN_LENGTH
    && match e.kind
       case Dbf => e.recordCount.Some? && e.recordCount.value >= 0 &&
                   e.schemaFingerprint.Some? && e.schemaFingerprint.value != ""
       case Fpt => e.recordCount.None? && e.schemaFingerprint.None?
       case OtherKind => false
  }

  /** The artifact type and the extension determine each other. */
  predicate TypeBound(kind: Kind, key: string) {
    (kind == Dbf <==> EndsWith(key, DBF)) && (kind == Fpt <==> EndsWith(key, FPT))
  }

  predicate EntryAccepted(e: Entry, rules: Rules) {
    match rules.normalize(e.path)
    case None => false
    case Some(path) =>
      EntryValues(e) && e.keys == rules.vocabulary.artifact && path != MANIFEST &&
      !Barred(path, rules) && TypeBound(e.kind, Key(path, rules))
  }

  /** The casefolded normalized path. */
  function KeyOf(e: Entry, rules: Rules): string {
    match rules.normalize(e.path)
    case Some(path) => Key(path, rules)
    case None => ""
  }

  function KeysOf(entries: seq<Entry>, rules: Rules): (keys: seq<string>)
    ensures |keys| == |entries| && forall i :: 0 <= i < |keys| ==> keys[i] == KeyOf(entries[i], rules)
  {
    seq(|entries|, i requires 0 <= i < |entries| => KeyOf(entries[i], rules))
  }

  ghost predicate EntriesAccepted(entries: seq<Entry>, rules: Rules) {
    && 0 < |entries| <= MAX_MANIFEST_ARTIFACTS
    && (forall i :: 0 <= i < |entries| ==> EntryAccepted(entries[i], rules))
    && Distinct(KeysOf(entries, rules))
  }

  /** `_validate_manifest_contract` */
  method ValidateManifest(m: Manifest, rules: Rules) returns (r: Checked<map<string, Entry>>)
    ensures r.Ok? <==> TopAccepted(m, rules) && EntriesAccepted(m.entries, rules)
    ensures r.Ok? ==> Indexes(r.value, KeysOf(m.entries, rules), m.entries)
  {
    if !TopAccepted(m, rules) {
      return Err(HeaderInvalid);
    }
    if |m.entries| == 0 || |m.entries| > MAX_MANIFEST_ARTIFACTS {
      return Err(ManifestUnreadable);
    }
    r := ValidateEntries(m.entries, KeysOf(m.entries, rules), e => EntryAccepted(e, rules));
  }

  /** Fills the dictionary of declared artifacts: every entry meets the rule, no key repeats. */
  method ValidateEntries(entries: seq<Entry>, keys: seq<string>, rule: Entry -> bool)
    returns (r: Checked<map<string, Entry>>)
    requires |keys| == |entries|
    ensures r.Ok? <==> (forall i :: 0 <= i < |entries| ==> rule(entries[i])) && Distinct(keys)
    ensures r.Ok? ==> Indexes(r.value, keys, entries)
  {
    var declared: map<string, Entry> := map[];
    for i := 0 to |entries|
      invariant forall k :: 0 <= k < i ==> rule(entries[k])
      invariant Distinct(keys[..i])
      invariant Indexes(declared, keys[..i], entries[..i])
    {
      if !rule(entries[i]) {
        return Err(EntryInvalid);
      }
      if keys[i] in declared {
        CollidesAt(keys, i);
        return Err(PathCollision);
      }
      Extend(declared, keys[..i], entries[..i], keys[i], entries[i]);
      assert keys[..i + 1] == keys[..i] + [keys[i]] && entries[..i + 1] == entries[..i] + [entries[i]];
      declared := declared[keys[i] := entries[i]];
    }
    assert keys[..|entries|] == keys && entries[..|entries|] == entries;
    r := Ok(declared);
  }

  // ---- inventory ----

  function Paths(tree: Tree): (paths: seq<string>)
    ensures |paths| == |tree| && forall i :: 0 <= i < |tree| ==> paths[i] == tree[i].path
  {
    seq(|tree|, i requires 0 <= i < |tree| => tree[i].path)
  }

  function Folded(paths: seq<string>, rules: Rules): (keys: seq<string>)
    ensures |keys| == |paths| && forall i :: 0 <= i < |paths| ==> keys[i] == Key(paths[i], rules)
  {
    seq(|paths|, i requires 0 <= i < |paths| => Key(paths[i], rules))
  }

  function FileKeys(tree: Tree, rules: Rules): (keys: seq<string>)
    ensures |keys| == |tree| && forall i :: 0 <= i < |tree| ==> keys[i] == Key(tree[i].path, rules)
  {
    Folded(Paths(tree), rules)
  }

  /** `_casefold_inventory`: any two files that differ only by case are refused. */
  method CasefoldInventory(paths: seq<string>, rules: Rules) returns (r: Checked<map<string, string>>)
    ensures r.Ok? <==> Distinct(Folded(paths, rules))
    ensures r.Ok? ==> Indexes(r.value, Folded(paths, rules), paths)
  {
    var listed: map<string, string> := map[];
    ghost var keys := Folded(paths, rules);
    for i := 0 to |paths|
      invariant Distinct(keys[..i])
      invariant Indexes(listed, keys[..i], paths[..i])
    {
      var key := Key(paths[i], rules);
      if key in listed {
        CollidesAt(keys, i);
        return Err(CaseCollision);
      }
      Extend(listed, keys[..i], paths[..i], key, paths[i]);
      assert keys[..i + 1] == keys[..i] + [key] && paths[..i + 1] == paths[..i] + [paths[i]];
      listed := listed[key := paths[i]];
    }
    assert keys[..|paths|] == keys && paths[..|paths|] == paths;
    r := Ok(listed);
  }

  // ---- opening files ----

  /** The names as the file system distinguishes them. */
  function Canons(paths: seq<string>, rules: Rules): (names: seq<string>)
    ensures |names| == |paths| && forall i :: 0 <= i < |paths| ==> names[i] == rules.canon(paths[i])
  {
    seq(|paths|, i requires 0 <= i < |paths| => rules.canon(paths[i]))
  }

  /** Where a path leads: to the name the file system takes for the same. */
  function Locate(tree: Tree, rules: Rules, path: string): (i: nat)
    ensures i <= |tree|
  {
    Find(Canons(Paths(tree), rules), rules.canon(path))
  }

  function Open(tree: Tree, rules: Rules, path: string): Option<Content> {
    var i := Locate(tree, rules, path);
    if i < |tree| then Some(tree[i].content) else None
  }

  function CompanionKey(key: string, rules: Rules): string {
    Key(Companion(key), rules)
  }

  predicate IsMemoTable(content: Option<Content>) {
    content.Some? && content.value.table.Some? && content.value.table.value.memo
  }

  /** One declared artifact against the file its key leads to: bytes, counts, schema. */
  predicate Matches(e: Entry, content: Option<Content>) {
    match content
    case None => false
    case Some(c) =>
      && c.size == e.size && c.sha256 == e.sha256
      && (e.kind == Dbf ==>
            && c.table.Some?
            && e.recordCount == Some(c.table.value.headerCount)
            && e.recordCount == Some(c.table.value.streamed)
            && e.schemaFingerprint == Some(c.table.value.schemaFingerprint))
  }

  function CheckBytes(e: Entry, content: Option<Content>): (r: Checked<()>)
    ensures r.Ok? <==> Matches(e, content)
  {
    match content
    case None => Err(FileUnreadable)
    case Some(c) =>
      if c.size != e.size || c.sha256 != e.sha256 then Err(HashMismatch)
      else if e.kind != Dbf then Ok(())
      else match c.table
        case None => Err(FileUnreadable)
        case Some(t) =>
          if e.recordCount != Some(t.headerCount) then Err(RecordCountMismatch)
          else if e.schemaFingerprint != Some(t.schemaFingerprint) then Err(SchemaMismatch)
          else if e.recordCount != Some(t.streamed) then Err(RecordCountMismatch)
          else Ok(())
  }

  // ---- the core ----

  datatype Accepted = Accepted(fingerprint: string, artifactCount: nat)

  /** The table at position `i` carries memo fields. */
  predicate MemoAt(entries: seq<Entry>, opens: seq<Option<Content>>, i: nat)
    requires i < |entries| == |opens|
  {
    entries[i].kind == Dbf && IsMemoTable(opens[i])
  }

  /** What each declared key leads to. */
  function Opens(tree: Tree, rules: Rules, keys: seq<string>): (opens: seq<Option<Content>>)
    ensures |opens| == |keys| && forall i :: 0 <= i < |keys| ==> opens[i] == Open(tree, rules, keys[i])
  {
    seq(|keys|, i requires 0 <= i < |keys| => Open(tree, rules, keys[i]))
  }

  function CompanionKeys(keys: seq<string>, rules: Rules): (companions: seq<string>)
    ensures |companions| == |keys| && forall i :: 0 <= i < |keys| ==> companions[i] == CompanionKey(keys[i], rules)
  {
    seq(|keys|, i requires 0 <= i < |keys| => CompanionKey(keys[i], rules))
  }

  /** Every artifact matches its file and every memo table has its companion declared. */
  ghost predicate PayloadMatches(entries: seq<Entry>, keys: seq<string>, companions: seq<string>,
                                 opens: seq<Option<Content>>)
    requires |entries| == |keys| == |companions| == |opens|
  {
    forall i :: 0 <= i < |entries| ==>
      Matches(entries[i], opens[i]) && (MemoAt(entries, opens, i) ==> companions[i] in keys)
  }

  /** Every declared FPT belongs to a declared memo table. */
  ghost predicate FptsBelong(entries: seq<Entry>, keys: seq<string>, companions: seq<string>,
                             opens: seq<Option<Content>>)
    requires |entries| == |keys| == |companions| == |opens|
  {
    forall i :: 0 <= i < |entries| && entries[i].kind == Fpt ==>
      exists j :: 0 <= j < |entries| && MemoAt(entries, opens, j) && companions[j] == keys[i]
  }

  /** Files, manifest entries and payload agree exactly. */
  ghost predicate PayloadAccepted(tree: Tree, rules: Rules, entries: seq<Entry>) {
    var keys := KeysOf(entries, rules);
    var companions, opens := CompanionKeys(keys, rules), Opens(tree, rules, keys);
    && EntriesAccepted(entries, rules)
    && Distinct(FileKeys(tree, rules))
    && KeySet(FileKeys(tree, rules)) == KeySet(keys) + {MANIFEST}
    && PayloadMatches(entries, keys, companions, opens)
    && FptsBelong(entries, keys, companions, opens)
  }

  ghost predicate NamesAccepted(tree: Tree, rules: Rules) {
    && (forall i :: 0 <= i < |tree| && tree[i].path != MANIFEST ==> !Barred(tree[i].path, rules))
    && (forall i :: 0 <= i < |tree| ==> rules.normalize(tree[i].path).Some?)
  }

  /** The manifest the core parses from the tree. */
  predicate HoldsManifest(tree: Tree, m: Manifest, c: Content) {
    && Find(Paths(tree), MANIFEST) < |tree|
    && c == tree[Find(Paths(tree), MANIFEST)].content
    && c.size <= MAX_MANIFEST_BYTES && c.manifest == Some(m)
  }

  /** Everything the core checks, for the manifest it parsed. */
  ghost predicate CoreAccepts(tree: Tree, rules: Rules, m: Manifest, c: Content) {
    && HoldsManifest(tree, m, c)
    && TopAccepted(m, rules) && AssuranceAccepted(m.assurance, rules.vocabulary)
    && NamesAccepted(tree, rules)
    && PayloadAccepted(tree, rules, m.entries)
  }

  /** The hash, readability, count and companion loop, then the FPT rule. */
  method VerifyPayload(entries: seq<Entry>, keys: seq<string>, companions: seq<string>,
                       opens: seq<Option<Content>>, declared: map<string, Entry>)
    returns (r: Checked<()>)
    requires |entries| == |keys| == |companions| == |opens| && Indexes(declared, keys, entries)
    ensures r.Ok? <==> PayloadMatches(entries, keys, companions, opens) &&
                       FptsBelong(entries, keys, companions, opens)
  {
    IndexKeys(declared, keys, entries);
    var expected: set<string> := {};
    for i := 0 to |entries|
      invariant forall j :: 0 <= j < i ==>
                  Matches(entries[j], opens[j]) && (MemoAt(entries, opens, j) ==> companions[j] in keys)
      invariant forall j :: 0 <= j < i && MemoAt(entries, opens, j) ==> companions[j] in expected
      invariant forall c :: c in expected ==>
                  exists j :: 0 <= j < i && MemoAt(entries, opens, j) && companions[j] == c
    {
      var out := CheckBytes(entries[i], opens[i]);
      if out.Err? {
        return Err(out.error);
      }
      if MemoAt(entries, opens, i) {
        if companions[i] !in declared {
          return Err(CompanionMissing);
        }
        expected := expected + {companions[i]};
      }
    }
    r := CheckFpts(entries, keys, expected);
  }

  /** Every declared FPT is expected. */
  method CheckFpts(entries: seq<Entry>, keys: seq<string>, expected: set<string>) returns (r: Checked<()>)
    requires |entries| == |keys|
    ensures r.Ok? <==> forall j :: 0 <= j < |entries| && entries[j].kind == Fpt ==> keys[j] in expected
  {
    for i := 0 to |entries|
      invariant forall j :: 0 <= j < i && entries[j].kind == Fpt ==> keys[j] in expected
    {
      if entries[i].kind == Fpt && keys[i] !in expected {
        return Err(UnexpectedFpt);
      }
    }
    r := Ok(());
  }

  /** Names that are forbidden or not portable are refused. */
  method VerifyNames(tree: Tree, rules: Rules) returns (r: Checked<()>)
    ensures r.Ok? <==> NamesAccepted(tree, rules)
  {
    for i := 0 to |tree|
      invariant forall k :: 0 <= k < i && tree[k].path != MANIFEST ==> !Barred(tree[k].path, rules)
    {
      if tree[i].path != MANIFEST && Barred(tree[i].path, rules) {
        return Err(ForbiddenArtifact);
      }
    }
    for i := 0 to |tree|
      invariant forall k :: 0 <= k < i ==> rules.normalize(tree[k].path).Some?
    {
      if rules.normalize(tree[i].path).None? {
        return Err(PathInvalid);
      }
    }
    r := Ok(());
  }

  /** `_verify_bundle_core` */
  method VerifyCore(tree: Tree, rules: Rules) returns (r: Checked<Accepted>)
    ensures r.Ok? <==> exists m, c :: CoreAccepts(tree, rules, m, c)
    ensures forall m, c :: r.Ok? && CoreAccepts(tree, rules, m, c) ==> r.value == Accepted(c.sha256, |m.entries|)
  {
    var at := Find(Paths(tree), MANIFEST);
    if at == |tree| {
      return Err(ManifestMissing);
    }
    var names := VerifyNames(tree, rules);
    if names.Err? {
      return Err(names.error);
    }
    var c := tree[at].content;
    if c.size > MAX_MANIFEST_BYTES {
      return Err(ManifestTooLarge);
    }
    if c.manifest.None? {
      return Err(ManifestUnreadable);
    }
    var m := c.manifest.value;
    var payload := VerifyManifest(tree, rules, m);
    if payload.Err? {
      return Err(payload.error);
    }
    if !AssuranceAccepted(m.assurance, rules.vocabulary) {
      return Err(AssuranceInvalid);
    }
    assert CoreAccepts(tree, rules, m, c);
    r := Ok(Accepted(c.sha256, payload.value));
  }

  /** The manifest contract, the exact inventory and the payload. */
  method VerifyManifest(tree: Tree, rules: Rules, m: Manifest) returns (r: Checked<nat>)
    ensures r.Ok? <==> TopAccepted(m, rules) && PayloadAccepted(tree, rules, m.entries)
    ensures r.Ok? ==> r.value == |m.entries|
  {
    var declared := ValidateManifest(m, rules);
    if declared.Err? {
      return Err(declared.error);
    }
    var listed := CasefoldInventory(Paths(tree), rules);
    if listed.Err? {
      return Err(listed.error);
    }
    var keys := KeysOf(m.entries, rules);
    IndexKeys(declared.value, keys, m.entries);
    IndexKeys(listed.value, FileKeys(tree, rules), Paths(tree));
    if listed.value.Keys != declared.value.Keys + {MANIFEST} {
      return Err(InventoryMismatch);
    }
    var payload := VerifyPayload(m.entries, keys, CompanionKeys(keys, rules), Opens(tree, rules, keys), declared.value);
    if payload.Err? {
      return Err(payload.error);
    }
    KeySetCount(keys);
    r := Ok(|declared.value|);
  }
}
