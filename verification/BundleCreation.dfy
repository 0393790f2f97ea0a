/** Building a transfer bundle (transfer_bundle.py, create_transfer_bundle): the allowlist,
    the copied tree and its manifest, and when the staged tree passes the verifier. */
module BundleCreation {
  import opened Wrappers
  import opened Collections
  import opened BundlePaths
  import opened KeyIndex
  import opened TransferBundle
  import opened BundleExactness

  /** An allowlisted artifact of the working dataset. */
  datatype Item = Item(path: string, kind: Kind)

  /** Writes a manifest: its bytes' size and digest, and that they parse back. */
  type Sealer = Manifest -> Content

  // ---- the allowlist ----

  /** A table, and its companion when it has memo fields. */
  function TableItems(path: string, facts: TableFacts): seq<Item> {
    if facts.memo then [Item(path, Dbf), Item(Companion(path), Fpt)] else [Item(path, Dbf)]
  }

  function TableAt(working: Tree, rules: Rules, path: string): Option<TableFacts> {
    match Open(working, rules, path)
    case Some(c) => c.table
    case None => None
  }

  /** The expected payload of tables with these facts. */
  function Payload(tables: seq<string>, facts: seq<TableFacts>): seq<Item>
    requires |tables| == |facts|
  {
    if tables == [] then []
    else
      var n := |tables| - 1;
      Payload(tables[..n], facts[..n]) + TableItems(tables[n], facts[n])
  }

  /** What the reader finds at each table path. */
  function ReadTables(working: Tree, rules: Rules, tables: seq<string>): (tried: seq<Option<TableFacts>>)
    ensures |tried| == |tables| && forall i :: 0 <= i < |tables| ==> tried[i] == TableAt(working, rules, tables[i])
  {
    seq(|tables|, i requires 0 <= i < |tables| => TableAt(working, rules, tables[i]))
  }

  ghost predicate AllRead(tried: seq<Option<TableFacts>>, facts: seq<TableFacts>) {
    |facts| == |tried| && forall i :: 0 <= i < |tried| ==> tried[i] == Some(facts[i])
  }

  ghost predicate Facts(working: Tree, rules: Rules, tables: seq<string>, facts: seq<TableFacts>) {
    |facts| == |tables| && AllRead(ReadTables(working, rules, tables), facts)
  }

  lemma AllReadDetermined(tried: seq<Option<TableFacts>>, f1: seq<TableFacts>, f2: seq<TableFacts>)
    requires AllRead(tried, f1) && AllRead(tried, f2)
    ensures f1 == f2
  {
  }

  /** Step 3, first loop. */
  method ExpectedPayload(tables: seq<string>, tried: seq<Option<TableFacts>>)
    returns (r: Checked<seq<Item>>, ghost facts: seq<TableFacts>)
    requires |tables| == |tried|
    ensures r.Ok? <==> forall i :: 0 <= i < |tried| ==> tried[i].Some?
    ensures r.Ok? ==> AllRead(tried, facts) && r.value == Payload(tables, facts)
  {
    var items: seq<Item> := [];
    facts := [];
    for i := 0 to |tables|
      invariant AllRead(tried[..i], facts)
      invariant items == Payload(tables[..i], facts)
    {
      if tried[i].None? {
        return Err(FileUnreadable), [];
      }
      items := items + TableItems(tables[i], tried[i].value);
      assert tables[..i + 1][..i] == tables[..i] && (facts + [tried[i].value])[..i] == facts;
      facts := facts + [tried[i].value];
    }
    assert tables[..|tables|] == tables && tried[..|tables|] == tried;
    r := Ok(items);
  }

  predicate ItemAllowed(item: Item, rules: Rules) {
    match rules.normalize(item.path)
    case Some(path) => !Barred(path, rules)
    case None => false
  }

  function NormalPath(item: Item, rules: Rules): string {
    match rules.normalize(item.path)
    case Some(path) => path
    case None => ""
  }

  function NormalPaths(items: seq<Item>, rules: Rules): (paths: seq<string>)
    ensures |paths| == |items| && forall i :: 0 <= i < |items| ==> paths[i] == NormalPath(items[i], rules)
  {
    seq(|items|, i requires 0 <= i < |items| => NormalPath(items[i], rules))
  }

  /** Step 3, second loop: only allowed paths, no two alike up to case. */
  method Allowlist(items: seq<Item>, keys: seq<string>, allowed: Item -> bool)
    returns (r: Checked<map<string, Item>>)
    requires |keys| == |items|
    ensures r.Ok? <==> (forall i :: 0 <= i < |items| ==> allowed(items[i])) && Distinct(keys)
    ensures r.Ok? ==> Indexes(r.value, keys, items)
  {
    var allowlist: map<string, Item> := map[];
    for i := 0 to |items|
      invariant forall k :: 0 <= k < i ==> allowed(items[k])
      invariant Distinct(keys[..i])
      invariant Indexes(allowlist, keys[..i], items[..i])
    {
      if !allowed(items[i]) {
        return Err(ForbiddenArtifact);
      }
      if keys[i] in allowlist {
        CollidesAt(keys, i);
        return Err(PathCollision);
      }
      Extend(allowlist, keys[..i], items[..i], keys[i], items[i]);
      assert keys[..i + 1] == keys[..i] + [keys[i]] && items[..i + 1] == items[..i] + [items[i]];
      allowlist := allowlist[keys[i] := items[i]];
    }
    assert keys[..|items|] == keys && items[..|items|] == items;
    r := Ok(allowlist);
  }

  // ---- copying ----

  /** The entry of a copied artifact. */
  function EntryFor(path: string, kind: Kind, c: Content, v: Vocabulary): Entry {
    if kind == Dbf && c.table.Some? then
      Entry(v.artifact, path, kind, c.size, c.sha256,
            Some(c.table.value.streamed), Some(c.table.value.schemaFingerprint))
    else Entry(v.artifact, path, kind, c.size, c.sha256, None, None)
  }

  /** The source file opens and, for a table, streams as many records as its header says. */
  predicate Copyable(kind: Kind, content: Option<Content>) {
    && content.Some?
    && (kind == Dbf ==>
          content.value.table.Some? && content.value.table.value.headerCount == content.value.table.value.streamed)
  }

  /** Writing a file replaces what its name leads to. */
  function Write(tree: Tree, rules: Rules, path: string, c: Content): Tree {
    var i := Locate(tree, rules, path);
    if i < |tree| then tree[i := tree[i].(content := c)] else tree + [File(path, c)]
  }

  /** The copies and their entries, in payload order. */
  ghost predicate Copies(items: seq<Item>, paths: seq<string>, sources: seq<Option<Content>>,
                         v: Vocabulary, tree: Tree, entries: seq<Entry>)
  {
    && |items| == |paths| == |sources| == |tree| == |entries|
    && forall i :: 0 <= i < |items| ==>
         && Copyable(items[i].kind, sources[i])
         && tree[i] == File(paths[i], sources[i].value)
         && entries[i] == EntryFor(paths[i], items[i].kind, sources[i].value, v)
  }

  /** Step 4. */
  method CopyPayload(items: seq<Item>, paths: seq<string>, sources: seq<Option<Content>>, rules: Rules)
    returns (r: Checked<(Tree, seq<Entry>)>)
    requires NamesFoldAlike(rules) && |items| == |paths| == |sources| && Distinct(Folded(paths, rules))
    ensures r.Ok? <==> forall i :: 0 <= i < |items| ==> Copyable(items[i].kind, sources[i])
    ensures r.Ok? ==> Copies(items, paths, sources, rules.vocabulary, r.value.0, r.value.1)
  {
    var tree: Tree, entries: seq<Entry> := [], [];
    for i := 0 to |items|
      invariant Copies(items[..i], paths[..i], sources[..i], rules.vocabulary, tree, entries)
    {
      if !Copyable(items[i].kind, sources[i]) {
        return Err(RecordCountMismatch);
      }
      FreshName(tree, paths, rules, i);
      tree := Write(tree, rules, paths[i], sources[i].value);
      entries := entries + [EntryFor(paths[i], items[i].kind, sources[i].value, rules.vocabulary)];
    }
    assert items[..|items|] == items && paths[..|items|] == paths && sources[..|items|] == sources;
    r := Ok((tree, entries));
  }

  lemma FreshName(tree: Tree, paths: seq<string>, rules: Rules, i: nat)
    requires NamesFoldAlike(rules) && Distinct(Folded(paths, rules)) && i < |paths| && |tree| == i
    requires forall k :: 0 <= k < i ==> tree[k].path == paths[k]
    ensures Locate(tree, rules, paths[i]) == |tree|
  {
  }

  // ---- the staged bundle ----

  datatype Request = Request(working: Tree, tables: seq<string>, header: Header, assurance: Assurance)

  datatype Staged = Staged(tree: Tree, manifest: Manifest, fingerprint: string)

  /** The assurance object as it is written, under the closed keys. */
  function WrittenAssurance(a: Assurance, v: Vocabulary): Assurance {
    a.(keys := v.assurance)
  }

  /** What creation stages from readable tables: `facts` are the tables' facts. */
  ghost predicate Stages(q: Request, rules: Rules, seal: Sealer, facts: seq<TableFacts>, copied: Tree, staged: Staged) {
    && Facts(q.working, rules, q.tables, facts)
    && var items := Payload(q.tables, facts);
    var paths := NormalPaths(items, rules);
    && (forall i :: 0 <= i < |items| ==> ItemAllowed(items[i], rules))
    && Distinct(Folded(paths, rules))
    && Copies(items, paths, Opens(q.working, rules, paths), rules.vocabulary, copied, staged.manifest.entries)
    && staged.manifest ==
       Manifest(rules.vocabulary.top, q.header, staged.manifest.entries,
                WrittenAssurance(q.assurance, rules.vocabulary))
    && staged.tree == Write(copied, rules, MANIFEST, seal(staged.manifest))
    && staged.fingerprint == seal(staged.manifest).sha256
  }

  /** Step 3: the payload and its allowlist. */
  ghost predicate Planned(q: Request, rules: Rules, facts: seq<TableFacts>, items: seq<Item>) {
    && Facts(q.working, rules, q.tables, facts) && items == Payload(q.tables, facts)
    && (forall i :: 0 <= i < |items| ==> ItemAllowed(items[i], rules))
    && Distinct(Folded(NormalPaths(items, rules), rules))
  }

  method PlanPayload(q: Request, rules: Rules) returns (r: Checked<seq<Item>>, ghost facts: seq<TableFacts>)
    ensures r.Ok? ==> Planned(q, rules, facts, r.value)
    ensures r.Err? ==> forall f, items :: !Planned(q, rules, f, items)
  {
    var payload;
    payload, facts := ExpectedPayload(q.tables, ReadTables(q.working, rules, q.tables));
    if payload.Err? {
      return Err(payload.error), [];
    }
    forall f | Facts(q.working, rules, q.tables, f) ensures f == facts {
      AllReadDetermined(ReadTables(q.working, rules, q.tables), f, facts);
    }
    var items := payload.value;
    var allowlist := Allowlist(items, Folded(NormalPaths(items, rules), rules), item => ItemAllowed(item, rules));
    if allowlist.Err? {
      return Err(allowlist.error), [];
    }
    r := Ok(items);
  }

  /** Steps 4 and 5: copy the payload and write the manifest. */
  method StagePayload(q: Request, rules: Rules, seal: Sealer, items: seq<Item>, ghost facts: seq<TableFacts>)
    returns (r: Checked<Staged>, ghost copied: Tree)
    requires NamesFoldAlike(rules) && Planned(q, rules, facts, items)
    ensures r.Ok? ==> Stages(q, rules, seal, facts, copied, r.value)
    ensures r.Err? ==> forall t, s :: !Stages(q, rules, seal, facts, t, s)
  {
    copied := [];
    var paths := NormalPaths(items, rules);
    var copy := CopyPayload(items, paths, Opens(q.working, rules, paths), rules);
    if copy.Err? {
      return Err(copy.error), [];
    }
    var tree := copy.value.0;
    copied := tree;
    var m := Manifest(rules.vocabulary.top, q.header, copy.value.1,
                      WrittenAssurance(q.assurance, rules.vocabulary));
    var sealed := seal(m);
    r := Ok(Staged(Write(tree, rules, MANIFEST, sealed), m, sealed.sha256));
  }

  /** A staging follows a plan, and the plan's facts are unique. */
  lemma StagesIsPlanned(q: Request, rules: Rules, seal: Sealer, facts: seq<TableFacts>, copied: Tree, staged: Staged,
                        planned: seq<TableFacts>)
    requires Stages(q, rules, seal, facts, copied, staged)
    ensures Planned(q, rules, facts, Payload(q.tables, facts))
    ensures Facts(q.working, rules, q.tables, planned) ==> facts == planned
  {
    if Facts(q.working, rules, q.tables, planned) {
      AllReadDetermined(ReadTables(q.working, rules, q.tables), facts, planned);
    }
  }

  /** Steps 3 to 5 of `create_transfer_bundle`. */
  method CreateStaged(q: Request, rules: Rules, seal: Sealer)
    returns (r: Checked<Staged>, ghost facts: seq<TableFacts>, ghost copied: Tree)
    requires NamesFoldAlike(rules)
    ensures r.Ok? ==> Stages(q, rules, seal, facts, copied, r.value)
    ensures r.Err? ==> forall f, t, s :: !Stages(q, rules, seal, f, t, s)
  {
    copied := [];
    var plan;
    plan, facts := PlanPayload(q, rules);
    forall f, t, s | Stages(q, rules, seal, f, t, s)
      ensures plan.Ok? && f == facts
    {
      StagesIsPlanned(q, rules, seal, f, t, s, facts);
    }
    if plan.Err? {
      return Err(plan.error), [], [];
    }
    r, copied := StagePayload(q, rules, seal, plan.value, facts);
  }
}
