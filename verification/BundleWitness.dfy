/** Single-table bundles: the condition on names, and two names that fail it. */
module BundleWitness {
  import opened Wrappers
  import opened BundlePaths
  import opened TransferBundle
  import opened BundleExactness
  import opened BundleCreation
  import opened BundleAgreement

  const EMPTY_TABLE := TableFacts(0, 0, "s", false)

  function OneTable(path: string, header: Header, assurance: Assurance): Request {
    Request([File(path, Content(33, "d", Some(EMPTY_TABLE), None))], [path], header, assurance)
  }

  /** What creation stages from the one table. */
  function OneStaged(q: Request, rules: Rules, seal: Sealer): Staged
    requires |q.working| == 1
  {
    var file := q.working[0];
    var m := Manifest(rules.vocabulary.top, q.header, [EntryFor(file.path, Dbf, file.content, rules.vocabulary)],
                      WrittenAssurance(q.assurance, rules.vocabulary));
    Staged(q.working + [File(MANIFEST, seal(m))], m, seal(m).sha256)
  }

  /** A name creation accepts for a table. */
  predicate TablePath(path: string, rules: Rules) {
    rules.normalize(path) == Some(path) && IsTableName(path, rules) && !Barred(path, rules)
  }

  lemma OnePayload(path: string, rules: Rules)
    requires TablePath(path, rules)
    ensures Payload([path], [EMPTY_TABLE]) == [Item(path, Dbf)]
    ensures NormalPaths([Item(path, Dbf)], rules) == [path]
  {
    assert [path][..0] == [] && [EMPTY_TABLE][..0] == [];
    assert Payload([path][..0], [EMPTY_TABLE][..0]) == [];
  }

  lemma OneFile(file: File, rules: Rules)
    requires PlatformLaws(rules) && Key(file.path, rules) != MANIFEST
    ensures Open([file], rules, file.path) == Some(file.content)
    ensures Locate([file], rules, MANIFEST) == 1
  {
    ManifestIsPlain(rules);
    assert NamesFoldAlike(rules);
    assert Canons(Paths([file]), rules) == [rules.canon(file.path)];
    assert [rules.canon(file.path)][0] == rules.canon(file.path);
    assert Key(file.path, rules) != Key(MANIFEST, rules);
  }

  lemma OneTableStages(path: string, rules: Rules, header: Header, assurance: Assurance, seal: Sealer)
    requires PlatformLaws(rules) && TablePath(path, rules)
    ensures var q := OneTable(path, header, assurance);
            Stages(q, rules, seal, [EMPTY_TABLE], q.working, OneStaged(q, rules, seal))
  {
    var q := OneTable(path, header, assurance);
    var file := q.working[0];
    BoundIsNotManifest(Dbf, Key(path, rules)) by { ExtensionsDiffer(Key(path, rules)); }
    OneFile(file, rules);
    OnePayload(path, rules);
    assert Opens(q.working, rules, [path]) == [Some(file.content)];
    assert ItemAllowed(Item(path, Dbf), rules);
  }

  /** One table is transferred exactly when its name leads back from its fold. */
  lemma OneTableTransfers(path: string, rules: Rules, header: Header, assurance: Assurance, seal: Sealer)
    requires PlatformLaws(rules) && PathLaw(rules.normalize)
    requires TablePath(path, rules) && CanonicalTables([path], rules)
    requires HeaderAccepted(header) &&
             AssuranceAccepted(WrittenAssurance(assurance, rules.vocabulary), rules.vocabulary)
    requires forall m :: seal(m).manifest == Some(m) && seal(m).size <= MAX_MANIFEST_BYTES
    ensures var staged := OneStaged(OneTable(path, header, assurance), rules, seal);
            (exists m, c :: CoreAccepts(staged.tree, rules, m, c)) <==> LeadsBack(path, rules)
  {
    var q := OneTable(path, header, assurance);
    var staged := OneStaged(q, rules, seal);
    OneTableStages(path, rules, header, assurance, seal);
    assert Paths(q.working) == [path];
    assert [path][0] == path;
    CreateVerifyAgree(q, rules, seal, [EMPTY_TABLE], q.working, staged);
  }

  // ---- names the denylist lets through ----

  /** Every marker of the denylist contains one of these letters. */
  predicate Telltale(c: char) {
    c in {'i', 'o', 'p', 'v', 'm', 'c', 'l', 'k', 'u'}
  }

  lemma {:induction false} ContainsNeeds(s: string, part: string, k: nat)
    requires Contains(s, part) && k < |part|
    ensures exists i :: 0 <= i < |s| && s[i] == part[k]
  {
    if part <= s {
      assert s[k] == part[k];
    } else {
      ContainsNeeds(s[1..], part, k);
      var i :| 0 <= i < |s[1..]| && s[1..][i] == part[k];
      assert s[i + 1] == part[k];
    }
  }

  lemma SuffixEnds(s: string, suffix: string)
    ensures EndsWith(s, suffix) && suffix != "" ==> s != "" && s[|s| - 1] == suffix[|suffix| - 1]
  {
    if 0 < |suffix| <= |s| {
      assert s[|s| - |suffix|..][|suffix| - 1] == s[|s| - 1];
    }
  }

  lemma SuffixesEnd()
    ensures forall i :: 0 <= i < |DATA_ONLY_DENYLIST.suffixes| ==>
              var suffix := DATA_ONLY_DENYLIST.suffixes[i];
              suffix != "" && suffix[|suffix| - 1] != 'f'
  {
  }

  lemma MarkersTell()
    ensures forall i :: 0 <= i < |DATA_ONLY_DENYLIST.markers| ==>
              exists k :: 0 <= k < |DATA_ONLY_DENYLIST.markers[i]| && Telltale(DATA_ONLY_DENYLIST.markers[i][k])
  {
    var m := DATA_ONLY_DENYLIST.markers;
    assert m[0][2] == 'm' && m[1][1] == 'i' && m[2][3] == 'o' && m[3][0] == 'p' && m[4][1] == 'o';
    assert m[5][2] == 'v' && m[6][0] == 'm' && m[7][2] == 'c' && m[8][2] == 'l' && m[9][0] == 'k' && m[10][3] == 'u';
  }

  /** A plain table name without telltale letters is allowed. */
  lemma NotDenied(path: string)
    requires path != "" && path[|path| - 1] == 'f' && path[0] != '.' && path[0] != '~'
    requires forall i :: 0 <= i < |path| ==> path[i] != '/' && !Telltale(path[i])
    ensures !Forbidden(path, DATA_ONLY_DENYLIST)
  {
    NameStartIs(path, 0);
    assert Name(path) == path;
    SuffixesEnd();
    MarkersTell();
    forall i | 0 <= i < |DATA_ONLY_DENYLIST.suffixes| ensures !EndsWith(path, DATA_ONLY_DENYLIST.suffixes[i]) {
      SuffixEnds(path, DATA_ONLY_DENYLIST.suffixes[i]);
    }
    forall i | 0 <= i < |DATA_ONLY_DENYLIST.markers| ensures !Contains(path, DATA_ONLY_DENYLIST.markers[i]) {
      var k :| 0 <= k < |DATA_ONLY_DENYLIST.markers[i]| && Telltale(DATA_ONLY_DENYLIST.markers[i][k]);
      if Contains(path, DATA_ONLY_DENYLIST.markers[i]) { ContainsNeeds(path, DATA_ONLY_DENYLIST.markers[i], k); }
    }
  }

  // ---- two file systems, two names ----

  /** Folding with one letter that folds to two. */
  function SharpLetter(c: char): string {
    if c == '\U{00DF}' then "ss" else AsciiLetter(c)
  }

  function Ascii(s: string): string {
    Fold(s, AsciiLetter)
  }

  /** The rules with the real denylist, on a case-sensitive file system or on one that
      ignores the case of ASCII letters. */
  function WitnessRules(letter: Letter, sensitive: bool, v: Vocabulary): Rules {
    Rules(letter, if sensitive then (p => p) else Ascii, Ascii, p => Some(p), DATA_ONLY_DENYLIST, v)
  }

  lemma SharpSpelling()
    ensures NothingVanishes(SharpLetter) && PlainStays(SharpLetter) && SeparatorsAlone(SharpLetter)
  {
  }

  lemma SharpStays(c: char)
    ensures Stable(SharpLetter(c), SharpLetter)
  {
    if c == '\U{00DF}' {
      assert SharpLetter('s') == "s";
      FoldOne('s', SharpLetter);
      FoldAppend("s", "s", SharpLetter);
      assert "s" + "s" == "ss";
    } else {
      var folded := AsciiLetter(c)[0];
      FoldOne(folded, SharpLetter);
      assert SharpLetter(c) == [folded] && SharpLetter(folded) == [folded];
    }
  }

  lemma SharpFoldedStays()
    ensures FoldedStays(SharpLetter)
  {
    forall c: char ensures Stable(SharpLetter(c), SharpLetter) {
      SharpStays(c);
    }
  }

  lemma SharpLaws()
    ensures LetterLaws(SharpLetter)
  {
    SharpSpelling();
    SharpFoldedStays();
  }

  /** Folding ASCII case first changes nothing. */
  lemma {:induction false} SharpAfterAscii(s: string)
    ensures Fold(Ascii(s), SharpLetter) == Fold(s, SharpLetter)
  {
    if s != "" {
      var rest, c := s[..|s| - 1], s[|s| - 1];
      SharpAfterAscii(rest);
      FoldAppend(Ascii(rest), AsciiLetter(c), SharpLetter);
      FoldOne(AsciiLetter(c)[0], SharpLetter);
      assert AsciiLetter(c) == [AsciiLetter(c)[0]];
    }
  }

  lemma WitnessLaws(letter: Letter, sensitive: bool, v: Vocabulary)
    requires letter == AsciiLetter || letter == SharpLetter
    ensures PlatformLaws(WitnessRules(letter, sensitive, v))
  {
    var rules := WitnessRules(letter, sensitive, v);
    AsciiLaws();
    SharpLaws();
    forall p: string ensures DotName(p) ==> DotName(rules.lower(p)) {
      FoldDotName(p, AsciiLetter);
    }
    forall p: string, q: string ensures rules.canon(p) == rules.canon(q) ==> Key(p, rules) == Key(q, rules) {
      SharpAfterAscii(p);
      SharpAfterAscii(q);
    }
  }

  const UPPER := "A.DBF"
  const SHARP := "stra\U{00DF}e.dbf"

  lemma UpperFolds()
    ensures Ascii(UPPER) == "a.dbf" != UPPER
  {
    assert "A.DB"[..3] == "A.D" && "A.D"[..2] == "A." && "A."[..1] == "A" && "A"[..0] == "" && UPPER[..4] == "A.DB";
    assert Ascii("A") == "a" && Ascii("A.") == "a." && Ascii("A.D") == "a.d" && Ascii("A.DB") == "a.db";
    assert "a.dbf"[0] != UPPER[0];
  }

  lemma {:induction false} AsciiFixed(s: string)
    requires forall i :: 0 <= i < |s| ==> !('A' <= s[i] <= 'Z')
    ensures Ascii(s) == s
  {
    if s != "" {
      AsciiFixed(s[..|s| - 1]);
    }
  }

  lemma {:induction false} AsciiLength(s: string)
    ensures |Ascii(s)| == |s|
  {
    if s != "" {
      AsciiLength(s[..|s| - 1]);
    }
  }

  lemma SharpPlain(s: string)
    requires forall i :: 0 <= i < |s| ==> Plain(s[i])
    ensures Fold(s, SharpLetter) == s
  {
    SharpLaws();
    PlainFolds(s, SharpLetter);
  }

  lemma SharpSplit(before: string, after: string)
    ensures Fold(before + ['\U{00DF}'] + after, SharpLetter) ==
            Fold(before, SharpLetter) + "ss" + Fold(after, SharpLetter)
  {
    FoldAppend(before + ['\U{00DF}'], after, SharpLetter);
    FoldAppend(before, ['\U{00DF}'], SharpLetter);
    FoldOne('\U{00DF}', SharpLetter);
  }

  lemma SharpFolds()
    ensures Fold(SHARP, SharpLetter) == "strasse.dbf"
  {
    assert SHARP == "stra" + ['\U{00DF}'] + "e.dbf";
    SharpPlain("stra");
    SharpPlain("e.dbf");
    SharpSplit("stra", "e.dbf");
  }

  lemma UpperIsTable(sensitive: bool, v: Vocabulary)
    ensures TablePath(UPPER, WitnessRules(AsciiLetter, sensitive, v))
    ensures LeadsBack(UPPER, WitnessRules(AsciiLetter, sensitive, v)) <==> !sensitive
  {
    UpperFolds();
    NotDenied("a.dbf");
    assert "a.dbf"[1..] == DBF;
    AsciiFixed("a.dbf");
  }

  lemma SharpIsTable(sensitive: bool, v: Vocabulary)
    ensures TablePath(SHARP, WitnessRules(SharpLetter, sensitive, v))
    ensures !LeadsBack(SHARP, WitnessRules(SharpLetter, sensitive, v))
  {
    SharpFolds();
    AsciiFixed(SHARP);
    NotDenied(SHARP);
    assert "strasse.dbf"[7..] == DBF;
    AsciiLength("strasse.dbf");
  }

  /** The same table with an upper-case name is accepted where the file system ignores case
      and refused where it does not. */
  lemma UpperCaseName(header: Header, assurance: Assurance, seal: Sealer, sensitive: bool, v: Vocabulary)
    requires HeaderAccepted(header) && AssuranceAccepted(WrittenAssurance(assurance, v), v)
    requires forall m :: seal(m).manifest == Some(m) && seal(m).size <= MAX_MANIFEST_BYTES
    ensures var rules := WitnessRules(AsciiLetter, sensitive, v);
            var tree := OneStaged(OneTable(UPPER, header, assurance), rules, seal).tree;
            (exists m, c :: CoreAccepts(tree, rules, m, c)) <==> !sensitive
  {
    WitnessLaws(AsciiLetter, sensitive, v);
    UpperIsTable(sensitive, v);
    OneTableTransfers(UPPER, WitnessRules(AsciiLetter, sensitive, v), header, assurance, seal);
  }

  /** A name with a letter that folds to two is refused on both kinds of file system. */
  lemma SharpName(header: Header, assurance: Assurance, seal: Sealer, sensitive: bool, v: Vocabulary)
    requires HeaderAccepted(header) && AssuranceAccepted(WrittenAssurance(assurance, v), v)
    requires forall m :: seal(m).manifest == Some(m) && seal(m).size <= MAX_MANIFEST_BYTES
    ensures var rules := WitnessRules(SharpLetter, sensitive, v);
            var tree := OneStaged(OneTable(SHARP, header, assurance), rules, seal).tree;
            !exists m, c :: CoreAccepts(tree, rules, m, c)
  {
    WitnessLaws(SharpLetter, sensitive, v);
    SharpIsTable(sensitive, v);
    OneTableTransfers(SHARP, WitnessRules(SharpLetter, sensitive, v), header, assurance, seal);
  }

  // ---- acceptance is not empty ----

  const PLAIN_HEADER := Header("1.1", "1", "1", "DATA_ONLY", "PSEUDONYMIZED", "ds-0123456789abcdef",
                               "DATA_ONLY_INDEX_OMITTED", "STANDALONE_REDUCED_SEMANTICS", "CREATION_SELF_VERIFIED")

  const NO_RELATIONS := Assurance({}, GlobalExactValue, 0, 0, 0, 0, None, "", "", "")

  function PlainVocabulary(): Vocabulary {
    Vocabulary({}, {}, {}, _ => true, "", "")
  }

  function PlainSeal(m: Manifest): Content {
    Content(1, "m", None, Some(m))
  }

  /** A one-table bundle with these plain facts is accepted where the file system ignores case. */
  lemma SomeBundleIsAccepted()
    ensures var rules := WitnessRules(AsciiLetter, false, PlainVocabulary());
            var tree := OneStaged(OneTable(UPPER, PLAIN_HEADER, NO_RELATIONS), rules, PlainSeal).tree;
            exists m, c :: CoreAccepts(tree, rules, m, c)
  {
    PlainHeaderIsAccepted();
    UpperCaseName(PLAIN_HEADER, NO_RELATIONS, PlainSeal, false, PlainVocabulary());
  }

  lemma PlainHeaderIsAccepted()
    ensures HeaderAccepted(PLAIN_HEADER)
  {
    NoDotsIsToken("1");
    NoDotsIsToken("ds-0123456789abcdef");
  }

  lemma NoDotsIsToken(s: string)
    requires |s| <= 128 && forall i :: 0 <= i < |s| ==> 'a' <= s[i] <= 'z' || '0' <= s[i] <= '9' || s[i] == '-'
    ensures Token(s)
  {
  }
}
