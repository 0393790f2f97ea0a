/** Artifact paths of a transfer bundle: case folding, companions and the denylist
    (transfer_bundle.py). Folding works character by character, as the full Unicode case
    folding does: one character may fold to several. */
module BundlePaths {

  /** The folding of one character. */
  type Letter = char -> string

  function Fold(s: string, letter: Letter): string {
    if s == "" then "" else Fold(s[..|s| - 1], letter) + letter(s[|s| - 1])
  }

  predicate Stable(s: string, letter: Letter) {
    Fold(s, letter) == s
  }

  /** Characters every case folding leaves alone. */
  predicate Plain(c: char) {
    'a' <= c <= 'z' || c == '.' || c == '/' || c == '-'
  }

  predicate Separator(c: char) {
    c == '.' || c == '/'
  }

  ghost predicate NothingVanishes(letter: Letter) {
    forall c: char :: letter(c) != ""
  }

  ghost predicate PlainStays(letter: Letter) {
    forall c: char :: Plain(c) ==> letter(c) == [c]
  }

  ghost predicate SeparatorsAlone(letter: Letter) {
    forall c: char, i :: 0 <= i < |letter(c)| && Separator(letter(c)[i]) ==> letter(c) == [c]
  }

  ghost predicate FoldedStays(letter: Letter) {
    forall c: char {:trigger Stable(letter(c), letter)} :: Stable(letter(c), letter)
  }

  /** What the Unicode folding of characters guarantees: nothing vanishes, plain characters
      stay, only a separator folds to text with a separator, and folded text stays folded. */
  ghost predicate LetterLaws(letter: Letter) {
    NothingVanishes(letter) && PlainStays(letter) && SeparatorsAlone(letter) && FoldedStays(letter)
  }

  lemma {:induction false} FoldAppend(a: string, b: string, letter: Letter)
    ensures Fold(a + b, letter) == Fold(a, letter) + Fold(b, letter)
  {
    if b == "" {
      assert a + b == a;
    } else {
      FoldAppend(a, b[..|b| - 1], letter);
      assert (a + b)[..|a + b| - 1] == a + b[..|b| - 1];
    }
  }

  lemma FoldOne(c: char, letter: Letter)
    ensures Fold([c], letter) == letter(c)
  {
    assert [c][..0] == "";
  }

  /** Folding twice folds once. */
  lemma {:induction false} FoldIdempotent(s: string, letter: Letter)
    requires LetterLaws(letter)
    ensures Fold(Fold(s, letter), letter) == Fold(s, letter)
  {
    if s != "" {
      var c := s[|s| - 1];
      FoldIdempotent(s[..|s| - 1], letter);
      FoldAppend(Fold(s[..|s| - 1], letter), letter(c), letter);
      assert Stable(letter(c), letter);
    }
  }

  lemma {:induction false} PlainFolds(s: string, letter: Letter)
    requires LetterLaws(letter) && forall i :: 0 <= i < |s| ==> Plain(s[i])
    ensures Fold(s, letter) == s
  {
    if s != "" {
      PlainFolds(s[..|s| - 1], letter);
      assert letter(s[|s| - 1]) == [s[|s| - 1]];
    }
  }

  lemma {:induction false} FoldNotEmpty(s: string, letter: Letter)
    requires LetterLaws(letter)
    ensures Fold(s, letter) == "" <==> s == ""
  {
  }

  /** Folding makes no separators. */
  lemma {:induction false} FoldKeepsOut(s: string, sep: char, letter: Letter)
    requires LetterLaws(letter) && Separator(sep) && forall i :: 0 <= i < |s| ==> s[i] != sep
    ensures forall i :: 0 <= i < |Fold(s, letter)| ==> Fold(s, letter)[i] != sep
  {
    if s != "" {
      FoldKeepsOut(s[..|s| - 1], sep, letter);
      var c := s[|s| - 1];
      forall i | 0 <= i < |letter(c)| ensures letter(c)[i] != sep {
        assert Separator(letter(c)[i]) ==> letter(c) == [c];
      }
    }
  }

  lemma FoldSeparator(a: string, sep: char, letter: Letter)
    requires LetterLaws(letter) && Separator(sep)
    ensures Fold(a + [sep], letter) == Fold(a, letter) + [sep]
  {
    FoldAppend(a, [sep], letter);
    FoldOne(sep, letter);
    assert Plain(sep);
  }

  // ---- components ----

  predicate EndsWith(s: string, suffix: string) {
    |suffix| <= |s| && s[|s| - |suffix|..] == suffix
  }

  predicate Contains(s: string, part: string) {
    part <= s || (s != "" && Contains(s[1..], part))
  }

  /** The position after the last slash. */
  function NameStart(path: string): (i: nat)
    ensures i <= |path|
    ensures i > 0 ==> path[i - 1] == '/'
    ensures forall k :: i <= k < |path| ==> path[k] != '/'
  {
    if path == "" then 0
    else if path[|path| - 1] == '/' then |path|
    else NameStart(path[..|path| - 1])
  }

  /** The last component. */
  function Name(path: string): string {
    path[NameStart(path)..]
  }

  /** The position of the last dot, or the length when there is none. */
  function LastDot(name: string): (i: nat)
    ensures i <= |name|
    ensures i < |name| ==> name[i] == '.'
    ensures i < |name| ==> forall k :: i < k < |name| ==> name[k] != '.'
    ensures i == |name| ==> forall k :: 0 <= k < |name| ==> name[k] != '.'
  {
    if name == "" then 0
    else if name[|name| - 1] == '.' then |name| - 1
    else
      var rest := LastDot(name[..|name| - 1]);
      if rest == |name| - 1 then |name| else rest
  }

  /** A name with a non-empty stem and a non-empty suffix. */
  predicate Suffixed(name: string) {
    0 < LastDot(name) < |name| - 1
  }

  /** Where the suffix starts, or the end of the path. */
  function SuffixStart(path: string): (i: nat)
    ensures i <= |path|
  {
    var name := Name(path);
    if Suffixed(name) then NameStart(path) + LastDot(name) else |path|
  }

  /** PurePath.with_suffix(".fpt") */
  function Companion(path: string): string {
    path[..SuffixStart(path)] + FPT
  }

  // ---- the denylist ----

  /** What a transferable path may not end with, and what its last component may not contain. */
  datatype Denylist = Denylist(suffixes: seq<string>, markers: seq<string>)

  const DATA_ONLY_DENYLIST := Denylist(
    [".sqlite", ".sqlite3", ".sqlite-wal", ".sqlite3-wal", "-wal", "-shm", ".journal", ".jrn", ".log",
     ".tmp", ".temp", ".lock", ".staging", ".partial", ".bak", ".cdx", ".idx", ".dbc", ".dct", ".dcx",
     ".exe", ".dll", ".py", ".pyc", ".bat", ".cmd", ".ps1", ".sh", ".bin"],
    ["temp-", "dictionary.sqlite", "recovery", "private-manifest", "source-manifest",
     "reverse-mapping", "mapping-table", "secret", "salt", "keyfile", "debug"])

  /** `_forbidden_artifact_class`, on the lower-cased path */
  predicate Forbidden(lowered: string, deny: Denylist) {
    var name := Name(lowered);
    || (exists i :: 0 <= i < |deny.suffixes| && EndsWith(lowered, deny.suffixes[i]))
    || (exists i :: 0 <= i < |deny.markers| && Contains(name, deny.markers[i]))
    || DotName(lowered)
    || (|name| >= 2 && name[..2] == "~$")
  }

  predicate DotName(path: string) {
    Name(path) != "" && Name(path)[0] == '.'
  }

  // ---- companions of folded table paths ----

  const DBF := ".dbf"
  const FPT := ".fpt"

  lemma NameOfTable(path: string)
    requires EndsWith(path, DBF) && !DotName(path)
    ensures |Name(path)| > 4 && NameStart(path) + |Name(path)| == |path|
    ensures LastDot(Name(path)) == |Name(path)| - 4
  {
    var n := |path|;
    assert path[n - 4..] == DBF;
    assert path[n - 4] == '.' && path[n - 3] == 'd' && path[n - 2] == 'b' && path[n - 1] == 'f';
    var start := NameStart(path);
    assert start <= n - 4 by {
      assert start > 0 ==> path[start - 1] == '/';
    }
    var name := Name(path);
    assert name[|name| - 4] == '.' && name[|name| - 3] == 'd' && name[|name| - 2] == 'b' && name[|name| - 1] == 'f';
    var dot := LastDot(name);
    assert dot == |name| - 4;
  }

  /** The companion of a table replaces the extension. */
  lemma CompanionOfTable(path: string)
    requires EndsWith(path, DBF) && !DotName(path)
    ensures Companion(path) == path[..|path| - 4] + FPT
    ensures EndsWith(Companion(path), FPT)
  {
    NameOfTable(path);
  }

  /** Two tables never share a companion. */
  lemma CompanionInjective(p: string, q: string)
    requires EndsWith(p, DBF) && !DotName(p) && EndsWith(q, DBF) && !DotName(q)
    requires Companion(p) == Companion(q)
    ensures p == q
  {
    CompanionOfTable(p);
    CompanionOfTable(q);
    var c := Companion(p);
    assert p[..|p| - 4] == c[..|c| - 4] && q[..|q| - 4] == c[..|c| - 4];
    assert p == p[..|p| - 4] + DBF && q == q[..|q| - 4] + DBF;
  }

  /** Without the refusal of dot-names two tables can share a companion. */
  lemma DotNamesCollide()
    ensures ".dbf" != ".dbf.dbf" && Companion(".dbf") == Companion(".dbf.dbf") == ".dbf.fpt"
  {
    assert NameStart(".dbf") == 0 && NameStart(".dbf.dbf") == 0;
    assert Name(".dbf") == ".dbf" && Name(".dbf.dbf") == ".dbf.dbf";
    assert ".dbf"[0] == '.' && LastDot(".dbf") == 0;
    assert ".dbf.dbf"[4] == '.' && LastDot(".dbf.dbf") == 4;
    assert ".dbf.dbf"[..4] == ".dbf" && ".dbf"[..4] == ".dbf";
  }

  // ---- folding keeps the structure of a path ----

  /** The last component folds on its own. */
  lemma FoldName(path: string, letter: Letter)
    requires LetterLaws(letter)
    ensures NameStart(Fold(path, letter)) == |Fold(path[..NameStart(path)], letter)|
    ensures Name(Fold(path, letter)) == Fold(Name(path), letter)
  {
    var k := NameStart(path);
    var folder, name := path[..k], Name(path);
    assert path == folder + name;
    FoldAppend(folder, name, letter);
    FoldKeepsOut(name, '/', letter);
    if k > 0 {
      assert folder == path[..k - 1] + ['/'];
      FoldSeparator(path[..k - 1], '/', letter);
    }
    NameStartIs(Fold(path, letter), |Fold(folder, letter)|);
  }

  lemma NameStartIs(path: string, k: nat)
    requires k <= |path| && (k > 0 ==> path[k - 1] == '/')
    requires forall i :: k <= i < |path| ==> path[i] != '/'
    ensures NameStart(path) == k
  {
  }

  lemma FoldLastDot(name: string, letter: Letter)
    requires LetterLaws(letter)
    ensures LastDot(Fold(name, letter)) == |Fold(name[..LastDot(name)], letter)|
    ensures LastDot(name) < |name| ==>
              Fold(name, letter) == Fold(name[..LastDot(name)], letter) + "." + Fold(name[LastDot(name) + 1..], letter)
  {
    var k := LastDot(name);
    if k < |name| {
      var stem, tail := name[..k], name[k + 1..];
      assert name == (stem + ['.']) + tail;
      FoldAppend(stem + ['.'], tail, letter);
      FoldSeparator(stem, '.', letter);
      FoldKeepsOut(tail, '.', letter);
      LastDotIs(Fold(name, letter), |Fold(stem, letter)|);
    } else {
      FoldKeepsOut(name, '.', letter);
      assert name[..k] == name;
    }
  }

  lemma LastDotIs(name: string, k: nat)
    requires k < |name| && name[k] == '.'
    requires forall i :: k < i < |name| ==> name[i] != '.'
    ensures LastDot(name) == k
  {
  }

  lemma FoldSuffixed(name: string, letter: Letter)
    requires LetterLaws(letter)
    ensures Suffixed(Fold(name, letter)) <==> Suffixed(name)
  {
    var dot := LastDot(name);
    FoldLastDot(name, letter);
    FoldNotEmpty(name[..dot], letter);
    if dot < |name| {
      FoldNotEmpty(name[dot + 1..], letter);
    } else {
      assert name[..dot] == name;
    }
  }

  lemma FoldSuffixStart(path: string, letter: Letter)
    requires LetterLaws(letter)
    ensures SuffixStart(Fold(path, letter)) == |Fold(path[..SuffixStart(path)], letter)|
  {
    FoldName(path, letter);
    FoldSuffixed(Name(path), letter);
    FoldLastDot(Name(path), letter);
    FoldSuffixCut(path, letter);
  }

  /** Where the suffix is cut, folder and stem fold separately. */
  lemma FoldSuffixCut(path: string, letter: Letter)
    ensures |Fold(path[..SuffixStart(path)], letter)| ==
            if Suffixed(Name(path))
            then |Fold(path[..NameStart(path)], letter)| + |Fold(Name(path)[..LastDot(Name(path))], letter)|
            else |Fold(path, letter)|
  {
    var start, name := NameStart(path), Name(path);
    if Suffixed(name) {
      var dot := LastDot(name);
      assert path[..start + dot] == path[..start] + name[..dot];
      FoldAppend(path[..start], name[..dot], letter);
    } else {
      assert path[..|path|] == path;
    }
  }

  lemma FoldSlice(s: string, k: nat, letter: Letter)
    requires k <= |s|
    ensures Fold(s[..k], letter) <= Fold(s, letter)
  {
    assert s == s[..k] + s[k..];
    FoldAppend(s[..k], s[k..], letter);
  }

  /** Folding commutes with taking the companion. */
  lemma FoldCommutesWithCompanion(path: string, letter: Letter)
    requires LetterLaws(letter)
    ensures Fold(Companion(path), letter) == Companion(Fold(path, letter))
  {
    var cut := SuffixStart(path);
    FoldSuffixStart(path, letter);
    FoldSlice(path, cut, letter);
    FoldAppend(path[..cut], FPT, letter);
    PlainFolds(FPT, letter);
  }

  lemma FoldFirst(name: string, letter: Letter)
    requires LetterLaws(letter) && name != ""
    ensures Fold(name, letter) != "" && Fold(name, letter)[0] == letter(name[0])[0]
  {
    assert name == [name[0]] + name[1..];
    FoldAppend([name[0]], name[1..], letter);
    FoldOne(name[0], letter);
  }

  lemma DotAlone(c: char, letter: Letter)
    requires LetterLaws(letter)
    ensures letter(c)[0] == '.' <==> c == '.'
  {
    assert Plain('.');
    assert Separator(letter(c)[0]) ==> letter(c) == [c];
  }

  /** Folding keeps dot-names. */
  lemma FoldDotName(path: string, letter: Letter)
    requires LetterLaws(letter)
    ensures DotName(Fold(path, letter)) <==> DotName(path)
  {
    var name := Name(path);
    FoldName(path, letter);
    if name != "" {
      FoldFirst(name, letter);
      DotAlone(name[0], letter);
    }
  }

  // ---- ASCII folding ----

  function AsciiLetter(c: char): string {
    if 'A' <= c <= 'Z' then [(c as int + 32) as char] else [c]
  }

  lemma AsciiFoldedStays()
    ensures FoldedStays(AsciiLetter)
  {
    forall c: char ensures Stable(AsciiLetter(c), AsciiLetter) {
      var folded := AsciiLetter(c)[0];
      FoldOne(folded, AsciiLetter);
      assert AsciiLetter(c) == [folded] && AsciiLetter(folded) == [folded];
    }
  }

  lemma AsciiSpelling()
    ensures NothingVanishes(AsciiLetter) && PlainStays(AsciiLetter) && SeparatorsAlone(AsciiLetter)
  {
  }

  /** ASCII folding obeys the laws. */
  lemma AsciiLaws()
    ensures LetterLaws(AsciiLetter)
  {
    AsciiSpelling();
    AsciiFoldedStays();
  }
}
