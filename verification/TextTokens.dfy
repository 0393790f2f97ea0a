/** The finite token space of the global text domain (transforms/text.py):
    every string over the safe alphabet whose length lies between 1 and a width. */
module TextTokens {
  import opened Collections

  /** Multiplication as repeated addition; TimesIsProduct relates it to `*`. */
  function Times(m: nat, n: nat): nat {
    if m == 0 then 0 else Times(m - 1, n) + n
  }

  lemma {:induction false} TimesIsProduct(m: nat, n: nat)
    ensures Times(m, n) == m * n
  {
    if m > 0 {
      TimesIsProduct(m - 1, n);
      OneMore(m - 1, n);
    }
  }

  function Pow(base: nat, n: nat): nat {
    if n == 0 then 1 else Times(Pow(base, n - 1), base)
  }

  /** base^1 + ... + base^width */
  function TokenSpace(width: nat, base: nat): nat {
    if width == 0 then 0 else TokenSpace(width - 1, base) + Pow(base, width)
  }

  /** The streamed comparison: it stops at the first partial sum that reaches `needed`. */
  method TokenSpaceAtLeast(maxWidth: int, base: int, needed: int) returns (enough: bool)
    ensures enough <==>
            needed <= if maxWidth < 1 || base < 1 then 0 else TokenSpace(maxWidth, base)
  {
    if maxWidth < 1 || base < 1 {
      return needed <= 0;
    }
    var total, term, i := 0, 1, 0;
    while i < maxWidth
      invariant 0 <= i <= maxWidth
      invariant term == Pow(base, i) && total == TokenSpace(i, base)
      invariant i > 0 ==> total < needed
    {
      TimesIsProduct(term, base);
      term := term * base;
      total := total + term;
      i := i + 1;
      if total >= needed {
        TokenSpaceMonotone(i, maxWidth, base);
        return true;
      }
    }
    return false;
  }

  lemma {:induction false} TokenSpaceMonotone(v: nat, w: nat, base: nat)
    requires v <= w
    ensures TokenSpace(v, base) <= TokenSpace(w, base)
    decreases w
  {
    if v < w {
      TokenSpaceMonotone(v, w - 1, base);
    }
  }

  lemma {:induction false} PowAtLeast(base: nat, n: nat)
    requires base >= 1
    ensures Pow(base, n) >= 1
    ensures n >= 1 ==> Pow(base, n) >= base
  {
    if n > 0 {
      PowAtLeast(base, n - 1);
      assert Times(Pow(base, n - 1), base) >= base;
    }
  }

  lemma {:induction false} UnaryTokenSpace(w: nat)
    ensures Pow(1, w) == 1 && TokenSpace(w, 1) == w
  {
    if w > 0 {
      UnaryTokenSpace(w - 1);
    }
  }

  // ---- tokens ----

  ghost predicate OverAlphabet(s: string, alphabet: string) {
    forall i :: 0 <= i < |s| ==> s[i] in alphabet
  }

  /** A non-empty string over the alphabet that fits `width` single-byte characters. */
  ghost predicate IsToken(s: string, alphabet: string, width: nat) {
    1 <= |s| <= width && OverAlphabet(s, alphabet)
  }

  ghost function Letters(alphabet: string): set<char> {
    set c | c in alphabet
  }

  lemma {:induction false} LettersCount(alphabet: string)
    requires Distinct(alphabet)
    ensures |Letters(alphabet)| == |alphabet|
  {
    if alphabet == [] {
      assert Letters(alphabet) == {};
    } else {
      var last := alphabet[|alphabet| - 1];
      var rest := alphabet[..|alphabet| - 1];
      LettersCount(rest);
      assert alphabet == rest + [last];
      assert Letters(alphabet) == Letters(rest) + {last};
      assert last !in Letters(rest);
    }
  }

  ghost function Extended(words: set<string>, letters: set<char>): set<string> {
    set s, c | s in words && c in letters :: s + [c]
  }

  lemma {:induction false} OneWordExtended(s: string, letters: set<char>)
    ensures |Extended({s}, letters)| == |letters|
  {
    if letters == {} {
      assert Extended({s}, letters) == {};
    } else {
      var c :| c in letters;
      OneWordExtended(s, letters - {c});
      assert Extended({s}, letters) == Extended({s}, letters - {c}) + {s + [c]} by {
        forall t | t in Extended({s}, letters)
          ensures t in Extended({s}, letters - {c}) + {s + [c]}
        {
          var d :| d in letters && t == s + [d];
        }
      }
      forall d | d in letters - {c} ensures s + [d] != s + [c] {
        assert (s + [d])[|s|] == d && (s + [c])[|s|] == c;
      }
      assert s + [c] !in Extended({s}, letters - {c});
    }
  }

  lemma OneMore(m: nat, n: nat)
    ensures (m + 1) * n == m * n + n
  {
  }

  lemma ExtendedSplit(words: set<string>, s: string, letters: set<char>)
    requires s !in words
    ensures Extended(words + {s}, letters) == Extended(words, letters) + Extended({s}, letters)
    ensures Extended(words, letters) !! Extended({s}, letters)
  {
    forall t | t in Extended(words + {s}, letters)
      ensures t in Extended(words, letters) + Extended({s}, letters)
    {
      var r, c :| r in words + {s} && c in letters && t == r + [c];
      assert r in words || r in {s};
    }
    forall t | t in Extended(words, letters) ensures t !in Extended({s}, letters) {
      var r, c :| r in words && c in letters && t == r + [c];
      forall d | d in letters ensures t != s + [d] {
        assert t[..|t| - 1] == r && (s + [d])[..|s|] == s;
      }
    }
  }

  lemma {:induction false} ExtendedCount(words: set<string>, letters: set<char>)
    ensures |Extended(words, letters)| == Times(|words|, |letters|)
  {
    if words == {} {
      assert Extended(words, letters) == {};
    } else {
      var s :| s in words;
      var rest := words - {s};
      ExtendedCount(rest, letters);
      OneWordExtended(s, letters);
      ExtendedSplit(rest, s, letters);
      assert rest + {s} == words && |words| == |rest| + 1;
      DisjointCount(Extended(rest, letters), Extended({s}, letters));
    }
  }

  /** All strings of one length, and their number. */
  lemma {:induction false} WordsOfLength(alphabet: string, n: nat) returns (words: set<string>)
    requires Distinct(alphabet)
    ensures forall s :: s in words <==> |s| == n && OverAlphabet(s, alphabet)
    ensures |words| == Pow(|alphabet|, n)
  {
    if n == 0 {
      words := {""};
    } else {
      var shorter := WordsOfLength(alphabet, n - 1);
      words := Extended(shorter, Letters(alphabet));
      ExtendedCount(shorter, Letters(alphabet));
      LettersCount(alphabet);
      forall s | |s| == n && OverAlphabet(s, alphabet) ensures s in words {
        assert s[..n - 1] in shorter && s[n - 1] in Letters(alphabet) && s == s[..n - 1] + [s[n - 1]];
      }
    }
  }

  lemma DisjointCount(a: set<string>, b: set<string>)
    requires a !! b
    ensures |a + b| == |a| + |b|
  {
  }

  ghost predicate HoldsTokens(pool: set<string>, alphabet: string, width: nat) {
    forall s :: s in pool <==> IsToken(s, alphabet, width)
  }

  /** The token space formula counts exactly the tokens of at most `width` characters. */
  lemma {:induction false} PoolExists(alphabet: string, width: nat) returns (pool: set<string>)
    requires Distinct(alphabet)
    ensures HoldsTokens(pool, alphabet, width)
    ensures |pool| == TokenSpace(width, |alphabet|)
  {
    if width == 0 {
      pool := {};
    } else {
      var shorter := PoolExists(alphabet, width - 1);
      var words := WordsOfLength(alphabet, width);
      DisjointCount(shorter, words);
      pool := shorter + words;
    }
  }

  lemma PoolIsSet(alphabet: string, width: nat)
    requires Distinct(alphabet)
    ensures exists pool :: HoldsTokens(pool, alphabet, width) && |pool| == TokenSpace(width, |alphabet|)
  {
    var pool := PoolExists(alphabet, width);
  }

  ghost function Pool(alphabet: string, width: nat): (pool: set<string>)
    requires Distinct(alphabet)
    ensures forall s :: s in pool <==> IsToken(s, alphabet, width)
    ensures |pool| == TokenSpace(width, |alphabet|)
  {
    PoolIsSet(alphabet, width);
    var pool :| HoldsTokens(pool, alphabet, width) && |pool| == TokenSpace(width, |alphabet|);
    pool
  }
}
