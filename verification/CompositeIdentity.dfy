/** The canonical grouping identity of composite keys (engine/state.py): a length-prefixed
    encoding. Text components are given by their UTF-8 image. */
module CompositeIdentity {

  datatype Component = Txt(s: string) | Num(n: int)

  type Key = seq<Component>

  function Digit(d: nat): char
    requires d < 10
  {
    "0123456789"[d]
  }

  predicate IsDigit(c: char) {
    '0' <= c <= '9'
  }

  function Decimal(n: nat): (s: string)
    ensures |s| > 0 && forall i :: 0 <= i < |s| ==> IsDigit(s[i])
  {
    if n < 10 then [Digit(n)] else Decimal(n / 10) + [Digit(n % 10)]
  }

  function IntText(n: int): string {
    if n < 0 then "-" + Decimal(-n) else Decimal(n)
  }

  function EncodeComponent(c: Component): string {
    match c
    case Txt(s) => "T" + Decimal(|s|) + ":" + s
    case Num(n) => "N" + Decimal(|IntText(n)|) + "|" + IntText(n)
  }

  function EncodeComponents(k: Key): string {
    if k == [] then "" else "\0" + EncodeComponent(k[0]) + EncodeComponents(k[1..])
  }

  /** `canonical_composite_identity` */
  function Encode(k: Key): string {
    Decimal(|k|) + EncodeComponents(k)
  }

  lemma {:induction false} DecimalInjective(m: nat, n: nat)
    requires Decimal(m) == Decimal(n)
    ensures m == n
  {
    var s := Decimal(m);
    assert s[|s| - 1] == Digit(m % 10) && s[|s| - 1] == Digit(n % 10);
    DigitInjective(m % 10, n % 10);
    if m >= 10 && n >= 10 {
      assert s[..|s| - 1] == Decimal(m / 10) && s[..|s| - 1] == Decimal(n / 10);
      DecimalInjective(m / 10, n / 10);
    }
  }

  lemma DigitInjective(a: nat, b: nat)
    requires a < 10 && b < 10 && Digit(a) == Digit(b)
    ensures a == b
  {
  }

  lemma SignsDiffer(m: int, n: int)
    requires m < 0 <= n
    ensures IntText(m) != IntText(n)
  {
    assert IntText(m)[0] == '-';
  }

  lemma IntTextInjective(m: int, n: int)
    requires IntText(m) == IntText(n)
    ensures m == n
  {
    if m < 0 && n < 0 {
      assert IntText(m)[1..] == Decimal(-m) && IntText(n)[1..] == Decimal(-n);
      DecimalInjective(-m, -n);
    } else if m >= 0 && n >= 0 {
      DecimalInjective(m, n);
    } else {
      SignsDiffer(if m < 0 then m else n, if m < 0 then n else m);
    }
  }

  ghost predicate EndsDigits(rest: string) {
    rest == "" || !IsDigit(rest[0])
  }

  /** The length of the leading run of digits. */
  function DigitRun(s: string): nat {
    if s == "" || !IsDigit(s[0]) then 0 else 1 + DigitRun(s[1..])
  }

  lemma {:induction false} RunOfDigits(digits: string, rest: string)
    requires EndsDigits(rest) && forall i :: 0 <= i < |digits| ==> IsDigit(digits[i])
    ensures DigitRun(digits + rest) == |digits|
  {
    if digits == "" {
      assert digits + rest == rest;
    } else {
      RunOfDigits(digits[1..], rest);
      assert (digits + rest)[1..] == digits[1..] + rest;
    }
  }

  /** A decimal prefix followed by a non-digit can be read back. */
  lemma DecimalPrefix(m: nat, x: string, n: nat, y: string)
    requires EndsDigits(x) && EndsDigits(y)
    requires Decimal(m) + x == Decimal(n) + y
    ensures m == n && x == y
  {
    var a, b := Decimal(m), Decimal(n);
    RunOfDigits(a, x);
    RunOfDigits(b, y);
    assert a == (a + x)[..|a|] && b == (b + y)[..|b|];
    DecimalInjective(m, n);
    assert x == (a + x)[|a|..] && y == (b + y)[|b|..];
  }

  /** A length-prefixed body can be read back. */
  lemma BodyPrefix(sep: char, s: string, x: string, t: string, y: string)
    requires !IsDigit(sep)
    requires Decimal(|s|) + ([sep] + s + x) == Decimal(|t|) + ([sep] + t + y)
    ensures s == t && x == y
  {
    var p, q := [sep] + s + x, [sep] + t + y;
    DecimalPrefix(|s|, p, |t|, q);
    assert p[1..|s| + 1] == s && q[1..|t| + 1] == t;
    assert p[|s| + 1..] == x && q[|t| + 1..] == y;
  }

  function Tag(c: Component): char {
    if c.Txt? then 'T' else 'N'
  }

  function Separator(c: Component): char {
    if c.Txt? then ':' else '|'
  }

  function Body(c: Component): string {
    if c.Txt? then c.s else IntText(c.n)
  }

  lemma ComponentShape(c: Component, x: string)
    ensures EncodeComponent(c) + x ==
            [Tag(c)] + (Decimal(|Body(c)|) + ([Separator(c)] + Body(c) + x))
  {
  }

  lemma HeadPrefix(a: char, x: string, b: char, y: string)
    requires [a] + x == [b] + y
    ensures a == b && x == y
  {
    assert ([a] + x)[0] == ([b] + y)[0];
    assert ([a] + x)[1..] == x && ([b] + y)[1..] == y;
  }

  lemma ComponentPrefix(c: Component, x: string, d: Component, y: string)
    requires EncodeComponent(c) + x == EncodeComponent(d) + y
    ensures c == d && x == y
  {
    ComponentShape(c, x);
    ComponentShape(d, y);
    var s, t := Body(c), Body(d);
    HeadPrefix(Tag(c), Decimal(|s|) + ([Separator(c)] + s + x),
               Tag(d), Decimal(|t|) + ([Separator(d)] + t + y));
    BodyPrefix(Separator(c), s, x, t, y);
    if c.Num? {
      IntTextInjective(c.n, d.n);
    }
  }

  lemma ComponentsShape(k: Key)
    requires k != []
    ensures EncodeComponents(k) == ['\0'] + (EncodeComponent(k[0]) + EncodeComponents(k[1..]))
  {
  }

  lemma {:induction false} ComponentsInjective(k: Key, l: Key)
    requires EncodeComponents(k) == EncodeComponents(l)
    ensures k == l
  {
    if k != [] && l != [] {
      ComponentsShape(k);
      ComponentsShape(l);
      var x, y := EncodeComponents(k[1..]), EncodeComponents(l[1..]);
      HeadPrefix('\0', EncodeComponent(k[0]) + x, '\0', EncodeComponent(l[0]) + y);
      ComponentPrefix(k[0], x, l[0], y);
      ComponentsInjective(k[1..], l[1..]);
      assert k == [k[0]] + k[1..] && l == [l[0]] + l[1..];
    }
  }

  /** Equal identities mean equal key tuples, for every arity and component mix. */
  lemma EncodeInjective(k: Key, l: Key)
    ensures Encode(k) == Encode(l) <==> k == l
  {
    if Encode(k) == Encode(l) {
      DecimalPrefix(|k|, EncodeComponents(k), |l|, EncodeComponents(l));
      ComponentsInjective(k, l);
    }
  }
}
