/** String helpers for topic names: Rust's `{}` formatting of integers and `/`-separated paths. */
module Text {

  function DigitChar(d: nat): (c: char)
    requires d < 10
    ensures '0' <= c <= '9'
  {
    "0123456789"[d]
  }

  /** Decimal digits of a natural number, most significant first, without leading zeros. */
  function NatToString(n: nat): (s: string)
    ensures |s| >= 1
    ensures n >= 10 ==> |s| >= 2
    ensures forall i :: 0 <= i < |s| ==> '0' <= s[i] <= '9'
    decreases n
  {
    if n < 10 then [DigitChar(n)] else NatToString(n / 10) + [DigitChar(n % 10)]
  }

  /** Rust's `Display` for a signed integer: a leading `-` for negative values. */
  function DecimalString(n: int): (s: string)
    ensures |s| >= 1
  {
    if n < 0 then "-" + NatToString(-n) else NatToString(n)
  }

  lemma DigitCharInjective(a: nat, b: nat)
    requires a < 10 && b < 10 && DigitChar(a) == DigitChar(b)
    ensures a == b
  {
  }

  /** Different naturals print differently. */
  lemma {:induction false} NatToStringInjective(a: nat, b: nat)
    requires NatToString(a) == NatToString(b)
    ensures a == b
    decreases a
  {
    var s := NatToString(a);
    if a < 10 && b < 10 {
      DigitCharInjective(a, b);
    } else if a >= 10 && b >= 10 {
      assert NatToString(a / 10) == s[..|s| - 1] == NatToString(b / 10);
      NatToStringInjective(a / 10, b / 10);
      DigitCharInjective(a % 10, b % 10);
    }
  }

  /** The printed form starts with `-` exactly for negative numbers. */
  lemma DecimalStringSign(n: int)
    ensures DecimalString(n)[0] == '-' <==> n < 0
  {
    if n >= 0 {
      assert '0' <= NatToString(n)[0] <= '9';
    }
  }

  /** A negative number prints as `-` followed by its magnitude. */
  lemma NegativeDigits(n: int)
    requires n < 0
    ensures DecimalString(n)[1..] == NatToString(-n)
  {
  }

  /** Different integers print differently. */
  lemma DecimalStringInjective(a: int, b: int)
    requires DecimalString(a) == DecimalString(b)
    ensures a == b
  {
    DecimalStringSign(a);
    DecimalStringSign(b);
    if a < 0 {
      NegativeDigits(a);
      NegativeDigits(b);
      NatToStringInjective(-a, -b);
    } else {
      NatToStringInjective(a, b);
    }
  }

  ghost predicate SlashFree(s: string)
  {
    forall i :: 0 <= i < |s| ==> s[i] != '/'
  }

  /** `prefix/name`, the way every topic below is extended by one level. */
  function Child(prefix: string, name: string): (t: string)
    ensures |t| == |prefix| + 1 + |name|
  {
    prefix + "/" + name
  }

  /** Children of one parent are equal only when their names are. */
  lemma ChildOfSameParent(p: string, a: string, b: string)
    requires Child(p, a) == Child(p, b)
    ensures a == b
  {
    assert a == Child(p, a)[|p| + 1..];
  }

  ghost predicate HasPrefix(p: string, s: string)
  {
    |p| <= |s| && s[..|p|] == p
  }

  /** Everything before the last `/` (empty when there is none). */
  function Parent(s: string): string
    decreases |s|
  {
    if s == [] then []
    else if s[|s| - 1] == '/' then s[..|s| - 1]
    else Parent(s[..|s| - 1])
  }

  /** A child whose name holds no `/` has its prefix as parent. */
  lemma {:induction false} ParentOfChild(p: string, g: string)
    requires SlashFree(g)
    ensures Parent(Child(p, g)) == p
    decreases |g|
  {
    var s := Child(p, g);
    if g == [] {
      assert s[..|s| - 1] == p;
    } else {
      assert s[..|s| - 1] == Child(p, g[..|g| - 1]);
      ParentOfChild(p, g[..|g| - 1]);
    }
  }

  /** A grandchild of `p` lies under `p/`. */
  lemma GrandchildUnder(p: string, b: string, g: string)
    ensures HasPrefix(p + "/", Child(Child(p, b), g))
  {
    assert Child(Child(p, b), g)[..|p| + 1] == p + "/";
  }

  /** The parent is a prefix of the topic. */
  lemma {:induction false} ParentIsPrefix(s: string)
    ensures HasPrefix(Parent(s), s)
    decreases |s|
  {
    if s != [] && s[|s| - 1] != '/' {
      ParentIsPrefix(s[..|s| - 1]);
      assert s[..|s| - 1][..|Parent(s)|] == s[..|Parent(s)|];
    }
  }

  lemma PrefixTransitive(p: string, q: string, s: string)
    requires HasPrefix(p, q) && HasPrefix(q, s)
    ensures HasPrefix(p, s)
  {
    assert s[..|q|][..|p|] == s[..|p|];
  }
}
