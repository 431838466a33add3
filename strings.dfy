/**
 * The few `java.lang.String` operations the application relies on, on ASCII text:
 * case folding, `equalsIgnoreCase`, `String.join`/`Collectors.joining`,
 * `Integer.toString`, and the space split that the JWT scope claim is read back with.
 */
module Strings {

  /** `Character.toLowerCase` restricted to ASCII. */
  function LowerChar(c: char): char
  {
    if 'A' <= c <= 'Z' then (c as int + 32) as char else c
  }

  /** `String.toLowerCase`, ASCII only. */
  function Lower(s: string): (r: string)
    ensures |r| == |s|
    ensures forall i :: 0 <= i < |s| ==> r[i] == LowerChar(s[i])
  {
    if s == [] then [] else [LowerChar(s[0])] + Lower(s[1..])
  }

  /** No ASCII upper-case letter occurs in `s`. */
  predicate NoUpper(s: string)
  {
    forall i :: 0 <= i < |s| ==> !('A' <= s[i] <= 'Z')
  }

  /** Lower-casing leaves a string without upper-case letters as it is. */
  lemma LowerOfNoUpper(s: string)
    requires NoUpper(s)
    ensures Lower(s) == s
  {
  }

  /** `a.equalsIgnoreCase(b)`: same length and the same characters once case is folded. */
  predicate EqualsIgnoreCase(a: string, b: string)
  {
    |a| == |b| && forall i :: 0 <= i < |a| ==> LowerChar(a[i]) == LowerChar(b[i])
  }

  lemma EqualsIgnoreCaseIsLowerEquality(a: string, b: string)
    ensures EqualsIgnoreCase(a, b) <==> Lower(a) == Lower(b)
  {
    if Lower(a) == Lower(b) {
      assert |a| == |b|;
      forall i | 0 <= i < |a| ensures LowerChar(a[i]) == LowerChar(b[i]) {
        assert Lower(a)[i] == Lower(b)[i];
      }
    }
  }

  /** `String.join(sep, xs)`: the elements in order with `sep` between neighbours. */
  function Join(sep: string, xs: seq<string>): string
    decreases |xs|
  {
    if |xs| == 0 then ""
    else if |xs| == 1 then xs[0]
    else xs[0] + sep + Join(sep, xs[1..])
  }

  /** The concatenation of `prefix + x` over the elements `x` of `xs`, in order. */
  function ConcatPrefixed(prefix: string, xs: seq<string>): string
    decreases |xs|
  {
    if |xs| == 0 then "" else prefix + xs[0] + ConcatPrefixed(prefix, xs[1..])
  }

  /** The concatenation of the elements of `xs`, in order. */
  function Concat(xs: seq<string>): string
    decreases |xs|
  {
    if |xs| == 0 then "" else xs[0] + Concat(xs[1..])
  }

  /** Prefixing each element and concatenating is concatenating the prefixed elements. */
  lemma {:induction false} ConcatPrefixedIsConcat(prefix: string, xs: seq<string>, ys: seq<string>)
    requires |xs| == |ys|
    requires forall i :: 0 <= i < |xs| ==> ys[i] == prefix + xs[i]
    ensures ConcatPrefixed(prefix, xs) == Concat(ys)
    decreases |xs|
  {
    if |xs| > 0 {
      ConcatPrefixedIsConcat(prefix, xs[1..], ys[1..]);
    }
  }

  /** Putting the separator in front of a non-empty join gives one `sep + x` segment per element. */
  lemma {:induction false} PrefixedJoin(sep: string, xs: seq<string>)
    requires |xs| >= 1
    ensures sep + Join(sep, xs) == ConcatPrefixed(sep, xs)
    decreases |xs|
  {
    if |xs| == 1 {
      assert ConcatPrefixed(sep, xs[1..]) == "";
    } else {
      PrefixedJoin(sep, xs[1..]);
      calc {
        sep + Join(sep, xs);
        sep + (xs[0] + sep + Join(sep, xs[1..]));
        (sep + xs[0]) + (sep + Join(sep, xs[1..]));
        (sep + xs[0]) + ConcatPrefixed(sep, xs[1..]);
      }
    }
  }

  /**
   * The fields of `s` between occurrences of `sep`, empty fields included
   * (one more field than there are separators).
   */
  function SplitOn(s: string, sep: char): (r: seq<string>)
    ensures |r| >= 1
    decreases |s|
  {
    if |s| == 0 then [""]
    else
      var rest := SplitOn(s[1..], sep);
      if s[0] == sep then [""] + rest else [[s[0]] + rest[0]] + rest[1..]
  }

  lemma {:induction false} SplitOnWithoutSeparator(a: string, sep: char)
    requires sep !in a
    ensures SplitOn(a, sep) == [a]
    decreases |a|
  {
    if |a| > 0 {
      SplitOnWithoutSeparator(a[1..], sep);
      assert [a[0]] + a[1..] == a;
    }
  }

  lemma {:induction false} SplitOnAfterField(a: string, sep: char, b: string)
    requires sep !in a
    ensures SplitOn(a + [sep] + b, sep) == [a] + SplitOn(b, sep)
    decreases |a|
  {
    var s := a + [sep] + b;
    if |a| == 0 {
      assert s[1..] == b;
    } else {
      assert s[1..] == a[1..] + [sep] + b;
      SplitOnAfterField(a[1..], sep, b);
      assert [a[0]] + a[1..] == a;
    }
  }

  /**
   * Splitting a join on its one-character separator gives the elements back,
   * provided none of them contains the separator.
   */
  lemma {:induction false} SplitOnJoin(xs: seq<string>, sep: char)
    requires |xs| >= 1
    requires forall i :: 0 <= i < |xs| ==> sep !in xs[i]
    ensures SplitOn(Join([sep], xs), sep) == xs
    decreases |xs|
  {
    if |xs| == 1 {
      SplitOnWithoutSeparator(xs[0], sep);
    } else {
      SplitOnJoin(xs[1..], sep);
      SplitOnAfterField(xs[0], sep, Join([sep], xs[1..]));
      assert [xs[0]] + xs[1..] == xs;
    }
  }

  /** The decimal digit for `d`. */
  function DigitChar(d: int): char
    requires 0 <= d < 10
  {
    ('0' as int + d) as char
  }

  /** `Integer.toString` for a non-negative value: decimal, no leading zeros. */
  function NatToString(n: nat): (r: string)
    ensures |r| >= 1
    ensures forall i :: 0 <= i < |r| ==> '0' <= r[i] <= '9'
    ensures |r| == 1 <==> n < 10
    decreases n
  {
    if n < 10 then [DigitChar(n)] else NatToString(n / 10) + [DigitChar(n % 10)]
  }

  /** `Integer.toString`: decimal, with a leading minus sign for negative values. */
  function IntToString(i: int): (r: string)
    ensures |r| >= 1
    ensures r[0] == '-' <==> i < 0
  {
    if i < 0 then "-" + NatToString(-i) else NatToString(i)
  }

  lemma {:induction false} NatToStringInjective(a: nat, b: nat)
    requires NatToString(a) == NatToString(b)
    ensures a == b
    decreases a
  {
    var s := NatToString(a);
    if a >= 10 && b >= 10 {
      assert s[|s| - 1] == DigitChar(a % 10) == DigitChar(b % 10);
      assert NatToString(a / 10) == s[..|s| - 1] == NatToString(b / 10);
      NatToStringInjective(a / 10, b / 10);
    }
  }

  /** Distinct integers print differently, so a printed id names exactly one id. */
  lemma IntToStringInjective(a: int, b: int)
    requires IntToString(a) == IntToString(b)
    ensures a == b
  {
    if a < 0 {
      assert NatToString(-a) == IntToString(a)[1..] == NatToString(-b);
      NatToStringInjective(-a, -b);
    } else {
      NatToStringInjective(a, b);
    }
  }
}
