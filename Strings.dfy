/**
 * The JavaScript string operations the core relies on: `split` and `join`
 * over a one-character separator, and the decimal rendering of integers that
 * `Number.prototype.toString` produces for whole numbers.
 */
module Strings {

  /** Joins `parts` with `sep` between consecutive elements; `[].join(sep)` is `""`. */
  function Join(parts: seq<string>, sep: char): string
  {
    if |parts| == 0 then ""
    else if |parts| == 1 then parts[0]
    else parts[0] + [sep] + Join(parts[1..], sep)
  }

  /**
   * `s.split(sep)` for a one-character separator: the maximal runs of `s`
   * between separators, so the result always has at least one element and
   * `"".split(sep)` is `[""]`.
   */
  function Split(s: string, sep: char): (r: seq<string>)
    ensures |r| >= 1
    decreases |s|
  {
    if |s| == 0 then [""]
    else
      var rest := Split(s[1..], sep);
      if s[0] == sep then [""] + rest
      else [[s[0]] + rest[0]] + rest[1..]
  }

  /** No element of `parts` contains `sep`. */
  predicate NoneContains(parts: seq<string>, sep: char)
  {
    forall i :: 0 <= i < |parts| ==> sep !in parts[i]
  }

  lemma {:induction false} SplitHasNoSeparator(s: string, sep: char)
    ensures NoneContains(Split(s, sep), sep)
    decreases |s|
  {
    if |s| > 0 {
      SplitHasNoSeparator(s[1..], sep);
      var rest := Split(s[1..], sep);
      if s[0] != sep {
        assert sep !in [s[0]] + rest[0];
        var r := Split(s, sep);
        forall i | 0 <= i < |r| ensures sep !in r[i] {
          if i > 0 { assert r[i] == rest[i]; }
        }
      }
    }
  }

  /** `split` followed by `join` gives back the original string. */
  lemma {:induction false} JoinSplit(s: string, sep: char)
    ensures Join(Split(s, sep), sep) == s
    decreases |s|
  {
    if |s| > 0 {
      JoinSplit(s[1..], sep);
      var rest := Split(s[1..], sep);
      if s[0] == sep {
        assert Join([""] + rest, sep) == "" + [sep] + Join(rest, sep);
      } else {
        var r := [[s[0]] + rest[0]] + rest[1..];
        if |rest| == 1 {
          assert r == [[s[0]] + rest[0]];
        } else {
          assert r[1..] == rest[1..];
          assert Join(rest, sep) == rest[0] + [sep] + Join(rest[1..], sep);
        }
      }
    }
  }

  /** A string without the separator splits into itself alone. */
  lemma {:induction false} SplitWithoutSeparator(a: string, sep: char)
    requires sep !in a
    ensures Split(a, sep) == [a]
    decreases |a|
  {
    if |a| > 0 {
      SplitWithoutSeparator(a[1..], sep);
      assert [a[0]] + a[1..] == a;
    }
  }

  /** Splitting `a + sep + s` where `a` has no separator peels off `a`. */
  lemma {:induction false} SplitAfterPrefix(a: string, s: string, sep: char)
    requires sep !in a
    ensures Split(a + [sep] + s, sep) == [a] + Split(s, sep)
    decreases |a|
  {
    if |a| == 0 {
      assert a + [sep] + s == [sep] + s;
      assert ([sep] + s)[1..] == s;
    } else {
      assert (a + [sep] + s)[1..] == a[1..] + [sep] + s;
      SplitAfterPrefix(a[1..], s, sep);
      assert [a[0]] + a[1..] == a;
    }
  }

  /** `join` followed by `split` gives back the parts when none holds the separator. */
  lemma {:induction false} SplitJoin(parts: seq<string>, sep: char)
    requires |parts| >= 1
    requires NoneContains(parts, sep)
    ensures Split(Join(parts, sep), sep) == parts
    decreases |parts|
  {
    if |parts| == 1 {
      SplitWithoutSeparator(parts[0], sep);
    } else {
      SplitJoin(parts[1..], sep);
      SplitAfterPrefix(parts[0], Join(parts[1..], sep), sep);
    }
  }

  /** Joining a concatenation puts one separator between the two joins. */
  lemma {:induction false} JoinAppend(a: seq<string>, b: seq<string>, sep: char)
    requires |a| >= 1 && |b| >= 1
    ensures Join(a + b, sep) == Join(a, sep) + [sep] + Join(b, sep)
    decreases |a|
  {
    if |a| == 1 {
      assert (a + b)[1..] == b;
    } else {
      JoinAppend(a[1..], b, sep);
      assert (a + b)[1..] == a[1..] + b;
    }
  }

  /** Every element of `groups` taken in order, one after another. */
  function Flatten(groups: seq<seq<string>>): (r: seq<string>)
  {
    if |groups| == 0 then [] else groups[0] + Flatten(groups[1..])
  }

  lemma NoneContainsAppend(a: seq<string>, b: seq<string>, sep: char)
    requires NoneContains(a, sep) && NoneContains(b, sep)
    ensures NoneContains(a + b, sep)
  {
    forall k | 0 <= k < |a + b| ensures sep !in (a + b)[k] {
      if k >= |a| { assert (a + b)[k] == b[k - |a|]; }
    }
  }

  /** Flattening groups free of `sep` gives parts free of `sep`. */
  lemma {:induction false} FlattenNoneContains(groups: seq<seq<string>>, sep: char)
    requires forall i :: 0 <= i < |groups| ==> NoneContains(groups[i], sep)
    ensures NoneContains(Flatten(groups), sep)
    decreases |groups|
  {
    if |groups| > 0 {
      FlattenNoneContains(groups[1..], sep);
      NoneContainsAppend(groups[0], Flatten(groups[1..]), sep);
    }
  }

  /** Each group joined on its own: `groups.map(g => g.join(sep))`. */
  function JoinEach(groups: seq<seq<string>>, sep: char): (r: seq<string>)
    ensures |r| == |groups|
    ensures forall i :: 0 <= i < |groups| ==> r[i] == Join(groups[i], sep)
  {
    seq(|groups|, i requires 0 <= i < |groups| => Join(groups[i], sep))
  }

  /**
   * Joining the joins of non-empty groups equals joining all their elements:
   * a `map` whose items are themselves `join`ed lines, then `join`ed with the
   * same separator, is just the flat list of lines.
   */
  lemma {:induction false} JoinFlatten(groups: seq<seq<string>>, sep: char)
    requires forall i :: 0 <= i < |groups| ==> |groups[i]| >= 1
    ensures Join(JoinEach(groups, sep), sep) == Join(Flatten(groups), sep)
    decreases |groups|
  {
    var joined := JoinEach(groups, sep);
    if |groups| > 1 {
      var tail := groups[1..];
      JoinFlatten(tail, sep);
      assert joined[1..] == JoinEach(tail, sep);
      FlattenNonEmpty(tail);
      JoinAppend(groups[0], Flatten(tail), sep);
    } else if |groups| == 1 {
      assert Flatten(groups) == groups[0] + Flatten(groups[1..]);
      assert groups[0] + [] == groups[0];
    }
  }

  lemma {:induction false} FlattenNonEmpty(groups: seq<seq<string>>)
    requires |groups| >= 1
    requires forall i :: 0 <= i < |groups| ==> |groups[i]| >= 1
    ensures |Flatten(groups)| >= 1
  {
    assert |Flatten(groups)| >= |groups[0]|;
  }

  /** Flattening distributes over concatenation. */
  lemma {:induction false} FlattenAppend(a: seq<seq<string>>, b: seq<seq<string>>)
    ensures Flatten(a + b) == Flatten(a) + Flatten(b)
    decreases |a|
  {
    if |a| == 0 {
      assert a + b == b;
    } else {
      FlattenAppend(a[1..], b);
      assert (a + b)[1..] == a[1..] + b;
    }
  }

  lemma FlattenSingle(g: seq<string>)
    ensures Flatten([g]) == g
  {
    assert Flatten([g]) == g + Flatten([]);
  }

  /** Flattening groups of two puts group `i` at positions `2i` and `2i + 1`. */
  lemma {:induction false} FlattenPairs(groups: seq<seq<string>>, i: nat)
    requires forall j :: 0 <= j < |groups| ==> |groups[j]| == 2
    requires i < |groups|
    ensures |Flatten(groups)| == 2 * |groups|
    ensures Flatten(groups)[2 * i] == groups[i][0]
    ensures Flatten(groups)[2 * i + 1] == groups[i][1]
    decreases |groups|
  {
    if i == 0 {
      if |groups| > 1 {
        FlattenPairs(groups[1..], 0);
      } else {
        assert Flatten(groups) == groups[0] + Flatten([]);
      }
    } else {
      FlattenPairs(groups[1..], i - 1);
    }
  }

  /** The first piece of a split is the longest separator-free prefix. */
  lemma {:induction false} SplitFirstIsPrefix(s: string, sep: char)
    ensures var first := Split(s, sep)[0];
      && |first| <= |s| && s[..|first|] == first && sep !in first
      && (|first| == |s| || s[|first|] == sep)
    decreases |s|
  {
    if |s| > 0 {
      SplitFirstIsPrefix(s[1..], sep);
    }
  }

  /** The last piece of a split is the longest separator-free suffix. */
  lemma {:induction false} SplitLastIsSuffix(s: string, sep: char)
    ensures var parts := Split(s, sep); var last := parts[|parts| - 1];
      && |last| <= |s| && s[|s| - |last|..] == last && sep !in last
      && (|last| == |s| || s[|s| - |last| - 1] == sep)
    decreases |s|
  {
    if |s| > 0 {
      var t := s[1..];
      SplitLastIsSuffix(t, sep);
      var rest := Split(t, sep);
      var tail := rest[|rest| - 1];
      var parts := Split(s, sep);
      if s[0] != sep && |rest| == 1 {
        JoinSplit(t, sep);
        assert tail == t;
        assert parts[|parts| - 1] == [s[0]] + t == s;
      } else {
        assert parts[|parts| - 1] == tail;
        if |tail| == |t| {
          assert tail == t;
          SplitWithoutSeparator(t, sep);
        }
        assert s[|s| - |tail|..] == t[|t| - |tail|..];
      }
    }
  }

  // ---------------------------------------------------------------------
  // Decimal rendering of integers

  predicate IsDigit(c: char)
  {
    '0' <= c <= '9'
  }

  predicate AllDigits(s: string)
  {
    forall i :: 0 <= i < |s| ==> IsDigit(s[i])
  }

  function DigitChar(d: nat): (c: char)
    requires d < 10
    ensures IsDigit(c)
  {
    (48 + d) as char
  }

  function DigitValue(c: char): (d: nat)
    requires IsDigit(c)
    ensures d < 10
  {
    c as int - 48
  }

  /** The decimal digits of `n`, without leading zeros. */
  function NatToString(n: nat): (r: string)
    ensures |r| >= 1 && AllDigits(r)
    ensures n >= 10 ==> r[0] != '0'
    decreases n
  {
    if n < 10 then [DigitChar(n)]
    else NatToString(n / 10) + [DigitChar(n % 10)]
  }

  /** `i.toString()` for a whole number: a minus sign and the digits of `-i` when negative. */
  function IntToString(i: int): (r: string)
    ensures |r| >= 1
    ensures i >= 0 <==> AllDigits(r)
    ensures forall k :: 0 <= k < |r| ==> r[k] == '-' || IsDigit(r[k])
  {
    if i < 0 then
      var r := "-" + NatToString(-i);
      assert !IsDigit(r[0]);
      r
    else NatToString(i)
  }

  /**
   * The decimal text of an integer reads back as that integer: its digits
   * when it is not negative, and a minus sign followed by the digits of its
   * magnitude when it is.
   */
  lemma IntToStringReadsBack(i: int)
    ensures var r := IntToString(i);
      && (i >= 0 ==> AllDigits(r) && ParseNat(r) == i)
      && (i < 0 ==> |r| >= 2 && r[0] == '-' && AllDigits(r[1..]) && ParseNat(r[1..]) == -i)
  {
    if i < 0 {
      var r := IntToString(i);
      assert r[1..] == NatToString(-i);
      ParseNatToString(-i);
    } else {
      ParseNatToString(i);
    }
  }

  /** The value of a string of decimal digits; leading zeros are allowed. */
  function ParseNat(s: string): nat
    requires AllDigits(s)
  {
    if |s| == 0 then 0 else ParseNat(s[..|s| - 1]) * 10 + DigitValue(s[|s| - 1])
  }

  /** Reading back the decimal rendering of `n` gives `n`. */
  lemma {:induction false} ParseNatToString(n: nat)
    ensures ParseNat(NatToString(n)) == n
    decreases n
  {
    if n >= 10 {
      ParseNatToString(n / 10);
      var s := NatToString(n);
      assert s[..|s| - 1] == NatToString(n / 10);
    }
  }

  /** Different numbers have different renderings. */
  lemma NatToStringInjective(a: nat, b: nat)
    requires NatToString(a) == NatToString(b)
    ensures a == b
  {
    ParseNatToString(a);
    ParseNatToString(b);
  }

  function Zeros(k: nat): (r: string)
    ensures |r| == k && AllDigits(r)
    ensures forall i :: 0 <= i < k ==> r[i] == '0'
  {
    seq(k, _ => '0')
  }

  /** Leading zeros do not change the value of a digit string. */
  lemma {:induction false} ParseNatLeadingZeros(k: nat, s: string)
    requires AllDigits(s)
    ensures ParseNat(Zeros(k) + s) == ParseNat(s)
    decreases |s|
  {
    var t := Zeros(k) + s;
    if |s| == 0 {
      assert t == Zeros(k);
      ParseNatZeros(k);
    } else {
      assert t[..|t| - 1] == Zeros(k) + s[..|s| - 1];
      ParseNatLeadingZeros(k, s[..|s| - 1]);
    }
  }

  lemma {:induction false} ParseNatZeros(k: nat)
    ensures ParseNat(Zeros(k)) == 0
  {
    if k > 0 {
      assert Zeros(k)[..k - 1] == Zeros(k - 1);
      ParseNatZeros(k - 1);
    }
  }

  function Pow10(k: nat): (r: nat)
    ensures r >= 1
  {
    if k == 0 then 1 else 10 * Pow10(k - 1)
  }

  /** A number below `10^k` has at most `k` digits. */
  lemma {:induction false} NatToStringWidth(n: nat, k: nat)
    requires 1 <= k && n < Pow10(k)
    ensures |NatToString(n)| <= k
    decreases k
  {
    if n >= 10 {
      NatToStringWidth(n / 10, k - 1);
    }
  }}
