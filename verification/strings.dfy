/**
 * The JavaScript string operations the pipeline relies on, over `seq<char>`:
 * whitespace trimming (`trim`), ASCII lower-casing (`toLowerCase`),
 * substring search (`includes`), `split` on a literal separator, `join`,
 * and the decimal rendering of a natural number (template `${n}`).
 * Whitespace and case are ASCII only.
 */
module Strings {

  /** ASCII whitespace: space, tab, line feed, vertical tab, form feed, carriage return. */
  predicate IsSpace(c: char)
  {
    c == ' ' || c == '\t' || c == '\n' || c == '\r' || c as int == 11 || c as int == 12
  }

  predicate IsDigit(c: char)
  {
    '0' <= c <= '9'
  }

  predicate IsPrefix(p: string, s: string)
  {
    |p| <= |s| && s[..|p|] == p
  }

  predicate IsSuffix(p: string, s: string)
  {
    |p| <= |s| && s[|s| - |p|..] == p
  }

  lemma SuffixTransitive(c: string, b: string, a: string)
    requires IsSuffix(c, b) && IsSuffix(b, a)
    ensures IsSuffix(c, a)
  {
    assert a[|a| - |c|..] == b[|b| - |c|..];
  }

  /** Dropping a prefix leaves a suffix. */
  lemma DropIsSuffix(s: string, k: nat)
    requires k <= |s|
    ensures IsSuffix(s[k..], s)
  {
  }

  /** A suffix of a suffix is a suffix, stated for a piece `a` known as `s[|s| - |a|..]`. */
  lemma SuffixOfSuffix(r: string, a: string, s: string)
    requires |r| <= |a| && r == a[|a| - |r|..]
    requires IsSuffix(a, s)
    ensures IsSuffix(r, s)
  {
    assert s[|s| - |r|..] == a[|a| - |r|..];
  }

  /** `r` occurs as a contiguous piece of `s`. */
  predicate IsInfix(r: string, s: string)
  {
    exists i, j | 0 <= i <= j <= |s| :: s[i..j] == r
  }

  /** No leading and no trailing whitespace. */
  predicate IsTrimmed(s: string)
  {
    s == [] || (!IsSpace(s[0]) && !IsSpace(s[|s| - 1]))
  }

  /** Leading whitespace removed: the result is the suffix that starts at the first non-space. */
  function TrimStart(s: string): (r: string)
    ensures |r| <= |s| && r == s[|s| - |r|..]
    ensures r == [] || !IsSpace(r[0])
    decreases |s|
  {
    if s != [] && IsSpace(s[0]) then TrimStart(s[1..]) else s
  }

  /** A string that does not start with whitespace is left as it is. */
  lemma TrimStartKeeps(s: string)
    requires s == [] || !IsSpace(s[0])
    ensures TrimStart(s) == s
  {
  }

  lemma TrimStartSpace(c: char, s: string)
    requires IsSpace(c)
    ensures TrimStart([c] + s) == TrimStart(s)
  {
    assert ([c] + s)[1..] == s;
  }

  /** Only whitespace is removed from the front. */
  lemma {:induction false} TrimStartDropsSpaces(s: string)
    ensures forall i :: 0 <= i < |s| - |TrimStart(s)| ==> IsSpace(s[i])
    decreases |s|
  {
    if s != [] && IsSpace(s[0]) {
      TrimStartDropsSpaces(s[1..]);
      assert forall i :: 1 <= i < |s| ==> s[i] == s[1..][i - 1];
    }
  }

  /** Trailing whitespace removed: the result is the prefix that ends at the last non-space. */
  function TrimEnd(s: string): (r: string)
    ensures |r| <= |s| && r == s[..|r|]
    ensures r == [] || !IsSpace(r[|r| - 1])
    decreases |s|
  {
    if s != [] && IsSpace(s[|s| - 1]) then TrimEnd(s[..|s| - 1]) else s
  }

  /** Only whitespace is removed from the back. */
  lemma {:induction false} TrimEndDropsSpaces(s: string)
    ensures forall i :: |TrimEnd(s)| <= i < |s| ==> IsSpace(s[i])
    decreases |s|
  {
    if s != [] && IsSpace(s[|s| - 1]) {
      TrimEndDropsSpaces(s[..|s| - 1]);
    }
  }

  /**
   * JavaScript `String.prototype.trim`: the piece of `s` left once the
   * whitespace at its two ends is removed, and nothing else.
   */
  function Trim(s: string): (r: string)
    ensures IsTrimmed(r)
    ensures |r| <= |s|
    ensures exists i, j :: 0 <= i <= j <= |s| && r == s[i..j] && AllSpace(s[..i]) && AllSpace(s[j..])
  {
    var a := TrimStart(s);
    TrimStartFront(s);
    TrimEndBack(a);
    PieceBetween(s, a, TrimEnd(a));
    TrimEnd(a)
  }

  /** A prefix `r` of a suffix `a` of `s` is the piece of `s` between what the two leave out. */
  lemma PieceBetween(s: string, a: string, r: string)
    requires |a| <= |s| && a == s[|s| - |a|..] && |r| <= |a| && r == a[..|r|]
    requires AllSpace(s[..|s| - |a|]) && AllSpace(a[|r|..])
    ensures exists i, j :: 0 <= i <= j <= |s| && r == s[i..j] && AllSpace(s[..i]) && AllSpace(s[j..])
  {
    var i := |s| - |a|;
    assert s[i..i + |r|] == r;
    assert s[i + |r|..] == a[|r|..];
  }

  /** What `TrimStart` removes is whitespace. */
  lemma TrimStartFront(s: string)
    ensures AllSpace(s[..|s| - |TrimStart(s)|])
  {
    TrimStartDropsSpaces(s);
  }

  /** What `TrimEnd` removes is whitespace. */
  lemma TrimEndBack(s: string)
    ensures AllSpace(s[|TrimEnd(s)|..])
  {
    var r := TrimEnd(s);
    TrimEndDropsSpaces(s);
    forall k | 0 <= k < |s| - |r| ensures IsSpace(s[|r|..][k]) {
      assert s[|r|..][k] == s[|r| + k];
    }
  }

  /** Every character is whitespace. */
  predicate AllSpace(s: string)
  {
    forall k :: 0 <= k < |s| ==> IsSpace(s[k])
  }

  /** The trimmed string is the piece of `s` between its leading and trailing whitespace. */
  lemma TrimIsInfix(s: string)
    ensures IsInfix(Trim(s), s)
  {
    var a := TrimStart(s);
    var r := TrimEnd(a);
    assert s[|s| - |a|..|s| - |a| + |r|] == r;
  }

  /** Trimming empties exactly the strings made only of whitespace. */
  lemma TrimEmptyIff(s: string)
    ensures Trim(s) == [] <==> forall i :: 0 <= i < |s| ==> IsSpace(s[i])
  {
    var a := TrimStart(s);
    TrimStartDropsSpaces(s);
    TrimEndDropsSpaces(a);
    if Trim(s) == [] {
      // every character of `a` is a trailing space, yet its first is not one
      assert a == [];
    }
  }

  lemma TrimmedIsFixpoint(s: string)
    requires IsTrimmed(s)
    ensures Trim(s) == s
  {
  }

  /** Anything cut out of a string without a given character has none of it either. */
  lemma InfixKeepsAbsence(r: string, s: string, c: char)
    requires IsInfix(r, s) && c !in s
    ensures c !in r
  {
    var i, j :| 0 <= i <= j <= |s| && s[i..j] == r;
    forall k | 0 <= k < |r| ensures r[k] != c {
      assert r[k] == s[i + k];
    }
  }

  function LowerChar(c: char): char
  {
    if 'A' <= c <= 'Z' then (c as int + 32) as char else c
  }

  /** ASCII `toLowerCase`. */
  function ToLower(s: string): (r: string)
    ensures |r| == |s|
    ensures forall i :: 0 <= i < |s| ==> r[i] == LowerChar(s[i])
  {
    seq(|s|, i requires 0 <= i < |s| => LowerChar(s[i]))
  }

  /** `s.includes(sub)`. */
  function Contains(s: string, sub: string): bool
    decreases |s|
  {
    IsPrefix(sub, s) || (s != [] && Contains(s[1..], sub))
  }

  /** A search for a string fails in a text that lacks one of its characters. */
  lemma ContainsNeedsChar(s: string, sub: string, c: char)
    requires c in sub && c !in s
    ensures !Contains(s, sub)
  {
    ContainsIsInfix(s, sub);
    if IsInfix(sub, s) {
      InfixKeepsAbsence(sub, s, c);
    }
  }

  /** An occurrence either starts the string or lies in its tail. */
  lemma InfixCases(sub: string, s: string)
    ensures IsInfix(sub, s) <==> IsPrefix(sub, s) || (s != [] && IsInfix(sub, s[1..]))
  {
    if IsPrefix(sub, s) {
      assert s[0..|sub|] == sub;
    }
    if s != [] && IsInfix(sub, s[1..]) {
      InfixOfTail(sub, s);
    }
    if IsInfix(sub, s) {
      InfixAtStartOrTail(sub, s);
    }
  }

  lemma InfixOfTail(sub: string, s: string)
    requires s != [] && IsInfix(sub, s[1..])
    ensures IsInfix(sub, s)
  {
    var i, j :| 0 <= i <= j <= |s[1..]| && s[1..][i..j] == sub;
    assert s[i + 1..j + 1] == s[1..][i..j];
  }

  lemma InfixAtStartOrTail(sub: string, s: string)
    requires IsInfix(sub, s)
    ensures IsPrefix(sub, s) || (s != [] && IsInfix(sub, s[1..]))
  {
    var i, j :| 0 <= i <= j <= |s| && s[i..j] == sub;
    if i == 0 {
      assert s[..|sub|] == s[i..j];
    } else {
      assert s[1..][i - 1..j - 1] == s[i..j];
    }
  }

  lemma {:induction false} ContainsIsInfix(s: string, sub: string)
    ensures Contains(s, sub) <==> IsInfix(sub, s)
    decreases |s|
  {
    InfixCases(sub, s);
    if s != [] {
      ContainsIsInfix(s[1..], sub);
    }
  }

  /**
   * `s.split(sep)` for a non-empty literal separator: the pieces between the
   * occurrences of `sep`, found left to right without overlap.
   */
  function Split(s: string, sep: string): (r: seq<string>)
    requires sep != []
    ensures |r| >= 1
    decreases |s|
  {
    if IsPrefix(sep, s) then [""] + Split(s[|sep|..], sep)
    else if s == [] then [""]
    else
      var t := Split(s[1..], sep);
      [[s[0]] + t[0]] + t[1..]
  }

  /** `xs.join(sep)`. */
  function Join(xs: seq<string>, sep: string): string
    decreases |xs|
  {
    if xs == [] then ""
    else if |xs| == 1 then xs[0]
    else xs[0] + sep + Join(xs[1..], sep)
  }

  lemma JoinConsFirst(a: string, xs: seq<string>, sep: string)
    requires |xs| >= 1
    ensures Join([a + xs[0]] + xs[1..], sep) == a + Join(xs, sep)
  {
    var ys := [a + xs[0]] + xs[1..];
    assert ys[1..] == xs[1..];
  }

  lemma JoinAfterEmpty(t: seq<string>, sep: string)
    requires |t| >= 1
    ensures Join([""] + t, sep) == sep + Join(t, sep)
  {
    assert ([""] + t)[1..] == t;
  }

  /** Joining the pieces of a split with the same separator gives the string back. */
  lemma {:induction false} JoinSplit(s: string, sep: string)
    requires sep != []
    ensures Join(Split(s, sep), sep) == s
    decreases |s|
  {
    if IsPrefix(sep, s) {
      var rest := s[|sep|..];
      JoinSplit(rest, sep);
      var t := Split(rest, sep);
      assert Split(s, sep) == [""] + t;
      JoinAfterEmpty(t, sep);
      assert s == sep + rest;
    } else if s == [] {
    } else {
      JoinSplit(s[1..], sep);
      var t := Split(s[1..], sep);
      assert Split(s, sep) == [[s[0]] + t[0]] + t[1..];
      JoinConsFirst([s[0]], t, sep);
      assert s == [s[0]] + s[1..];
    }
  }

  lemma SplitAtChar(s: string, c: char)
    requires s != [] && s[0] == c
    ensures Split(s, [c]) == [""] + Split(s[1..], [c])
  {
    assert IsPrefix([c], s);
  }

  lemma SplitAtOther(s: string, c: char)
    requires s != [] && s[0] != c
    ensures Split(s, [c]) == [[s[0]] + Split(s[1..], [c])[0]] + Split(s[1..], [c])[1..]
  {
    assert !IsPrefix([c], s) by {
      assert s[..1] == [s[0]];
    }
  }

  /**
   * With a one-character separator every occurrence is a split point, so the
   * lines of `a + [c] + b` are the lines of `a` followed by the lines of `b`.
   */
  lemma {:induction false} SplitAtSeparator(a: string, b: string, c: char)
    ensures Split(a + [c] + b, [c]) == Split(a, [c]) + Split(b, [c])
    decreases |a|
  {
    var s := a + [c] + b;
    if a == [] {
      SplitAtChar(s, c);
      assert s[1..] == b;
    } else {
      SplitAtSeparator(a[1..], b, c);
      assert a == [a[0]] + a[1..];
      SplitAtSeparatorStep(a[0], a[1..], b, c);
    }
  }

  /** The inductive step of `SplitAtSeparator`: one more character `x` in front. */
  lemma SplitAtSeparatorStep(x: char, a1: string, b: string, c: char)
    requires Split(a1 + [c] + b, [c]) == Split(a1, [c]) + Split(b, [c])
    ensures Split([x] + a1 + [c] + b, [c]) == Split([x] + a1, [c]) + Split(b, [c])
  {
    var t := a1 + [c] + b;
    assert [x] + a1 + [c] + b == [x] + t;
    var pt, pa, pb := Split(t, [c]), Split(a1, [c]), Split(b, [c]);
    if x == c {
      SplitConsSeparator(t, c);
      SplitConsSeparator(a1, c);
      assert [""] + (pa + pb) == ([""] + pa) + pb;
    } else {
      SplitConsOther(x, t, c);
      SplitConsOther(x, a1, c);
      ExtendFirstPiece(x, pt, pa, pb);
    }
  }

  /** A leading separator closes an empty first piece. */
  lemma SplitConsSeparator(t: string, c: char)
    ensures Split([c] + t, [c]) == [""] + Split(t, [c])
  {
    var s := [c] + t;
    assert s[1..] == t;
    SplitAtChar(s, c);
  }

  /** Any other leading character joins the first piece. */
  lemma SplitConsOther(x: char, t: string, c: char)
    requires x != c
    ensures Split([x] + t, [c]) == [[x] + Split(t, [c])[0]] + Split(t, [c])[1..]
  {
    var s := [x] + t;
    assert s[1..] == t;
    SplitAtOther(s, c);
  }

  /** Prefixing a character to the first piece commutes with appending more pieces. */
  lemma ExtendFirstPiece(x: char, t: seq<string>, ta: seq<string>, tb: seq<string>)
    requires t == ta + tb && |ta| >= 1
    ensures [[x] + t[0]] + t[1..] == ([[x] + ta[0]] + ta[1..]) + tb
  {
    assert t[0] == ta[0];
    assert t[1..] == ta[1..] + tb;
  }

  /** A string without the separator character is a single piece. */
  lemma {:induction false} SplitWithout(a: string, c: char)
    requires c !in a
    ensures Split(a, [c]) == [a]
    decreases |a|
  {
    if a != [] {
      assert c !in a[1..] by {
        forall k | 0 <= k < |a[1..]| ensures a[1..][k] != c {
          assert a[1..][k] == a[k + 1];
        }
      }
      SplitWithout(a[1..], c);
      SplitAtOther(a, c);
      assert a == [a[0]] + a[1..];
    }
  }

  /**
   * Splitting a join on a one-character separator gives the pieces back when
   * no piece contains that character.
   */
  lemma {:induction false} SplitJoin(xs: seq<string>, c: char)
    requires |xs| >= 1
    requires forall k :: 0 <= k < |xs| ==> c !in xs[k]
    ensures Split(Join(xs, [c]), [c]) == xs
    decreases |xs|
  {
    if |xs| == 1 {
      SplitWithout(xs[0], c);
    } else {
      SplitJoin(xs[1..], c);
      SplitAtSeparator(xs[0], Join(xs[1..], [c]), c);
      SplitWithout(xs[0], c);
      assert xs[0] + [c] + Join(xs[1..], [c]) == Join(xs, [c]);
      assert xs == [xs[0]] + xs[1..];
    }
  }

  function DigitChar(d: nat): char
    requires d < 10
  {
    ['0', '1', '2', '3', '4', '5', '6', '7', '8', '9'][d]
  }

  /** Decimal rendering of a natural number, as in the template `${n}`. */
  function NatToString(n: nat): (r: string)
    ensures r != []
    ensures forall i :: 0 <= i < |r| ==> IsDigit(r[i])
    ensures r[0] == '0' <==> n == 0
    decreases n
  {
    if n < 10 then [DigitChar(n)] else NatToString(n / 10) + [DigitChar(n % 10)]
  }

  /** The value of a string of decimal digits. */
  function DigitsValue(s: string): nat
    requires forall i :: 0 <= i < |s| ==> IsDigit(s[i])
    decreases |s|
  {
    if s == [] then 0
    else
      assert IsDigit(s[|s| - 1]);
      10 * DigitsValue(s[..|s| - 1]) + (s[|s| - 1] as int - '0' as int)
  }

  /** The rendered number reads back as the same number. */
  lemma {:induction false} NatToStringRoundTrip(n: nat)
    ensures DigitsValue(NatToString(n)) == n
    decreases n
  {
    var r := NatToString(n);
    if n < 10 {
      assert r[..0] == [];
    } else {
      NatToStringRoundTrip(n / 10);
      assert r[..|r| - 1] == NatToString(n / 10);
    }
  }
}
