/**
 * The Python string built-ins the merge tool relies on (`str.join`, `str.split`,
 * `str.strip`, `str.replace`, `str.lower`, `str(int)`, slicing), and duplicate-free
 * listings of sets, which give the unspecified iteration order of a Python `set`.
 */
module Text {

  // ---------------------------------------------------------------- join and split

  /** `sep.join(parts)`. */
  function Join(sep: string, parts: seq<string>): string
    decreases |parts|
  {
    if |parts| == 0 then ""
    else if |parts| == 1 then parts[0]
    else parts[0] + sep + Join(sep, parts[1..])
  }

  /** `s.split(sep)` for a one-character separator: the runs between separators, empty runs kept. */
  function Split(s: string, sep: char): (r: seq<string>)
    ensures |r| >= 1
    ensures forall i :: 0 <= i < |r| ==> sep !in r[i]
    decreases |s|
  {
    if |s| == 0 then [""]
    else
      var rest := Split(s[1..], sep);
      if s[0] == sep then [""] + rest
      else [[s[0]] + rest[0]] + rest[1..]
  }

  lemma {:induction false} SplitWithoutSeparator(a: string, sep: char)
    requires sep !in a
    ensures Split(a, sep) == [a]
    decreases |a|
  {
    if |a| > 0 {
      SplitWithoutSeparator(a[1..], sep);
      assert [a[0]] + a[1..] == a;
    }
  }

  lemma {:induction false} SplitAtSeparator(a: string, sep: char, b: string)
    requires sep !in a
    ensures Split(a + [sep] + b, sep) == [a] + Split(b, sep)
    decreases |a|
  {
    var s := a + [sep] + b;
    if |a| == 0 {
      assert s[1..] == b;
    } else {
      assert s[1..] == a[1..] + [sep] + b;
      SplitAtSeparator(a[1..], sep, b);
      assert [a[0]] + a[1..] == a;
    }
  }

  /** Splitting a join of separator-free parts gives the parts back. */
  lemma {:induction false} SplitJoin(parts: seq<string>, sep: char)
    requires |parts| >= 1
    requires forall i :: 0 <= i < |parts| ==> sep !in parts[i]
    ensures Split(Join([sep], parts), sep) == parts
    decreases |parts|
  {
    if |parts| == 1 {
      SplitWithoutSeparator(parts[0], sep);
    } else {
      SplitJoin(parts[1..], sep);
      SplitAtSeparator(parts[0], sep, Join([sep], parts[1..]));
      assert [parts[0]] + parts[1..] == parts;
    }
  }

  /** Joining the pieces of a split gives the string back. */
  lemma {:induction false} JoinSplit(s: string, sep: char)
    ensures Join([sep], Split(s, sep)) == s
    decreases |s|
  {
    if |s| > 0 {
      var rest := Split(s[1..], sep);
      JoinSplit(s[1..], sep);
      if s[0] == sep {
        assert ([""] + rest)[1..] == rest;
      } else if |rest| > 1 {
        assert ([[s[0]] + rest[0]] + rest[1..])[1..] == rest[1..];
      }
      assert [s[0]] + s[1..] == s;
    }
  }

  // ---------------------------------------------------------------- lines

  /** Python's text-mode reading with universal newlines: "\r\n" and a lone '\r' each become '\n'. */
  function UniversalNewlines(s: string): string
    decreases |s|
  {
    if |s| == 0 then ""
    else if s[0] == '\r' then "\n" + UniversalNewlines(if |s| > 1 && s[1] == '\n' then s[2..] else s[1..])
    else [s[0]] + UniversalNewlines(s[1..])
  }

  /** No '\r' survives the translation, and the text gets no longer. */
  lemma {:induction false} UniversalNewlinesNoCr(s: string)
    ensures '\r' !in UniversalNewlines(s)
    ensures |UniversalNewlines(s)| <= |s|
    decreases |s|
  {
    if |s| > 0 {
      var rest := if s[0] == '\r' && |s| > 1 && s[1] == '\n' then s[2..] else s[1..];
      UniversalNewlinesNoCr(rest);
    }
  }

  /** A text without '\r' is read as it is. */
  lemma {:induction false} UniversalNewlinesIdle(s: string)
    requires '\r' !in s
    ensures UniversalNewlines(s) == s
    decreases |s|
  {
    if |s| > 0 {
      UniversalNewlinesIdle(s[1..]);
    }
  }

  /** Every line break of the text, of any of the three kinds, is one '\n' of what is read. */
  lemma {:induction false} UniversalNewlinesCount(s: string)
    ensures Count(UniversalNewlines(s), '\n') == Count(s, '\r') + Count(s, '\n') - CrLfs(s)
    decreases |s|
  {
    if |s| > 0 {
      var rest := if s[0] == '\r' && |s| > 1 && s[1] == '\n' then s[2..] else s[1..];
      UniversalNewlinesCount(rest);
      var head := if s[0] == '\r' then "\n" else [s[0]];
      CountConcat(head, UniversalNewlines(rest), '\n');
      assert s == [s[0]] + s[1..];
      CountConcat([s[0]], s[1..], '\r');
      CountConcat([s[0]], s[1..], '\n');
      if s[0] == '\r' && |s| > 1 && s[1] == '\n' {
        assert s[1..] == [s[1]] + s[2..];
        CountConcat([s[1]], s[2..], '\r');
        CountConcat([s[1]], s[2..], '\n');
      }
    }
  }

  /** The number of "\r\n" pairs in `s`. */
  function CrLfs(s: string): nat
    decreases |s|
  {
    if |s| < 2 then 0
    else if s[0] == '\r' && s[1] == '\n' then 1 + CrLfs(s[2..])
    else CrLfs(s[1..])
  }

  /** The text of newline-terminated lines, as `writelines` or repeated `s += line + "\n"` produce it. */
  function Unlines(lines: seq<string>): string
    decreases |lines|
  {
    if |lines| == 0 then "" else lines[0] + "\n" + Unlines(lines[1..])
  }

  lemma {:induction false} UnlinesAppend(lines: seq<string>, line: string)
    ensures Unlines(lines + [line]) == Unlines(lines) + line + "\n"
    decreases |lines|
  {
    if |lines| > 0 {
      assert (lines + [line])[1..] == lines[1..] + [line];
      UnlinesAppend(lines[1..], line);
    }
  }

  lemma {:induction false} UnlinesConcat(a: seq<string>, b: seq<string>)
    ensures Unlines(a + b) == Unlines(a) + Unlines(b)
    decreases |a|
  {
    if |a| > 0 {
      assert (a + b)[1..] == a[1..] + b;
      UnlinesConcat(a[1..], b);
    } else {
      assert a + b == b;
    }
  }

  /** Text made of newline-free lines splits on newlines into exactly those lines and a final empty piece. */
  lemma {:induction false} SplitUnlines(lines: seq<string>)
    requires forall i :: 0 <= i < |lines| ==> '\n' !in lines[i]
    ensures Split(Unlines(lines), '\n') == lines + [""]
    decreases |lines|
  {
    if |lines| > 0 {
      SplitUnlines(lines[1..]);
      SplitAtSeparator(lines[0], '\n', Unlines(lines[1..]));
      assert lines[0] + "\n" + Unlines(lines[1..]) == lines[0] + ['\n'] + Unlines(lines[1..]);
      assert [lines[0]] + (lines[1..] + [""]) == lines + [""];
    }
  }

  /** The text of four lines. */
  lemma UnlinesFour(a: string, b: string, c: string, d: string)
    ensures Unlines([a, b, c, d]) == a + "\n" + b + "\n" + c + "\n" + d + "\n"
  {
    assert Unlines([d]) == d + "\n" by {
      assert [d][1..] == [];
    }
    assert Unlines([c, d]) == c + "\n" + Unlines([d]) by {
      assert [c, d][1..] == [d];
    }
    assert Unlines([b, c, d]) == b + "\n" + Unlines([c, d]) by {
      assert [b, c, d][1..] == [c, d];
    }
    assert Unlines([a, b, c, d]) == a + "\n" + Unlines([b, c, d]) by {
      assert [a, b, c, d][1..] == [b, c, d];
    }
  }

  lemma UnlinesCons(lines: seq<string>, rest: string)
    requires |lines| > 0
    ensures Unlines(lines) + rest == lines[0] + ['\n'] + (Unlines(lines[1..]) + rest)
  {
  }

  lemma ConsConcat<T>(xs: seq<T>, ys: seq<T>)
    requires |xs| > 0
    ensures [xs[0]] + (xs[1..] + ys) == xs + ys
  {
    assert xs == [xs[0]] + xs[1..];
  }

  lemma TailOfConcat<T>(xs: seq<T>, ys: seq<T>)
    requires |xs| > 0
    ensures (xs + ys)[0] == xs[0] && (xs + ys)[1..] == xs[1..] + ys
  {
  }

  lemma ConcatAssoc<T>(xs: seq<T>, ys: seq<T>, zs: seq<T>)
    ensures xs + (ys + zs) == (xs + ys) + zs
  {
  }

  /** Slicing the tail is slicing the whole, one position on. */
  lemma TailSlices<T>(xs: seq<T>, j: nat)
    requires 0 < j <= |xs|
    ensures xs[1..][..j - 1] == xs[..j][1..]
    ensures j < |xs| ==> xs[1..][j..] == xs[j + 1..]
  {
  }

  /** Newline-free lines followed by any text split into those lines, then the pieces of that text. */
  lemma {:induction false} SplitUnlinesThen(lines: seq<string>, rest: string)
    requires forall i :: 0 <= i < |lines| ==> '\n' !in lines[i]
    ensures Split(Unlines(lines) + rest, '\n') == lines + Split(rest, '\n')
    decreases |lines|
  {
    if |lines| == 0 {
      assert Unlines(lines) + rest == rest;
    } else {
      var tail := Unlines(lines[1..]) + rest;
      SplitUnlinesThen(lines[1..], rest);
      UnlinesCons(lines, rest);
      SplitAtSeparator(lines[0], '\n', tail);
      ConsConcat(lines, Split(rest, '\n'));
    }
  }

  /** Prefixing a join prefixes its first part. */
  lemma JoinPrefix(c: string, sep: string, parts: seq<string>)
    requires |parts| >= 1
    ensures c + Join(sep, parts) == Join(sep, [c + parts[0]] + parts[1..])
  {
    var q := [c + parts[0]] + parts[1..];
    assert q[1..] == parts[1..];
  }

  /** The last character of a join of non-empty parts is the last character of the last part. */
  lemma {:induction false} JoinLast(sep: string, parts: seq<string>)
    requires |parts| >= 1 && |parts[|parts| - 1]| >= 1
    ensures |Join(sep, parts)| >= 1
    ensures Join(sep, parts)[|Join(sep, parts)| - 1] == parts[|parts| - 1][|parts[|parts| - 1]| - 1]
    decreases |parts|
  {
    if |parts| > 1 {
      JoinLast(sep, parts[1..]);
    }
  }

  /** The first character of a join whose first part is non-empty is that part's first character. */
  lemma JoinFirst(sep: string, parts: seq<string>)
    requires |parts| >= 1 && |parts[0]| >= 1
    ensures |Join(sep, parts)| >= 1 && Join(sep, parts)[0] == parts[0][0]
  {
  }

  /** Joining one more part appends the separator and that part. */
  lemma {:induction false} JoinSnoc(sep: string, parts: seq<string>, last: string)
    requires |parts| >= 1
    ensures Join(sep, parts + [last]) == Join(sep, parts) + sep + last
    decreases |parts|
  {
    var all := parts + [last];
    if |parts| == 1 {
      assert all[1..] == [last];
    } else {
      assert all[1..] == parts[1..] + [last];
      JoinSnoc(sep, parts[1..], last);
    }
  }

  lemma {:induction false} JoinHasNo(sep: string, parts: seq<string>, c: char)
    requires c !in sep
    requires forall i :: 0 <= i < |parts| ==> c !in parts[i]
    ensures c !in Join(sep, parts)
    decreases |parts|
  {
    if |parts| > 1 {
      JoinHasNo(sep, parts[1..], c);
    }
  }

  // ---------------------------------------------------------------- strip

  /** The characters for which Python's `str.isspace()` holds. */
  predicate IsSpace(c: char)
  {
    || '\t' <= c <= '\r'
    || '\U{001C}' <= c <= ' '
    || c == '\U{0085}' || c == '\U{00A0}' || c == '\U{1680}'
    || '\U{2000}' <= c <= '\U{200A}'
    || c == '\U{2028}' || c == '\U{2029}' || c == '\U{202F}' || c == '\U{205F}' || c == '\U{3000}'
  }

  /** `s.lstrip()`. */
  function StripStart(s: string): string
    decreases |s|
  {
    if |s| > 0 && IsSpace(s[0]) then StripStart(s[1..]) else s
  }

  /** `s.rstrip()`. */
  function StripEnd(s: string): string
    decreases |s|
  {
    if |s| > 0 && IsSpace(s[|s| - 1]) then StripEnd(s[..|s| - 1]) else s
  }

  /** `s.strip()`: `s` without its leading and trailing whitespace. */
  function Strip(s: string): string
  {
    StripEnd(StripStart(s))
  }

  /** `s.lstrip()` drops the first `i` characters of `s`, all whitespace, and stops at a non-space. */
  lemma {:induction false} StripStartAt(s: string) returns (i: nat)
    ensures i <= |s| && StripStart(s) == s[i..]
    ensures forall k :: 0 <= k < i ==> IsSpace(s[k])
    ensures i < |s| ==> !IsSpace(s[i])
    decreases |s|
  {
    if |s| > 0 && IsSpace(s[0]) {
      var t := s[1..];
      var m := StripStartAt(t);
      i := m + 1;
      assert t[m..] == s[i..];
      forall k | 0 < k < i
        ensures IsSpace(s[k])
      {
        assert s[k] == t[k - 1];
      }
      if i < |s| {
        assert s[i] == t[m];
      }
    } else {
      i := 0;
    }
  }

  /** `s.rstrip()` keeps the first `j` characters of `s`, ending at a non-space, and drops only whitespace. */
  lemma {:induction false} StripEndAt(s: string) returns (j: nat)
    ensures j <= |s| && StripEnd(s) == s[..j]
    ensures forall k :: j <= k < |s| ==> IsSpace(s[k])
    ensures 0 < j ==> !IsSpace(s[j - 1])
    decreases |s|
  {
    if |s| > 0 && IsSpace(s[|s| - 1]) {
      var t := s[..|s| - 1];
      j := StripEndAt(t);
      assert t[..j] == s[..j];
      forall k | j <= k < |s| - 1
        ensures IsSpace(s[k])
      {
        assert s[k] == t[k];
      }
      if 0 < j {
        assert s[j - 1] == t[j - 1];
      }
    } else {
      j := |s|;
      assert s[..|s|] == s;
    }
  }

  /** The strip of `s` is the slice `s[i..j]`, with only whitespace outside it and none at its ends. */
  lemma StripSlice(s: string) returns (i: nat, j: nat)
    ensures i <= j <= |s| && Strip(s) == s[i..j]
    ensures forall k :: 0 <= k < i ==> IsSpace(s[k])
    ensures forall k :: j <= k < |s| ==> IsSpace(s[k])
    ensures i < j ==> !IsSpace(s[i]) && !IsSpace(s[j - 1])
  {
    i := StripStartAt(s);
    var t := s[i..];
    var m := StripEndAt(t);
    j := i + m;
    assert t[..m] == s[i..j];
    forall k | j <= k < |s|
      ensures IsSpace(s[k])
    {
      assert s[k] == t[k - i];
    }
    if i < j {
      assert s[i] == t[0];
      assert s[j - 1] == t[m - 1];
    }
  }

  /** A string with no whitespace at either end is its own strip. */
  lemma StripUnchanged(s: string)
    requires s == [] || (!IsSpace(s[0]) && !IsSpace(s[|s| - 1]))
    ensures Strip(s) == s
  {
  }

  // ---------------------------------------------------------------- replace

  /** `s.replace(pat, rep)`: replaces non-overlapping occurrences of `pat`, left to right. */
  function ReplaceAll(s: string, pat: string, rep: string): string
    requires |pat| > 0
    decreases |s|
  {
    if |s| < |pat| then s
    else if s[..|pat|] == pat then rep + ReplaceAll(s[|pat|..], pat, rep)
    else [s[0]] + ReplaceAll(s[1..], pat, rep)
  }

  /** When some character of the pattern does not occur in `s`, replacing changes nothing. */
  lemma {:induction false} ReplaceAbsent(s: string, pat: string, rep: string, c: char)
    requires |pat| > 0 && c in pat && c !in s
    ensures ReplaceAll(s, pat, rep) == s
    decreases |s|
  {
    if |s| >= |pat| {
      ReplaceAbsent(s[1..], pat, rep, c);
      assert [s[0]] + s[1..] == s;
    }
  }

  /** Text before which the pattern cannot start is copied unchanged. */
  lemma {:induction false} ReplaceAfter(a: string, b: string, pat: string, rep: string)
    requires |pat| > 0 && pat[0] !in a
    ensures ReplaceAll(a + b, pat, rep) == a + ReplaceAll(b, pat, rep)
    decreases |a|
  {
    if |a| > 0 {
      var s := a + b;
      assert s[0] == a[0];
      if |s| >= |pat| {
        assert s[..|pat|][0] == a[0];
      }
      assert s[1..] == a[1..] + b;
      ReplaceAfter(a[1..], b, pat, rep);
      assert [a[0]] + a[1..] == a;
    } else {
      assert a + b == b;
    }
  }

  /** Replacing every occurrence of a character by another leaves none of it. */
  lemma {:induction false} ReplaceCharRemoves(s: string, a: char, b: char)
    requires a != b
    ensures a !in ReplaceAll(s, [a], [b])
    ensures |ReplaceAll(s, [a], [b])| == |s|
    decreases |s|
  {
    if |s| > 0 {
      ReplaceCharRemoves(s[1..], a, b);
    }
  }

  /** Replacing `pat` by `rep` leaves `c` out when neither `rep` nor the untouched text contains it. */
  lemma {:induction false} ReplaceKeepsOut(s: string, pat: string, rep: string, c: char)
    requires |pat| > 0 && c !in s && c !in rep
    ensures c !in ReplaceAll(s, pat, rep)
    decreases |s|
  {
    if |s| >= |pat| {
      if s[..|pat|] == pat {
        ReplaceKeepsOut(s[|pat|..], pat, rep, c);
      } else {
        ReplaceKeepsOut(s[1..], pat, rep, c);
      }
    }
  }

  function Count(s: string, c: char): nat
    decreases |s|
  {
    if |s| == 0 then 0 else (if s[0] == c then 1 else 0) + Count(s[1..], c)
  }

  lemma {:induction false} CountConcat(a: string, b: string, c: char)
    ensures Count(a + b, c) == Count(a, c) + Count(b, c)
    decreases |a|
  {
    if |a| == 0 {
      assert a + b == b;
    } else {
      assert (a + b)[1..] == a[1..] + b;
      CountConcat(a[1..], b, c);
    }
  }

  lemma {:induction false} CountAbsent(s: string, c: char)
    requires c !in s
    ensures Count(s, c) == 0
    decreases |s|
  {
    if |s| > 0 {
      CountAbsent(s[1..], c);
    }
  }

  /** Replacing text that does not involve `c` keeps the number of `c` characters. */
  lemma {:induction false} ReplaceKeepsCount(s: string, pat: string, rep: string, c: char)
    requires |pat| > 0 && c !in pat && c !in rep
    ensures Count(ReplaceAll(s, pat, rep), c) == Count(s, c)
    decreases |s|
  {
    if |s| >= |pat| {
      if s[..|pat|] == pat {
        ReplaceKeepsCount(s[|pat|..], pat, rep, c);
        CountConcat(rep, ReplaceAll(s[|pat|..], pat, rep), c);
        CountAbsent(rep, c);
        assert s == s[..|pat|] + s[|pat|..];
        CountConcat(s[..|pat|], s[|pat|..], c);
        CountAbsent(s[..|pat|], c);
      } else {
        ReplaceKeepsCount(s[1..], pat, rep, c);
        CountConcat([s[0]], ReplaceAll(s[1..], pat, rep), c);
        assert s == [s[0]] + s[1..];
        CountConcat([s[0]], s[1..], c);
      }
    }
  }

  // ---------------------------------------------------------------- lower case

  function LowerChar(c: char): char
  {
    if 'A' <= c <= 'Z' then (c as int + 32) as char else c
  }

  /** `s.lower()` on the ASCII letters. */
  function Lower(s: string): string
  {
    seq(|s|, i requires 0 <= i < |s| => LowerChar(s[i]))
  }

  predicate IsLowerCase(s: string)
  {
    forall i :: 0 <= i < |s| ==> !('A' <= s[i] <= 'Z')
  }

  /** Lower-casing leaves no capital letter and does nothing to a lower-case string. */
  lemma LowerIsLowerCase(s: string)
    ensures IsLowerCase(Lower(s))
    ensures IsLowerCase(s) ==> Lower(s) == s
  {
  }

  // ---------------------------------------------------------------- str(int)

  function Digit(d: nat): char
    requires d < 10
  {
    ('0' as int + d) as char
  }

  predicate IsDigit(c: char) { '0' <= c <= '9' }

  /** `str(n)` for a natural number: its decimal digits, without leading zeros. */
  function NatToString(n: nat): (r: string)
    ensures |r| >= 1
    ensures forall i :: 0 <= i < |r| ==> IsDigit(r[i])
    ensures |r| > 1 ==> r[0] != '0'
    decreases n
  {
    if n < 10 then [Digit(n)] else NatToString(n / 10) + [Digit(n % 10)]
  }

  /** `str(i)` for an integer. */
  function IntToString(i: int): string
  {
    if i < 0 then "-" + NatToString(-i) else NatToString(i)
  }

  /** The number a string of decimal digits denotes. */
  function DigitsValue(s: string): nat
    requires forall i :: 0 <= i < |s| ==> IsDigit(s[i])
    decreases |s|
  {
    if |s| == 0 then 0
    else
      assert IsDigit(s[|s| - 1]);
      10 * DigitsValue(s[..|s| - 1]) + (s[|s| - 1] as int - '0' as int)
  }

  /** Reading back the digits of `str(n)` gives `n`. */
  lemma {:induction false} NatToStringRoundTrip(n: nat)
    ensures DigitsValue(NatToString(n)) == n
    decreases n
  {
    var r := NatToString(n);
    if n < 10 {
      assert r[..0] == [];
    } else {
      var init := NatToString(n / 10);
      NatToStringRoundTrip(n / 10);
      SnocParts(init, Digit(n % 10));
    }
  }

  lemma SnocParts<T>(xs: seq<T>, x: T)
    ensures (xs + [x])[..|xs|] == xs && (xs + [x])[|xs|] == x
  {
  }

  /** Stripping a line read with its line break gives the line itself, when it has no whitespace at either end. */
  lemma StripNewline(x: string)
    requires x == [] || (!IsSpace(x[0]) && !IsSpace(x[|x| - 1]))
    ensures Strip(x + "\n") == x
  {
    var s := x + "\n";
    assert s[..|s| - 1] == x;
    if x == [] {
      assert StripStart(s) == StripStart(s[1..]);
    } else {
      assert StripStart(s) == s;
      assert StripEnd(s) == StripEnd(x);
      StripUnchanged(x);
    }
  }

  // ---------------------------------------------------------------- slicing

  /** `s[:n]`. */
  function Take(s: string, n: nat): (r: string)
    ensures |r| <= n && |r| <= |s|
    ensures r == s[..|r|]
    ensures |s| <= n ==> r == s
    ensures |s| > n ==> |r| == n
  {
    if |s| <= n then s else s[..n]
  }

  // ---------------------------------------------------------------- listings of sets

  predicate NoDups<T(==)>(xs: seq<T>)
  {
    forall i, j :: 0 <= i < j < |xs| ==> xs[i] != xs[j]
  }

  /** `xs` is `list(s)` for some iteration order of the set `s`. */
  predicate IsListing(xs: seq<string>, s: set<string>)
  {
    NoDups(xs) && (forall x :: x in xs ==> x in s) && (forall x :: x in s ==> x in xs)
  }

  /** `list(s)`: the set's members, once each, in an order the model leaves open. */
  method ListSet(s: set<string>) returns (xs: seq<string>)
    ensures IsListing(xs, s)
  {
    xs := [];
    var rest := s;
    while rest != {}
      invariant rest <= s
      invariant NoDups(xs)
      invariant forall x :: x in xs <==> x in s && x !in rest
      decreases rest
    {
      var x :| x in rest;
      xs := xs + [x];
      rest := rest - {x};
    }
  }

  /** `r` is `sep.join(s)` for some iteration order of the set `s`. */
  ghost predicate JoinedFrom(r: string, sep: string, s: set<string>)
  {
    exists xs :: IsListing(xs, s) && r == Join(sep, xs)
  }

  /** `sep.join(s)` over a set. */
  method JoinSet(sep: string, s: set<string>) returns (r: string)
    ensures JoinedFrom(r, sep, s)
  {
    var xs := ListSet(s);
    r := Join(sep, xs);
  }

  lemma ListingOfSingleton(xs: seq<string>, v: string)
    requires IsListing(xs, {v})
    ensures xs == [v]
  {
    assert v in xs;
    var k := if |xs| >= 2 then 1 else 0;
    assert xs[0] in xs && xs[k] in xs;
    assert |xs| == 1;
  }

  /** Joining a one-member set gives that member, whatever the separator. */
  lemma JoinedSingleton(r: string, sep: string, v: string)
    requires JoinedFrom(r, sep, {v})
    ensures r == v
  {
    var xs :| IsListing(xs, {v}) && r == Join(sep, xs);
    ListingOfSingleton(xs, v);
  }

  /** A join of a non-empty set of separator-free strings splits back into a listing of that set. */
  lemma JoinedSplit(r: string, sep: char, s: set<string>)
    requires JoinedFrom(r, [sep], s)
    requires s != {}
    requires forall x :: x in s ==> sep !in x
    ensures IsListing(Split(r, sep), s)
  {
    var xs :| IsListing(xs, s) && r == Join([sep], xs);
    var v :| v in s;
    assert v in xs;
    SplitJoin(xs, sep);
  }
}
