/**
 * The string operations the response parsers are built from, with the
 * semantics of their JavaScript counterparts: `split`, `trim`, the `\d`
 * and `.` character classes, and `+digits` on a string of decimal digits.
 */
module Text {

  /** The characters JavaScript's `.` refuses and `trim` removes as line terminators. */
  predicate IsLineTerminator(c: char)
  {
    c == '\n' || c == '\r' || c == '\U{2028}' || c == '\U{2029}'
  }

  /**
   * A character one `.` reads. A pattern without the `u` flag reads UTF-16
   * code units, so a character beyond U+FFFF is two steps of `.`, and a single
   * `.` followed by a literal never reads one whole.
   */
  predicate DotReads(c: char)
  {
    !IsLineTerminator(c) && (c as int) < 0x1_0000
  }

  /** WhiteSpace or LineTerminator: the characters `String.prototype.trim` removes. */
  predicate IsSpace(c: char)
  {
    || IsLineTerminator(c)
    || c == '\t' || c == '\U{000B}' || c == '\U{000C}' || c == ' '
    || c == '\U{00A0}' || c == '\U{FEFF}' || c == '\U{1680}'
    || ('\U{2000}' <= c <= '\U{200A}')
    || c == '\U{202F}' || c == '\U{205F}' || c == '\U{3000}'
  }

  /** The class `\d` of a regular expression without the `u` flag. */
  predicate IsDigit(c: char)
  {
    '0' <= c <= '9'
  }

  predicate NoLineTerminator(s: string)
  {
    forall k :: 0 <= k < |s| ==> !IsLineTerminator(s[k])
  }

  predicate AllDigits(s: string)
  {
    forall k :: 0 <= k < |s| ==> IsDigit(s[k])
  }

  predicate EndsWith(s: string, suffix: string)
  {
    |suffix| <= |s| && s[|s| - |suffix|..] == suffix
  }

  // ---------------------------------------------------------------- split

  /** `parts.join(sep)`: the inverse of `Split`. */
  function Join(parts: seq<string>, sep: char): string
  {
    if |parts| == 0 then []
    else if |parts| == 1 then parts[0]
    else parts[0] + [sep] + Join(parts[1..], sep)
  }

  /**
   * `s.split(sep)` for a one-character separator: the maximal pieces between
   * separators, so an empty string gives one empty piece and a trailing
   * separator gives a trailing empty piece.
   */
  function Split(s: string, sep: char): (parts: seq<string>)
    ensures |parts| >= 1
    ensures forall i :: 0 <= i < |parts| ==> sep !in parts[i]
    ensures Join(parts, sep) == s
    decreases |s|
  {
    if s == [] then [[]]
    else
      var rest := Split(s[1..], sep);
      if s[0] == sep then
        [[]] + rest
      else
        var parts := [[s[0]] + rest[0]] + rest[1..];
        assert Join(parts, sep) == s by {
          if |rest| > 1 {
            assert parts[1..] == rest[1..];
            assert Join(rest, sep) == rest[0] + [sep] + Join(rest[1..], sep);
          }
        }
        parts
  }

  /** A piece with no separator is its own split. */
  lemma {:induction false} SplitPlain(a: string, sep: char)
    requires sep !in a
    ensures Split(a, sep) == [a]
    decreases |a|
  {
    if a != [] {
      SplitPlain(a[1..], sep);
      assert [a[0]] + a[1..] == a;
    }
  }

  /** Splitting at a first separator peels off the piece before it. */
  lemma {:induction false} SplitAtSeparator(a: string, b: string, sep: char)
    requires sep !in a
    ensures Split(a + [sep] + b, sep) == [a] + Split(b, sep)
    decreases |a|
  {
    var s := a + [sep] + b;
    if a == [] {
      assert s[1..] == b;
    } else {
      assert s[1..] == a[1..] + [sep] + b;
      SplitAtSeparator(a[1..], b, sep);
      assert [a[0]] + a[1..] == a;
    }
  }

  /** Round trip: splitting a join of separator-free pieces gives the pieces back. */
  lemma {:induction false} SplitJoin(parts: seq<string>, sep: char)
    requires |parts| >= 1
    requires forall i :: 0 <= i < |parts| ==> sep !in parts[i]
    ensures Split(Join(parts, sep), sep) == parts
    decreases |parts|
  {
    if |parts| == 1 {
      SplitPlain(parts[0], sep);
    } else {
      SplitJoin(parts[1..], sep);
      SplitAtSeparator(parts[0], Join(parts[1..], sep), sep);
      assert [parts[0]] + parts[1..] == parts;
    }
  }

  /** Every character of a piece of a join occurs in the join. */
  lemma {:induction false} PartInJoin(parts: seq<string>, sep: char, i: nat, c: char)
    requires i < |parts| && c in parts[i]
    ensures c in Join(parts, sep)
    decreases |parts|
  {
    if |parts| > 1 {
      var tail := Join(parts[1..], sep);
      assert Join(parts, sep) == parts[0] + [sep] + tail;
      if i > 0 {
        PartInJoin(parts[1..], sep, i - 1, c);
        assert c in tail;
      }
    }
  }

  /** Every character of a join is the separator or occurs in some piece. */
  lemma {:induction false} JoinChars(parts: seq<string>, sep: char, c: char)
    requires c in Join(parts, sep)
    ensures c == sep || exists i :: 0 <= i < |parts| && c in parts[i]
    decreases |parts|
  {
    if |parts| > 1 {
      var tail := Join(parts[1..], sep);
      assert Join(parts, sep) == parts[0] + [sep] + tail;
      if c != sep && c !in parts[0] {
        assert c in tail;
        JoinChars(parts[1..], sep, c);
        var i :| 0 <= i < |parts| - 1 && c in parts[1..][i];
        assert c in parts[i + 1];
      }
    }
  }

  /** Every character of a piece of a split occurs in the split string. */
  lemma SplitChars(s: string, sep: char, i: nat, c: char)
    requires i < |Split(s, sep)| && c in Split(s, sep)[i]
    ensures c in s && c != sep
  {
    PartInJoin(Split(s, sep), sep, i, c);
  }

  // ----------------------------------------------------------------- trim

  /** The number of white space characters from `i` on, up to the first other one. */
  function Leading(s: string, i: nat): (n: nat)
    requires i <= |s|
    ensures i + n <= |s|
    decreases |s| - i
  {
    if i < |s| && IsSpace(s[i]) then 1 + Leading(s, i + 1) else 0
  }

  lemma {:induction false} LeadingSpaces(s: string, i: nat)
    requires i <= |s|
    ensures forall k :: i <= k < i + Leading(s, i) ==> IsSpace(s[k])
    ensures i + Leading(s, i) < |s| ==> !IsSpace(s[i + Leading(s, i)])
    decreases |s| - i
  {
    if i < |s| && IsSpace(s[i]) {
      LeadingSpaces(s, i + 1);
    }
  }

  /** The number of white space characters just before `j`, back to the last other one. */
  function Trailing(s: string, j: nat): (n: nat)
    requires j <= |s|
    ensures n <= j
  {
    if j > 0 && IsSpace(s[j - 1]) then 1 + Trailing(s, j - 1) else 0
  }

  lemma {:induction false} TrailingSpaces(s: string, j: nat)
    requires j <= |s|
    ensures forall k :: j - Trailing(s, j) <= k < j ==> IsSpace(s[k])
    ensures j - Trailing(s, j) > 0 ==> !IsSpace(s[j - Trailing(s, j) - 1])
  {
    if j > 0 && IsSpace(s[j - 1]) {
      TrailingSpaces(s, j - 1);
    }
  }

  /** `s` without its leading white space. */
  function TrimStart(s: string): string
  {
    s[Leading(s, 0)..]
  }

  /** `s` without its trailing white space. */
  function TrimEnd(s: string): string
  {
    s[..|s| - Trailing(s, |s|)]
  }

  /** `r` is `s[i..i + |r|]` and everything of `s` outside it is white space. */
  predicate TrimmedAt(s: string, r: string, i: int)
  {
    && 0 <= i <= |s| - |r| && r == s[i..i + |r|]
    && (forall k :: 0 <= k < i ==> IsSpace(s[k]))
    && (forall k :: i + |r| <= k < |s| ==> IsSpace(s[k]))
  }

  /**
   * `s.trim()`: the part of `s` left once every leading and trailing white
   * space or line terminator is removed.
   */
  function Trim(s: string): string
  {
    TrimEnd(TrimStart(s))
  }

  /** The trim is a slice of `s` with only white space around it, and it neither starts nor ends with white space. */
  lemma TrimSpec(s: string)
    ensures exists i :: TrimmedAt(s, Trim(s), i)
    ensures Trim(s) != [] ==> !IsSpace(Trim(s)[0]) && !IsSpace(Trim(s)[|Trim(s)| - 1])
  {
    var i := Leading(s, 0);
    var t := s[i..];
    var m := Trailing(t, |t|);
    var r := t[..|t| - m];
    assert t == TrimStart(s) && r == TrimEnd(t) == Trim(s);
    LeadingSpaces(s, 0);
    TrailingSpaces(t, |t|);
    assert r == s[i..i + |r|];
    forall k | i + |r| <= k < |s|
      ensures IsSpace(s[k])
    {
      assert s[k] == t[k - i];
    }
    assert TrimmedAt(s, r, i);
    if r != [] {
      assert r[0] == s[i];
      assert r[|r| - 1] == t[|t| - m - 1];
    }
  }

  /** Trimming keeps only characters of the original. */
  lemma TrimSubset(s: string, c: char)
    requires c in Trim(s)
    ensures c in s
  {
    var r := Trim(s);
    TrimSpec(s);
    var i :| TrimmedAt(s, r, i);
    var k :| 0 <= k < |r| && r[k] == c;
    assert s[i + k] == c;
  }

  /** A string that neither starts nor ends with white space is its own trim. */
  lemma TrimmedIsIdentity(s: string)
    requires s != [] ==> !IsSpace(s[0]) && !IsSpace(s[|s| - 1])
    ensures Trim(s) == s
  {
    var r := Trim(s);
    TrimSpec(s);
    var i :| TrimmedAt(s, r, i);
    if s != [] {
      assert !IsSpace(s[0]) && !IsSpace(s[|s| - 1]);
      assert i == 0 && i + |r| == |s|;
    }
  }

  // ------------------------------------------------------ list operations

  /** `xs.map(x => x.trim())` */
  function TrimAll(xs: seq<string>): (r: seq<string>)
    ensures |r| == |xs|
    ensures forall i :: 0 <= i < |xs| ==> r[i] == Trim(xs[i])
  {
    if xs == [] then [] else [Trim(xs[0])] + TrimAll(xs[1..])
  }

  /** `xs.filter(x => x)`: the non-empty strings of `xs`, in order. */
  function NonEmpty(xs: seq<string>): (r: seq<string>)
    ensures |r| <= |xs|
    ensures forall i :: 0 <= i < |r| ==> r[i] != []
    ensures forall x :: x in r <==> x in xs && x != []
  {
    if xs == [] then []
    else if xs[0] == [] then NonEmpty(xs[1..])
    else [xs[0]] + NonEmpty(xs[1..])
  }

  /** Every string the filter keeps comes from its input. */
  lemma {:induction false} NonEmptyFrom(xs: seq<string>, i: nat)
    requires i < |NonEmpty(xs)|
    ensures exists j :: 0 <= j < |xs| && xs[j] == NonEmpty(xs)[i]
  {
    if xs[0] == [] {
      NonEmptyFrom(xs[1..], i);
      var j :| 0 <= j < |xs| - 1 && xs[1..][j] == NonEmpty(xs)[i];
      assert xs[j + 1] == NonEmpty(xs)[i];
    } else if i > 0 {
      NonEmptyFrom(xs[1..], i - 1);
      var j :| 0 <= j < |xs| - 1 && xs[1..][j] == NonEmpty(xs)[i];
      assert xs[j + 1] == NonEmpty(xs)[i];
    } else {
      assert xs[0] == NonEmpty(xs)[0];
    }
  }

  /** Filtering a concatenation filters each part, keeping their order. */
  lemma {:induction false} NonEmptyConcat(a: seq<string>, b: seq<string>)
    ensures NonEmpty(a + b) == NonEmpty(a) + NonEmpty(b)
    decreases |a|
  {
    if a == [] {
      assert a + b == b;
    } else {
      assert (a + b)[1..] == a[1..] + b;
      NonEmptyConcat(a[1..], b);
    }
  }

  /** The positions of the non-empty strings of `xs`. */
  function NonBlank(xs: seq<string>): set<nat>
  {
    set i: nat | i < |xs| && xs[i] != []
  }

  lemma NonBlankSnoc(xs: seq<string>, y: string)
    ensures NonBlank(xs + [y]) == NonBlank(xs) + (if y != [] then {|xs|} else {})
  {
    var zs := xs + [y];
    forall i: nat | i < |xs|
      ensures zs[i] == xs[i]
    {
    }
    assert zs[|xs|] == y;
  }

  /** The filter keeps one string for every position of a non-empty one. */
  lemma {:induction false} NonEmptyCount(xs: seq<string>)
    ensures |NonEmpty(xs)| == |NonBlank(xs)|
    decreases |xs|
  {
    if xs == [] {
      assert NonBlank(xs) == {};
    } else {
      var init := xs[..|xs| - 1];
      var y := xs[|xs| - 1];
      assert xs == init + [y];
      NonEmptyCount(init);
      NonEmptyConcat(init, [y]);
      NonBlankSnoc(init, y);
      assert |init| !in NonBlank(init);
      assert [y][1..] == [];
    }
  }

  lemma TrimAllCons(x: string, xs: seq<string>)
    ensures TrimAll([x] + xs) == [Trim(x)] + TrimAll(xs)
  {
    assert ([x] + xs)[1..] == xs;
  }

  lemma NonEmptySkipsEmpty(xs: seq<string>)
    ensures NonEmpty([[]] + xs) == NonEmpty(xs)
  {
    assert ([[]] + xs)[1..] == xs;
  }

  lemma {:induction false} NonEmptyOfNonEmpty(xs: seq<string>)
    requires forall i :: 0 <= i < |xs| ==> xs[i] != []
    ensures NonEmpty(xs) == xs
  {
    if xs != [] {
      NonEmptyOfNonEmpty(xs[1..]);
    }
  }

  lemma {:induction false} NonEmptyIdempotent(xs: seq<string>)
    ensures NonEmpty(NonEmpty(xs)) == NonEmpty(xs)
  {
    NonEmptyOfNonEmpty(NonEmpty(xs));
  }

  // -------------------------------------------------------------- numbers

  function DigitValue(c: char): nat
  {
    if IsDigit(c) then (c - '0') as nat else 0
  }

  /** `+digits` for a string of decimal digits (leading zeros allowed). */
  function DecimalValue(d: string): nat
  {
    if d == [] then 0 else DecimalValue(d[..|d| - 1]) * 10 + DigitValue(d[|d| - 1])
  }

  /** The decimal spelling of `n`, without leading zeros. */
  function Decimal(n: nat): (d: string)
    ensures d != [] && AllDigits(d)
    ensures |d| > 1 ==> d[0] != '0'
  {
    var last := ['0' + (n % 10) as char];
    if n < 10 then last else Decimal(n / 10) + last
  }

  lemma {:induction false} DecimalRoundTrip(n: nat)
    ensures DecimalValue(Decimal(n)) == n
  {
    var d := Decimal(n);
    if n >= 10 {
      DecimalRoundTrip(n / 10);
      assert d[..|d| - 1] == Decimal(n / 10);
    }
  }

  /** The length of the run of digits that starts at `i`. */
  function DigitRun(s: string, i: nat): (n: nat)
    requires i <= |s|
    ensures i + n <= |s|
    ensures forall k :: i <= k < i + n ==> IsDigit(s[k])
    ensures i + n == |s| || !IsDigit(s[i + n])
    decreases |s| - i
  {
    if i < |s| && IsDigit(s[i]) then 1 + DigitRun(s, i + 1) else 0
  }
}
