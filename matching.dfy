/**
 * A small matcher for the fixed patterns the `/evolution` response is read
 * with. A pattern is a chain of literal texts, runs of `[0-9.]+`, runs
 * `[0-9.]+.` that end in the wildcard `.`, and one-character classes; the
 * runs, wildcards and classes are captured.
 *
 * A run `[0-9.]+` is matched greedily. A regular expression engine would
 * backtrack into shorter runs when the rest fails, but where the next piece
 * is a literal starting outside `[0-9.]` (`Guarded`) a shorter run leaves a
 * digit or a dot where that literal has to begin, so no shorter run can
 * succeed. For `[0-9.]+.` the same argument leaves two candidates: the
 * wildcard on the character after the greedy run, and the wildcard on the
 * run's last character.
 */
module Matching {
  import opened Wrappers
  import opened Text

  /** `lit` occurs in `s` at position `i`. */
  predicate At(s: string, i: nat, lit: string)
  {
    i + |lit| <= |s| && Agrees(s, i, lit, 0)
  }

  /** From its `k`-th character on, `lit` agrees with `s` read from `i`. */
  predicate Agrees(s: string, i: nat, lit: string, k: nat)
    decreases |lit| - k
  {
    k >= |lit| || (i + k < |s| && s[i + k] == lit[k] && Agrees(s, i, lit, k + 1))
  }

  lemma {:induction false} AgreesAll(s: string, i: nat, lit: string, k: nat)
    requires i + |lit| <= |s|
    ensures Agrees(s, i, lit, k) <==> forall m :: k <= m < |lit| ==> s[i + m] == lit[m]
    decreases |lit| - k
  {
    if k < |lit| {
      AgreesAll(s, i, lit, k + 1);
    }
  }

  /** An occurrence is a slice equal to `lit`. */
  lemma AtSlice(s: string, i: nat, lit: string)
    ensures At(s, i, lit) <==> i + |lit| <= |s| && s[i..i + |lit|] == lit
  {
    if i + |lit| <= |s| {
      AgreesAll(s, i, lit, 0);
      if s[i..i + |lit|] == lit {
        forall m | 0 <= m < |lit|
          ensures s[i + m] == lit[m]
        {
          assert s[i..i + |lit|][m] == s[i + m];
        }
      }
    }
  }

  /** The class `[0-9.]`. */
  predicate IsNumeric(c: char)
  {
    IsDigit(c) || c == '.'
  }

  /** What `[0-9.]+` matches. */
  predicate Number(x: string)
  {
    x != [] && forall k :: 0 <= k < |x| ==> IsNumeric(x[k])
  }

  /** An occurrence of `a + b` is one of `a` directly followed by one of `b`. */
  lemma AtConcat(s: string, i: nat, a: string, b: string)
    ensures At(s, i, a + b) <==> At(s, i, a) && At(s, i + |a|, b)
  {
    if i + |a| + |b| <= |s| {
      AgreesAll(s, i, a + b, 0);
      AgreesAll(s, i, a, 0);
      AgreesAll(s, i + |a|, b, 0);
      if At(s, i, a) && At(s, i + |a|, b) {
        forall m | 0 <= m < |a| + |b|
          ensures s[i + m] == (a + b)[m]
        {
          if m >= |a| {
            assert s[i + |a| + (m - |a|)] == b[m - |a|];
          }
        }
      }
      if At(s, i, a + b) {
        forall m | 0 <= m < |a|
          ensures s[i + m] == a[m]
        {
          assert (a + b)[m] == a[m];
        }
        forall m | 0 <= m < |b|
          ensures s[i + |a| + m] == b[m]
        {
          assert s[i + (|a| + m)] == (a + b)[|a| + m];
        }
      }
    }
  }

  /** The characters of an occurrence are those of `lit`. */
  lemma AtIndex(s: string, i: nat, lit: string, k: nat)
    requires At(s, i, lit) && k < |lit|
    ensures s[i + k] == lit[k]
  {
    AgreesAll(s, i, lit, 0);
  }

  /** Every string occurs at the start of itself. */
  lemma AtSelf(s: string)
    ensures At(s, 0, s)
  {
    AgreesAll(s, 0, s, 0);
  }

  /** The length of the run of `[0-9.]` that starts at `i`. */
  function NumRun(s: string, i: nat): (n: nat)
    requires i <= |s|
    ensures i + n <= |s|
    ensures i + n == |s| || !IsNumeric(s[i + n])
    decreases |s| - i
  {
    if i < |s| && IsNumeric(s[i]) then 1 + NumRun(s, i + 1) else 0
  }

  /** Every character of the run is in `[0-9.]`. */
  lemma {:induction false} NumRunNumeric(s: string, i: nat)
    requires i <= |s|
    ensures forall k :: i <= k < i + NumRun(s, i) ==> IsNumeric(s[k])
    decreases |s| - i
  {
    if i < |s| && IsNumeric(s[i]) {
      NumRunNumeric(s, i + 1);
    }
  }

  /** The run, as a string, is a number when it is not empty. */
  lemma NumRunNumber(s: string, i: nat)
    requires i <= |s| && NumRun(s, i) > 0
    ensures Number(s[i..i + NumRun(s, i)])
  {
    NumRunNumeric(s, i);
  }

  /** A run of `[0-9.]` of length `m` that ends before a character outside the class is the run. */
  lemma {:induction false} NumRunExact(s: string, i: nat, m: nat)
    requires i + m <= |s|
    requires forall k :: i <= k < i + m ==> IsNumeric(s[k])
    requires i + m == |s| || !IsNumeric(s[i + m])
    ensures NumRun(s, i) == m
    decreases m
  {
    if m > 0 {
      NumRunExact(s, i + 1, m - 1);
    }
  }

  /** Where the number `x` occurs, followed by a character outside `[0-9.]`, the run is `x`. */
  lemma NumRunOf(s: string, i: nat, x: string)
    requires Number(x) && At(s, i, x) && i + |x| < |s| && !IsNumeric(s[i + |x|])
    ensures NumRun(s, i) == |x| && s[i..i + |x|] == x
  {
    AtSlice(s, i, x);
    assert forall k :: i <= k < i + |x| ==> s[k] == x[k - i];
    NumRunExact(s, i, |x|);
  }

  /** A pattern: literals, captured `[0-9.]+` runs, captured one-character classes and `[0-9.]+.`
    * (the run and the wildcard's character captured apart), in order. */
  datatype Pattern =
    | End
    | Literal(text: string, next: Pattern)
    | Numeral(next: Pattern)
    | OneOf(chars: string, next: Pattern)
    | NumeralThenAny(next: Pattern)

  function Cons(x: string, m: Option<seq<string>>): Option<seq<string>>
  {
    if m.Some? then Some([x] + m.value) else None
  }

  /** The captures of `p` matched at `i`, or `None` when `p` does not match there. */
  function Match(s: string, i: nat, p: Pattern): Option<seq<string>>
    decreases |s| - i, p
  {
    match p
    case End => if i <= |s| then Some([]) else None
    case Literal(t, q) => if At(s, i, t) then Match(s, i + |t|, q) else None
    case Numeral(q) =>
      if i <= |s| && NumRun(s, i) > 0 then Cons(s[i..i + NumRun(s, i)], Match(s, i + NumRun(s, i), q))
      else None
    case OneOf(cs, q) => if i < |s| && s[i] in cs then Cons([s[i]], Match(s, i + 1, q)) else None
    case NumeralThenAny(q) =>
      if i <= |s| then
        var n := NumRun(s, i);
        if n > 0 && i + n < |s| && DotReads(s[i + n]) && Match(s, i + n + 1, q).Some? then
          Cons(s[i..i + n], Cons([s[i + n]], Match(s, i + n + 1, q)))
        else if n >= 2 && Match(s, i + n, q).Some? then
          Cons(s[i..i + n - 1], Cons([s[i + n - 1]], Match(s, i + n, q)))
        else None
      else None
  }

  /** The text `p` spans when it captures `caps`. */
  function Written(p: Pattern, caps: seq<string>): string
    decreases |caps|, p
  {
    match p
    case End => []
    case Literal(t, q) => t + Written(q, caps)
    case Numeral(q) => if caps == [] then Written(q, []) else caps[0] + Written(q, caps[1..])
    case OneOf(_, q) => if caps == [] then Written(q, []) else caps[0] + Written(q, caps[1..])
    case NumeralThenAny(q) => if |caps| < 2 then Written(q, []) else caps[0] + (caps[1] + Written(q, caps[2..]))
  }

  /** `caps` are captures `p` can make: one per run or class, each of the right shape. */
  predicate Fits(p: Pattern, caps: seq<string>)
    decreases |caps|, p
  {
    match p
    case End => caps == []
    case Literal(_, q) => Fits(q, caps)
    case Numeral(q) => caps != [] && Number(caps[0]) && Fits(q, caps[1..])
    case OneOf(cs, q) => caps != [] && |caps[0]| == 1 && caps[0][0] in cs && Fits(q, caps[1..])
    case NumeralThenAny(q) =>
      |caps| >= 2 && Number(caps[0]) && |caps[1]| == 1 && DotReads(caps[1][0]) && Fits(q, caps[2..])
  }

  /** Every run is followed by a non-empty literal that starts outside `[0-9.]`; after a run
    * ending in the wildcard, that literal's second character differs from its first. */
  predicate Guarded(p: Pattern)
    decreases p
  {
    match p
    case End => true
    case Literal(_, q) => Guarded(q)
    case Numeral(q) => q.Literal? && q.text != [] && !IsNumeric(q.text[0]) && Guarded(q)
    case OneOf(_, q) => Guarded(q)
    case NumeralThenAny(q) =>
      q.Literal? && |q.text| >= 2 && !IsNumeric(q.text[0]) && q.text[1] != q.text[0] && Guarded(q)
  }

  /** Neither a literal nor a class of `p` holds `c`, and no wildcard can. */
  predicate Lacks(p: Pattern, c: char)
    decreases p
  {
    match p
    case End => true
    case Literal(t, q) => c !in t && Lacks(q, c)
    case Numeral(q) => Lacks(q, c)
    case OneOf(cs, q) => c !in cs && Lacks(q, c)
    case NumeralThenAny(q) => !DotReads(c) && Lacks(q, c)
  }

  /** Soundness: what the matcher captures fits the pattern, and the pattern's text is there. */
  lemma {:induction false} MatchSound(s: string, i: nat, p: Pattern)
    requires Match(s, i, p).Some?
    ensures Fits(p, Match(s, i, p).value) && At(s, i, Written(p, Match(s, i, p).value))
    decreases p, 1
  {
    match p
    case End => AgreesAll(s, i, [], 0);
    case Literal(t, q) => LiteralSound(s, i, t, q);
    case Numeral(q) => NumeralSound(s, i, q);
    case OneOf(cs, q) => OneOfSound(s, i, cs, q);
    case NumeralThenAny(q) => NumeralThenAnySound(s, i, q);
  }

  lemma {:induction false} LiteralSound(s: string, i: nat, t: string, q: Pattern)
    requires Match(s, i, Literal(t, q)).Some?
    ensures Fits(Literal(t, q), Match(s, i, Literal(t, q)).value)
    ensures At(s, i, Written(Literal(t, q), Match(s, i, Literal(t, q)).value))
    decreases Literal(t, q), 0
  {
    var j := i + |t|;
    MatchSound(s, j, q);
    var rest := Match(s, j, q).value;
    AtConcat(s, i, t, Written(q, rest));
  }

  /** A captured piece `x` at `i`, followed by the text of `q` for `rest`. */
  lemma CapturedPiece(s: string, i: nat, x: string, q: Pattern, rest: seq<string>)
    requires i + |x| <= |s| && s[i..i + |x|] == x && At(s, i + |x|, Written(q, rest))
    ensures At(s, i, x + Written(q, rest))
  {
    AtSlice(s, i, x);
    AtConcat(s, i, x, Written(q, rest));
  }

  lemma {:induction false} NumeralSound(s: string, i: nat, q: Pattern)
    requires Match(s, i, Numeral(q)).Some?
    ensures Fits(Numeral(q), Match(s, i, Numeral(q)).value)
    ensures At(s, i, Written(Numeral(q), Match(s, i, Numeral(q)).value))
    decreases Numeral(q), 0
  {
    var n := NumRun(s, i);
    var j := i + n;
    var x := s[i..j];
    NumRunNumber(s, i);
    MatchSound(s, j, q);
    var rest := Match(s, j, q).value;
    assert ([x] + rest)[1..] == rest;
    CapturedPiece(s, i, x, q, rest);
  }

  lemma {:induction false} OneOfSound(s: string, i: nat, cs: string, q: Pattern)
    requires Match(s, i, OneOf(cs, q)).Some?
    ensures Fits(OneOf(cs, q), Match(s, i, OneOf(cs, q)).value)
    ensures At(s, i, Written(OneOf(cs, q), Match(s, i, OneOf(cs, q)).value))
    decreases OneOf(cs, q), 0
  {
    var x := [s[i]];
    var j := i + 1;
    MatchSound(s, j, q);
    var rest := Match(s, j, q).value;
    assert ([x] + rest)[1..] == rest;
    assert s[i..j] == x;
    CapturedPiece(s, i, x, q, rest);
  }

  lemma {:induction false} NumeralThenAnySound(s: string, i: nat, q: Pattern)
    requires Match(s, i, NumeralThenAny(q)).Some?
    ensures Fits(NumeralThenAny(q), Match(s, i, NumeralThenAny(q)).value)
    ensures At(s, i, Written(NumeralThenAny(q), Match(s, i, NumeralThenAny(q)).value))
    decreases NumeralThenAny(q), 0
  {
    var n := NumRun(s, i);
    NumRunNumeric(s, i);
    var m := if n > 0 && i + n < |s| && DotReads(s[i + n]) && Match(s, i + n + 1, q).Some?
      then n else n - 1;
    var j := i + m + 1;
    MatchSound(s, j, q);
    var rest := Match(s, j, q).value;
    assert Match(s, i, NumeralThenAny(q)).value == [s[i..i + m]] + ([[s[i + m]]] + rest);
    RunThenAnyPiece(s, i, m, q, rest);
  }

  /** One candidate of `[0-9.]+.`: a run of `m` characters, the wildcard's character, and the rest. */
  lemma RunThenAnyPiece(s: string, i: nat, m: nat, q: Pattern, rest: seq<string>)
    requires 0 < m && i + m < |s| && DotReads(s[i + m])
    requires forall k :: i <= k < i + m ==> IsNumeric(s[k])
    requires Fits(q, rest) && At(s, i + m + 1, Written(q, rest))
    ensures var caps := [s[i..i + m]] + ([[s[i + m]]] + rest);
      Fits(NumeralThenAny(q), caps) && At(s, i, Written(NumeralThenAny(q), caps))
  {
    var x := s[i..i + m];
    var c := [s[i + m]];
    var caps := [x] + ([c] + rest);
    assert caps[0] == x && caps[1] == c && caps[2..] == rest;
    forall k | 0 <= k < |x|
      ensures IsNumeric(x[k])
    {
      assert x[k] == s[i + k];
    }
    assert s[i + m..i + m + 1] == c;
    CapturedPiece(s, i + m, c, q, rest);
    AtSlice(s, i, x);
    AtConcat(s, i, x, c + Written(q, rest));
  }

  /** What `Match` captures fits the pattern. */
  lemma MatchFits(s: string, i: nat, p: Pattern)
    requires Match(s, i, p).Some?
    ensures Fits(p, Match(s, i, p).value)
  {
    MatchSound(s, i, p);
  }

  /** Completeness: where a guarded pattern's text is written, the matcher reads back its captures. */
  lemma {:induction false} MatchComplete(s: string, i: nat, p: Pattern, caps: seq<string>)
    requires Guarded(p) && Fits(p, caps) && At(s, i, Written(p, caps))
    ensures Match(s, i, p) == Some(caps)
    decreases p, 1
  {
    match p
    case End =>
    case Literal(t, q) => LiteralComplete(s, i, t, q, caps);
    case Numeral(q) => NumeralComplete(s, i, q, caps);
    case OneOf(cs, q) => OneOfComplete(s, i, cs, q, caps);
    case NumeralThenAny(q) => NumeralThenAnyComplete(s, i, q, caps);
  }

  lemma {:induction false} LiteralComplete(s: string, i: nat, t: string, q: Pattern, caps: seq<string>)
    requires Guarded(Literal(t, q)) && Fits(Literal(t, q), caps) && At(s, i, Written(Literal(t, q), caps))
    ensures Match(s, i, Literal(t, q)) == Some(caps)
    decreases Literal(t, q), 0
  {
    AtConcat(s, i, t, Written(q, caps));
    MatchComplete(s, i + |t|, q, caps);
  }

  lemma {:induction false} NumeralComplete(s: string, i: nat, q: Pattern, caps: seq<string>)
    requires Guarded(Numeral(q)) && Fits(Numeral(q), caps) && At(s, i, Written(Numeral(q), caps))
    ensures Match(s, i, Numeral(q)) == Some(caps)
    decreases Numeral(q), 0
  {
    var j := i + |caps[0]|;
    NumeralWritten(s, i, q, caps);
    MatchComplete(s, j, q, caps[1..]);
    assert [caps[0]] + caps[1..] == caps;
  }

  lemma {:induction false} OneOfComplete(s: string, i: nat, cs: string, q: Pattern, caps: seq<string>)
    requires Guarded(OneOf(cs, q)) && Fits(OneOf(cs, q), caps) && At(s, i, Written(OneOf(cs, q), caps))
    ensures Match(s, i, OneOf(cs, q)) == Some(caps)
    decreases OneOf(cs, q), 0
  {
    var j := i + 1;
    OneOfWritten(s, i, cs, q, caps);
    MatchComplete(s, j, q, caps[1..]);
    assert [caps[0]] + caps[1..] == caps;
  }

  /** When the wildcard's character is a digit or a dot, the greedy run takes it, the wildcard
    * then lands on the literal's first character, and the literal cannot match one further on;
    * the run one shorter is the match. */
  lemma {:induction false} NumeralThenAnyComplete(s: string, i: nat, q: Pattern, caps: seq<string>)
    requires Guarded(NumeralThenAny(q)) && Fits(NumeralThenAny(q), caps)
    requires At(s, i, Written(NumeralThenAny(q), caps))
    ensures Match(s, i, NumeralThenAny(q)) == Some(caps)
    decreases NumeralThenAny(q), 0
  {
    var j := i + |caps[0]| + 1;
    NumeralThenAnyWritten(s, i, q, caps);
    MatchComplete(s, j, q, caps[2..]);
    assert [caps[0]] + ([caps[1]] + caps[2..]) == caps;
  }

  /** A written `[0-9.]+.`, followed by its guarding literal: the run the matcher sees, and where
    * the wildcard's character and the literal are. */
  lemma NumeralThenAnyWritten(s: string, i: nat, q: Pattern, caps: seq<string>)
    requires Guarded(NumeralThenAny(q)) && Fits(NumeralThenAny(q), caps)
    requires At(s, i, Written(NumeralThenAny(q), caps))
    ensures var m := |caps[0]|;
      i + m + 2 < |s| && s[i..i + m] == caps[0] && [s[i + m]] == caps[1] &&
      At(s, i + m + 1, Written(q, caps[2..])) &&
      s[i + m + 1] == q.text[0] && s[i + m + 2] == q.text[1] &&
      NumRun(s, i) == if IsNumeric(caps[1][0]) then m + 1 else m
  {
    var x := caps[0];
    var c := caps[1];
    var m := |x|;
    var w := Written(q, caps[2..]);
    var j := i + m + 1;
    AtConcat(s, i, x, c + w);
    AtConcat(s, i + m, c, w);
    AtConcat(s, j, q.text, Written(q.next, caps[2..]));
    AtIndex(s, j, q.text, 0);
    AtIndex(s, j, q.text, 1);
    AtIndex(s, i + m, c, 0);
    AtSlice(s, i, x);
    assert c == [c[0]];
    assert forall k :: i <= k < i + m ==> s[k] == x[k - i];
    if IsNumeric(c[0]) {
      NumRunExact(s, i, m + 1);
    } else {
      NumRunExact(s, i, m);
    }
  }

  /** A written run, followed by its guarding literal, is read back in full. */
  lemma NumeralWritten(s: string, i: nat, q: Pattern, caps: seq<string>)
    requires Guarded(Numeral(q)) && Fits(Numeral(q), caps) && At(s, i, Written(Numeral(q), caps))
    ensures i + |caps[0]| <= |s| && NumRun(s, i) == |caps[0]| > 0 && s[i..i + |caps[0]|] == caps[0]
    ensures At(s, i + |caps[0]|, Written(q, caps[1..]))
  {
    var x := caps[0];
    AtConcat(s, i, x, Written(q, caps[1..]));
    AtConcat(s, i + |x|, q.text, Written(q.next, caps[1..]));
    AtIndex(s, i + |x|, q.text, 0);
    NumRunOf(s, i, x);
  }

  /** A written class character is the one the class reads. */
  lemma OneOfWritten(s: string, i: nat, cs: string, q: Pattern, caps: seq<string>)
    requires Fits(OneOf(cs, q), caps) && At(s, i, Written(OneOf(cs, q), caps))
    ensures i < |s| && s[i] in cs && caps[0] == [s[i]]
    ensures At(s, i + 1, Written(q, caps[1..]))
  {
    var x := caps[0];
    AtConcat(s, i, x, Written(q, caps[1..]));
    AtIndex(s, i, x, 0);
    assert x == [x[0]];
  }

  /** The text of a pattern holds a character outside `[0-9.]` only where a literal or class does. */
  lemma {:induction false} WrittenLacks(p: Pattern, caps: seq<string>, c: char)
    requires Fits(p, caps) && Lacks(p, c) && !IsNumeric(c)
    ensures c !in Written(p, caps)
    decreases p
  {
    match p
    case End =>
    case Literal(t, q) =>
      WrittenLacks(q, caps, c);
    case Numeral(q) =>
      WrittenLacks(q, caps[1..], c);
      NumberLacks(caps[0], c);
    case OneOf(cs, q) =>
      WrittenLacks(q, caps[1..], c);
      assert caps[0] == [caps[0][0]];
    case NumeralThenAny(q) =>
      WrittenLacks(q, caps[2..], c);
      NumberLacks(caps[0], c);
      assert caps[1] == [caps[1][0]];
  }

  /** A number holds no character outside `[0-9.]`. */
  lemma NumberLacks(x: string, c: char)
    requires Number(x) && !IsNumeric(c)
    ensures c !in x
  {
    forall k | 0 <= k < |x|
      ensures x[k] != c
    {
      assert IsNumeric(x[k]);
    }
  }

  /** The largest `e` in `(lo, hi]` with `ok(e)`: how a greedy group picks its end. */
  function Last(ok: nat -> bool, lo: nat, hi: nat): (r: Option<nat>)
    ensures r.Some? ==> lo < r.value <= hi && ok(r.value)
    decreases hi
  {
    if hi <= lo then None
    else if ok(hi) then Some(hi)
    else Last(ok, lo, hi - 1)
  }

  /** No `e` in `(lo, hi]` beyond the one `Last` picks has `ok(e)`. */
  lemma {:induction false} LastGreatest(ok: nat -> bool, lo: nat, hi: nat, e: nat)
    requires lo < e <= hi && ok(e)
    ensures Last(ok, lo, hi).Some? && e <= Last(ok, lo, hi).value
    decreases hi
  {
    if hi > e && !ok(hi) {
      LastGreatest(ok, lo, hi - 1, e);
    }
  }

  /** The smallest `k` in `[lo, hi]` with `ok(k)`: how an unanchored search picks its start. */
  function First(ok: nat -> bool, lo: nat, hi: nat): (r: Option<nat>)
    ensures r.Some? ==> lo <= r.value <= hi && ok(r.value)
    decreases hi - lo
  {
    if lo > hi then None
    else if ok(lo) then Some(lo)
    else First(ok, lo + 1, hi)
  }

  /** No `k` in `[lo, hi]` before the one `First` picks has `ok(k)`. */
  lemma {:induction false} FirstLeast(ok: nat -> bool, lo: nat, hi: nat, m: nat)
    requires lo <= m <= hi && ok(m)
    ensures First(ok, lo, hi).Some? && First(ok, lo, hi).value <= m
    decreases m - lo
  {
    if lo < m && !ok(lo) {
      FirstLeast(ok, lo + 1, hi, m);
    }
  }
}
