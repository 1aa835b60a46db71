/**
 * The `/evolution` response parser and update (backend/FactorioConnection.ts,
 * `updateEvolution`). Each non-empty line is searched for the pattern
 *
 *   (?:(?<planet>.+) - )?Evolution factor: (?<factor>[0-9.]+). \([tT]ime (?<time>[0-9.]+)%\)
 *     \(Pollution (?<pollution>[0-9.]+)%\) \(Spawner kills (?<kills>[0-9.]+)%\)
 *
 * without anchors, so a match may start and end anywhere in the line; the
 * `.` after the factor is the unescaped wildcard. If any line has no match
 * the map is left alone; otherwise every line overwrites the entry of its
 * planet, `Nauvis` when the match captured none.
 */
module Evolution {
  import opened Wrappers
  import opened Text
  import opened Matching

  const DefaultPlanet: string := "Nauvis"
  const FactorLabel: string := "Evolution factor: "
  const Dash: string := " - "
  const PollutionLabel: string := "%) (Pollution "
  const KillsLabel: string := "%) (Spawner kills "
  const Close: string := "%)"

  /** `(?<kills>[0-9.]+)%\)` */
  const KillsPattern: Pattern := Numeral(Literal(Close, End))

  /** `(?<pollution>[0-9.]+)%\) \(Spawner kills ` and the kills */
  const PollutionPattern: Pattern := Numeral(Literal(KillsLabel, KillsPattern))

  /** `(?<time>[0-9.]+)%\) \(Pollution ` and the pollution */
  const TimePattern: Pattern := Numeral(Literal(PollutionLabel, PollutionPattern))

  /** ` \([tT]ime ` and the time: all of the pattern after the wildcard. */
  const RestPattern: Pattern := Literal(" (", OneOf("tT", Literal("ime ", TimePattern)))

  /** `Evolution factor: (?<factor>[0-9.]+).` and the rest: the pattern after the planet group. */
  const FactorPattern: Pattern := Literal(FactorLabel, NumeralThenAny(RestPattern))

  /** What has to follow a planet: ` - ` and the factor pattern. */
  const AfterPlanet: Pattern := Literal(Dash, FactorPattern)

  /** The four captured numbers of a line, as the entry `evolution[planet]` holds them. */
  datatype Reading = Reading(factor: string, time: string, pollution: string, kills: string)

  /**
   * One match: the optional planet, the factor, the character the wildcard
   * `.` consumed after it, the letter `[tT]`, and the other three numbers.
   */
  datatype Line = Line(planet: Option<string>, factor: string, wildcard: char, initial: char,
                       time: string, pollution: string, kills: string)

  /** `evolution`: planet name to its latest reading. */
  type Evolutions = map<string, Reading>

  /** A planet `.+` can capture: non-empty, on one line. */
  predicate PlanetName(p: string)
  {
    p != [] && NoLineTerminator(p)
  }

  /** What a match can capture. */
  predicate WellFormed(l: Line)
  {
    && (l.planet.Some? ==> PlanetName(l.planet.value))
    && Number(l.factor) && DotReads(l.wildcard)
    && (l.initial == 't' || l.initial == 'T')
    && Number(l.time) && Number(l.pollution) && Number(l.kills)
  }

  /** The captures of `FactorPattern`, in order. */
  function Captures(l: Line): seq<string>
  {
    [l.factor, [l.wildcard], [l.initial], l.time, l.pollution, l.kills]
  }

  /** The line a planet and the captures of `FactorPattern` stand for. */
  function LineOf(planet: Option<string>, caps: seq<string>): Option<Line>
  {
    if |caps| == 6 && |caps[1]| == 1 && |caps[2]| == 1 then
      Some(Line(planet, caps[0], caps[1][0], caps[2][0], caps[3], caps[4], caps[5]))
    else None
  }

  /** The text a match spans. */
  function Render(l: Line): string
  {
    if l.planet.Some? then l.planet.value + Written(AfterPlanet, Captures(l))
    else Written(FactorPattern, Captures(l))
  }

  // -------------------------------------------------------------- matcher

  /** The length of the run of characters `.` accepts that starts at `i`. */
  function LineRun(s: string, i: nat): (n: nat)
    requires i <= |s|
    ensures i + n <= |s|
    ensures i + n == |s| || IsLineTerminator(s[i + n])
    decreases |s| - i
  {
    if i < |s| && !IsLineTerminator(s[i]) then 1 + LineRun(s, i + 1) else 0
  }

  /** `.` accepts every character of the run. */
  lemma {:induction false} LineRunSpan(s: string, i: nat)
    requires i <= |s|
    ensures forall k :: i <= k < i + LineRun(s, i) ==> !IsLineTerminator(s[k])
    decreases |s| - i
  {
    if i < |s| && !IsLineTerminator(s[i]) {
      LineRunSpan(s, i + 1);
    }
  }

  /** A planet spanning `[p, q)` lets the rest of the pattern match. */
  predicate PlanetEndsAt(s: string, p: nat, q: nat)
  {
    p < q && Match(s, q, AfterPlanet).Some?
  }

  /** The greedy `.+` from `p`: the largest end within the run of `.` that lets the rest match. */
  function PlanetEnd(s: string, p: nat): Option<nat>
    requires p <= |s|
  {
    Last(PlanetEnds(s, p), p, RunEnd(s, p))
  }

  /** Where the run of `.` from `p` ends. */
  function RunEnd(s: string, p: nat): nat
    requires p <= |s|
  {
    p + LineRun(s, p)
  }

  function PlanetEnds(s: string, p: nat): nat -> bool
  {
    (e: nat) => PlanetEndsAt(s, p, e)
  }

  /** The pattern anchored at `p`: first with the optional planet group, then without it. */
  function MatchAt(s: string, p: nat): Option<Line>
    requires p <= |s|
  {
    match PlanetEnd(s, p)
    case Some(q) => LineOf(Some(s[p..q]), Match(s, q, AfterPlanet).value)
    case None =>
      match Match(s, p, FactorPattern)
      case Some(caps) => LineOf(None, caps)
      case None => None
  }

  /** A match of the pattern starts at `k`. */
  predicate MatchesAt(s: string, k: nat)
  {
    k <= |s| && MatchAt(s, k).Some?
  }

  function Starts(line: string): nat -> bool
  {
    (k: nat) => MatchesAt(line, k)
  }

  /** `line.match(pattern)`: the unanchored search takes the match at the leftmost position that has one. */
  function ParseLine(line: string): Option<Line>
  {
    match First(Starts(line), 0, |line|)
    case Some(k) => MatchAt(line, k)
    case None => None
  }

  // ------------------------------------------------------------- captures

  /** The captures `FactorPattern` accepts are exactly those of a well-formed line. */
  lemma {:induction false} CapturesFit(l: Line)
    ensures Fits(FactorPattern, Captures(l)) <==> WellFormed(l.(planet := None))
  {
    var c := Captures(l);
    var r := c[2..];
    assert r == [[l.initial], l.time, l.pollution, l.kills];
    assert r[1..] == [l.time, l.pollution, l.kills];
    assert r[1..][1..] == [l.pollution, l.kills];
    assert r[1..][1..][1..] == [l.kills];
    assert r[1..][1..][1..][1..] == [];
    assert Fits(Literal(Close, End), []);
    assert Fits(KillsPattern, [l.kills]) <==> Number(l.kills);
    assert Fits(PollutionPattern, [l.pollution, l.kills]) <==>
      Number(l.pollution) && Fits(Literal(KillsLabel, KillsPattern), [l.kills]);
    assert Fits(TimePattern, r[1..]) <==>
      Number(l.time) && Fits(Literal(PollutionLabel, PollutionPattern), [l.pollution, l.kills]);
    assert Fits(OneOf("tT", Literal("ime ", TimePattern)), r) <==> l.initial in "tT" && Fits(TimePattern, r[1..]);
    assert Fits(NumeralThenAny(RestPattern), c) <==>
      Number(l.factor) && DotReads(l.wildcard) && Fits(RestPattern, r);
  }

  /** Captures that fit `FactorPattern` are those of a line. */
  lemma {:induction false} FitsShape(planet: Option<string>, c: seq<string>)
    requires Fits(FactorPattern, c)
    ensures LineOf(planet, c).Some? && Captures(LineOf(planet, c).value) == c
  {
    assert Fits(NumeralThenAny(RestPattern), c);
    var r := c[2..];
    assert Fits(RestPattern, r);
    assert Fits(OneOf("tT", Literal("ime ", TimePattern)), r);
    assert Fits(Literal("ime ", TimePattern), r[1..]);
    assert Fits(TimePattern, r[1..]);
    assert Fits(Literal(PollutionLabel, PollutionPattern), r[1..][1..]);
    assert Fits(PollutionPattern, r[1..][1..]);
    assert Fits(Literal(KillsLabel, KillsPattern), r[1..][1..][1..]);
    assert Fits(KillsPattern, r[1..][1..][1..]);
    assert Fits(Literal(Close, End), r[1..][1..][1..][1..]);
    assert Fits(End, r[1..][1..][1..][1..]);
    assert c[1] == [c[1][0]] && c[2] == [c[2][0]];
  }

  /** The pattern meets the condition under which greedy runs are exact. */
  lemma {:induction false} PatternGuarded()
    ensures Guarded(FactorPattern) && Guarded(AfterPlanet)
  {
    assert Guarded(KillsPattern);
    assert Guarded(PollutionPattern);
    assert Guarded(TimePattern);
    assert Guarded(RestPattern);
  }

  /** No piece of the pattern after the wildcard reads a line feed. */
  lemma {:induction false} RestLacksNewline()
    ensures Lacks(RestPattern, '\n')
  {
    assert '\n' !in Close && '\n' !in KillsLabel && '\n' !in PollutionLabel;
    assert '\n' !in " (" && '\n' !in "tT" && '\n' !in "ime ";
    assert Lacks(KillsPattern, '\n');
    assert Lacks(PollutionPattern, '\n');
    assert Lacks(TimePattern, '\n');
  }

  /** No piece of the pattern reads a line feed. */
  lemma {:induction false} PatternLacksNewline()
    ensures Lacks(FactorPattern, '\n') && Lacks(AfterPlanet, '\n')
  {
    RestLacksNewline();
    assert '\n' !in FactorLabel && '\n' !in Dash;
  }

  /** A line is the one its captures stand for. */
  lemma {:induction false} LineOfCaptures(l: Line)
    ensures LineOf(l.planet, Captures(l)) == Some(l)
  {
  }

  // ------------------------------------------------------------ soundness

  /** What the pattern after a planet reads at `q` is a well-formed line written there. */
  lemma {:induction false} AfterPlanetSound(s: string, p: nat, q: nat)
    requires p < q <= |s| && Match(s, q, AfterPlanet).Some?
    requires forall k :: p <= k < q ==> !IsLineTerminator(s[k])
    ensures LineOf(Some(s[p..q]), Match(s, q, AfterPlanet).value).Some?
    ensures var l := LineOf(Some(s[p..q]), Match(s, q, AfterPlanet).value).value;
      WellFormed(l) && At(s, p, Render(l))
  {
    var c := Match(s, q, AfterPlanet).value;
    var pl := s[p..q];
    MatchSound(s, q, AfterPlanet);
    FitsShape(Some(pl), c);
    var l := LineOf(Some(pl), c).value;
    CapturesFit(l);
    forall k | 0 <= k < |pl|
      ensures !IsLineTerminator(pl[k])
    {
      assert pl[k] == s[p + k];
    }
    AtSlice(s, p, pl);
    AtConcat(s, p, pl, Written(AfterPlanet, c));
  }

  /** What the factor pattern reads at `p` is a well-formed line without planet, written there. */
  lemma {:induction false} FactorSound(s: string, p: nat)
    requires Match(s, p, FactorPattern).Some?
    ensures LineOf(None, Match(s, p, FactorPattern).value).Some?
    ensures var l := LineOf(None, Match(s, p, FactorPattern).value).value;
      WellFormed(l) && At(s, p, Render(l))
  {
    var c := Match(s, p, FactorPattern).value;
    MatchSound(s, p, FactorPattern);
    FitsShape(None, c);
    CapturesFit(LineOf(None, c).value);
  }

  /** Every match the anchored matcher returns is well formed and written at its position. */
  lemma {:induction false} MatchAtSound(s: string, p: nat)
    requires p <= |s| && MatchAt(s, p).Some?
    ensures WellFormed(MatchAt(s, p).value) && At(s, p, Render(MatchAt(s, p).value))
  {
    match PlanetEnd(s, p)
    case Some(q) =>
      LineRunSpan(s, p);
      AfterPlanetSound(s, p, q);
    case None =>
      FactorSound(s, p);
  }

  /** Soundness: every line the pattern accepts contains the rendering of what it captured. */
  lemma {:induction false} ParseSound(line: string)
    requires ParseLine(line).Some?
    ensures WellFormed(ParseLine(line).value)
    ensures exists k: nat :: k <= |line| && At(line, k, Render(ParseLine(line).value))
  {
    var k := First(Starts(line), 0, |line|).value;
    MatchAtSound(line, k);
  }

  /** The match an accepted line yields starts at the leftmost position where one starts. */
  lemma {:induction false} ParseLeftmost(line: string, m: nat)
    requires m <= |line| && MatchesAt(line, m)
    ensures ParseLine(line).Some? && First(Starts(line), 0, |line|).value <= m
  {
    FirstLeast(Starts(line), 0, |line|, m);
  }

  // --------------------------------------------------------- completeness

  lemma {:induction false} LineRunAtLeast(s: string, i: nat, m: nat)
    requires i + m <= |s|
    requires forall k :: i <= k < i + m ==> !IsLineTerminator(s[k])
    ensures LineRun(s, i) >= m
    decreases m
  {
    if m > 0 {
      LineRunAtLeast(s, i + 1, m - 1);
    }
  }

  /** Wherever the planet group picks its end, the rest of the pattern reads a line. */
  lemma {:induction false} PlanetEndDecodes(s: string, p: nat)
    requires p <= |s| && PlanetEnd(s, p).Some?
    ensures MatchAt(s, p).Some?
  {
    var q := PlanetEnd(s, p).value;
    MatchSound(s, q, AfterPlanet);
    FitsShape(Some(s[p..q]), Match(s, q, AfterPlanet).value);
  }

  /** Where the text after a planet is written for captures that fit, the matcher reads them back. */
  lemma {:induction false} AfterPlanetReads(s: string, e: nat, c: seq<string>)
    requires Fits(FactorPattern, c) && At(s, e, Written(AfterPlanet, c))
    ensures Match(s, e, AfterPlanet) == Some(c)
  {
    PatternGuarded();
    MatchComplete(s, e, AfterPlanet, c);
  }

  /** Behind a planet written at `p`, the pattern after the planet reads the line's captures. */
  lemma {:induction false} AfterPlanetWritten(s: string, p: nat, l: Line)
    requires WellFormed(l) && l.planet.Some? && At(s, p, Render(l))
    ensures Match(s, p + |l.planet.value|, AfterPlanet) == Some(Captures(l))
  {
    var pl := l.planet.value;
    var c := Captures(l);
    AtConcat(s, p, pl, Written(AfterPlanet, c));
    CapturesFit(l);
    AfterPlanetReads(s, p + |pl|, c);
  }

  /** A planet written at `p` is a slice of `s` within the run of `.` from `p`. */
  lemma {:induction false} PlanetInRun(s: string, p: nat, l: Line)
    requires WellFormed(l) && l.planet.Some? && At(s, p, Render(l))
    ensures var e := p + |l.planet.value|;
      p <= |s| && e <= RunEnd(s, p) && s[p..e] == l.planet.value
  {
    var pl := l.planet.value;
    var e := p + |pl|;
    AtConcat(s, p, pl, Written(AfterPlanet, Captures(l)));
    AtSlice(s, p, pl);
    assert forall k :: p <= k < e ==> s[k] == pl[k - p];
    LineRunAtLeast(s, p, |pl|);
  }

  /** A planet written at `p`, followed by the text after it: the group can end where the planet does. */
  lemma {:induction false} PlanetWritten(s: string, p: nat, l: Line)
    requires WellFormed(l) && l.planet.Some? && At(s, p, Render(l))
    ensures var e := p + |l.planet.value|;
      p <= |s| && e <= RunEnd(s, p) && PlanetEndsAt(s, p, e) &&
      s[p..e] == l.planet.value && Match(s, e, AfterPlanet) == Some(Captures(l))
  {
    AfterPlanetWritten(s, p, l);
    PlanetInRun(s, p, l);
  }

  lemma {:induction false} MatchAtNoPlanet(s: string, p: nat)
    requires p <= |s| && PlanetEnd(s, p).None?
    ensures MatchAt(s, p) == if Match(s, p, FactorPattern).Some? then LineOf(None, Match(s, p, FactorPattern).value) else None
  {
  }

  /** Where the planet group finds no end but the factor pattern matches, the anchored matcher reads a line. */
  lemma {:induction false} FactorDecodes(s: string, p: nat)
    requires p <= |s| && PlanetEnd(s, p).None? && Match(s, p, FactorPattern).Some?
    ensures MatchAt(s, p).Some?
  {
    MatchAtNoPlanet(s, p);
    MatchFits(s, p, FactorPattern);
    FitsShape(None, Match(s, p, FactorPattern).value);
  }

  /** A planet end the pattern accepts within the run gives the greedy group an end. */
  lemma {:induction false} PlanetEndExists(s: string, p: nat, e: nat)
    requires p <= |s| && p < e <= RunEnd(s, p) && Match(s, e, AfterPlanet).Some?
    ensures PlanetEnd(s, p).Some?
  {
    var ok := PlanetEnds(s, p);
    assert ok(e);
    LastGreatest(ok, p, RunEnd(s, p), e);
  }

  /** Where the factor pattern matches, the anchored matcher reads a line, with a planet or without. */
  lemma {:induction false} FactorMatchFinds(s: string, p: nat)
    requires p <= |s| && Match(s, p, FactorPattern).Some?
    ensures MatchAt(s, p).Some?
  {
    var r := PlanetEnd(s, p);
    if r.Some? {
      PlanetEndDecodes(s, p);
    } else {
      FactorDecodes(s, p);
    }
  }

  /** A line without planet written at `p` lets the factor pattern match there. */
  lemma {:induction false} FactorFinds(s: string, p: nat, l: Line)
    requires WellFormed(l) && l.planet.None? && At(s, p, Render(l))
    ensures Match(s, p, FactorPattern) == Some(Captures(l))
  {
    CapturesFit(l);
    PatternGuarded();
    MatchComplete(s, p, FactorPattern, Captures(l));
  }

  /** A planet written at `p` is an end the greedy group can pick. */
  lemma {:induction false} PlanetHasEnd(s: string, p: nat, l: Line)
    requires WellFormed(l) && l.planet.Some? && At(s, p, Render(l))
    ensures p <= |s| && p < p + |l.planet.value| <= RunEnd(s, p)
    ensures Match(s, p + |l.planet.value|, AfterPlanet).Some?
  {
    PlanetWritten(s, p, l);
  }

  /** A planet written at `p` gives the greedy group an end. */
  lemma {:induction false} PlanetFinds(s: string, p: nat, l: Line)
    requires WellFormed(l) && l.planet.Some? && At(s, p, Render(l))
    ensures p <= |s| && PlanetEnd(s, p).Some?
  {
    PlanetHasEnd(s, p, l);
    PlanetEndExists(s, p, p + |l.planet.value|);
  }

  /** Completeness at one position: where a well-formed match is written, the anchored matcher finds one. */
  lemma {:induction false} MatchAtFinds(s: string, p: nat, l: Line)
    requires p <= |s| && WellFormed(l) && At(s, p, Render(l))
    ensures MatchAt(s, p).Some?
  {
    if l.planet.Some? {
      PlanetFinds(s, p, l);
      PlanetEndDecodes(s, p);
    } else {
      FactorFinds(s, p, l);
      FactorMatchFinds(s, p);
    }
  }

  /** Completeness: a line that contains a well-formed match is accepted. */
  lemma {:induction false} ParseComplete(line: string, p: nat, l: Line)
    requires p <= |line| && WellFormed(l) && At(line, p, Render(l))
    ensures ParseLine(line).Some?
  {
    MatchAtFinds(line, p, l);
    FirstLeast(Starts(line), 0, |line|, p);
  }

  // ----------------------------------------------------------- round trip

  /** `s` has no space directly followed by a dash, so the separator ` - ` starts nowhere in it. */
  predicate NoSpaceDash(s: string)
  {
    forall k :: 0 <= k < |s| - 1 ==> !(s[k] == ' ' && s[k + 1] == '-')
  }

  lemma {:induction false} NoSpaceDashConcat(a: string, b: string)
    requires NoSpaceDash(a) && NoSpaceDash(b)
    requires a == [] || b == [] || a[|a| - 1] != ' ' || b[0] != '-'
    ensures NoSpaceDash(a + b)
  {
    var s := a + b;
    forall k | 0 <= k < |s| - 1
      ensures !(s[k] == ' ' && s[k + 1] == '-')
    {
      if k + 1 < |a| {
        assert s[k] == a[k] && s[k + 1] == a[k + 1];
      } else if k >= |a| {
        assert s[k] == b[k - |a|] && s[k + 1] == b[k + 1 - |a|];
      }
    }
  }

  lemma {:induction false} DashFreeNoSpaceDash(s: string)
    requires '-' !in s
    ensures NoSpaceDash(s)
  {
    forall k | 0 <= k < |s| - 1
      ensures !(s[k] == ' ' && s[k + 1] == '-')
    {
      assert s[k + 1] in s;
    }
  }

  /** From the time on, no piece of the pattern reads a dash. */
  lemma {:induction false} TimeLacksDash()
    ensures Lacks(TimePattern, '-')
  {
    assert '-' !in Close && '-' !in KillsLabel && '-' !in PollutionLabel;
    assert Lacks(KillsPattern, '-');
    assert Lacks(PollutionPattern, '-');
  }

  /** After the wildcard, no piece of the pattern reads a dash. */
  lemma {:induction false} LabelsLackDash()
    ensures Lacks(RestPattern, '-') && '-' !in FactorLabel
  {
    TimeLacksDash();
    assert '-' !in " (" && '-' !in "tT" && '-' !in "ime ";
  }

  /** The text of the factor pattern: the label, the number, the wildcard's character and the rest. */
  lemma {:induction false} FactorWritten(c: seq<string>)
    requires |c| >= 2
    ensures Written(FactorPattern, c) == FactorLabel + c[0] + c[1] + Written(RestPattern, c[2..])
  {
    assert Written(NumeralThenAny(RestPattern), c) == c[0] + (c[1] + Written(RestPattern, c[2..]));
  }

  /** After the factor label, the only dash can be the wildcard's, and it follows a digit or a dot. */
  lemma {:induction false} FactorNoSpaceDash(c: seq<string>)
    requires Fits(FactorPattern, c)
    ensures NoSpaceDash(Written(FactorPattern, c))
  {
    assert Fits(NumeralThenAny(RestPattern), c);
    var x := c[0];
    var rest := Written(RestPattern, c[2..]);
    var f := FactorLabel + x;
    FactorWritten(c);
    LabelsLackDash();
    NumberLacks(x, '-');
    assert '-' !in FactorLabel + x;
    DashFreeNoSpaceDash(f);
    assert f[|f| - 1] == x[|x| - 1];
    NoSpaceDashConcat(f, c[1]);
    WrittenLacks(RestPattern, c[2..], '-');
    DashFreeNoSpaceDash(rest);
    NoSpaceDashConcat(f + c[1], rest);
  }

  /** In the text after a planet, ` - ` starts only at its very beginning. */
  lemma {:induction false} AfterPlanetNoSpaceDash(c: seq<string>, k: nat)
    requires Fits(FactorPattern, c)
    requires 0 < k && k + 1 < |Written(AfterPlanet, c)|
    ensures var w := Written(AfterPlanet, c); !(w[k] == ' ' && w[k + 1] == '-')
  {
    var f := Written(FactorPattern, c);
    FactorNoSpaceDash(c);
    assert Written(AfterPlanet, c) == Dash + f;
    if k >= 3 {
      assert f[k - 3] == (Dash + f)[k];
    } else if k == 2 {
      assert f[0] == 'E';
    }
  }

  /** Where the text after a planet matches, it starts with ` - `. */
  lemma {:induction false} AfterPlanetDash(s: string, e: nat)
    requires Match(s, e, AfterPlanet).Some?
    ensures e + 1 < |s| && s[e] == ' ' && s[e + 1] == '-'
  {
    AtIndex(s, e, Dash, 0);
    AtIndex(s, e, Dash, 1);
  }

  /** In a rendering, ` - ` starts where the planet ends and nowhere after it; without a planet,
    * nowhere at all. */
  lemma {:induction false} SeparatorOnlyAfterPlanet(l: Line, e: nat)
    requires WellFormed(l) && e + 1 < |Render(l)| && Render(l)[e] == ' ' && Render(l)[e + 1] == '-'
    requires l.planet.Some? ==> e >= |l.planet.value|
    ensures l.planet.Some? && e == |l.planet.value|
  {
    var s := Render(l);
    var c := Captures(l);
    CapturesFit(l);
    if l.planet.Some? {
      var pl := l.planet.value;
      var w := Written(AfterPlanet, c);
      if e > |pl| {
        assert s[e] == w[e - |pl|] && s[e + 1] == w[e - |pl| + 1];
        AfterPlanetNoSpaceDash(c, e - |pl|);
      }
    } else {
      FactorNoSpaceDash(c);
    }
  }

  /** Round trip: a well-formed match, written out as a line, is read back as itself. */
  lemma {:induction false} ParseRender(l: Line)
    requires WellFormed(l)
    ensures ParseLine(Render(l)) == Some(l)
  {
    var s := Render(l);
    AtSelf(s);
    MatchAtFinds(s, 0, l);
    var r := PlanetEnd(s, 0);
    if l.planet.Some? {
      PlanetWritten(s, 0, l);
      LastGreatest(PlanetEnds(s, 0), 0, RunEnd(s, 0), |l.planet.value|);
      AfterPlanetDash(s, r.value);
      SeparatorOnlyAfterPlanet(l, r.value);
    } else {
      if r.Some? {
        AfterPlanetDash(s, r.value);
        SeparatorOnlyAfterPlanet(l, r.value);
      }
      FactorFinds(s, 0, l);
    }
    LineOfCaptures(l);
  }

  // --------------------------------------------------------------- update

  function PlanetOf(l: Line): string
  {
    if l.planet.Some? then l.planet.value else DefaultPlanet
  }

  function ReadingOf(l: Line): Reading
  {
    Reading(l.factor, l.time, l.pollution, l.kills)
  }

  /** `evolution.split('\n').filter(l => l)` */
  function EvolutionLines(text: string): seq<string>
  {
    NonEmpty(Split(text, '\n'))
  }

  /** Every line matched, or `None` as soon as one line fails (`matches.some(m => !m)`). */
  function ParseAll(lines: seq<string>): Option<seq<Line>>
  {
    AllOf(lines, ParseLine)
  }

  function ParseEvolution(text: string): Option<seq<Line>>
  {
    ParseAll(EvolutionLines(text))
  }

  /** The `forEach` that writes `evolution[planet]` line by line. */
  function Record(evo: Evolutions, ls: seq<Line>): Evolutions
    decreases |ls|
  {
    if ls == [] then evo
    else
      var last := ls[|ls| - 1];
      Record(evo, ls[..|ls| - 1])[PlanetOf(last) := ReadingOf(last)]
  }

  /** The response's `evolution` update: nothing unless the response is non-empty and every line matches. */
  function EvolutionAfter(evo: Evolutions, response: Option<string>): Evolutions
  {
    if response.None? || response.value == [] then evo
    else
      match ParseEvolution(response.value)
      case None => evo
      case Some(ls) => Record(evo, ls)
  }

  /** The reading of the last line for `planet`, found scanning from the front. */
  function LastReading(ls: seq<Line>, planet: string): Option<Reading>
  {
    if ls == [] then None
    else
      match LastReading(ls[1..], planet)
      case Some(r) => Some(r)
      case None => if PlanetOf(ls[0]) == planet then Some(ReadingOf(ls[0])) else None
  }

  function Get(evo: Evolutions, planet: string): Option<Reading>
  {
    if planet in evo then Some(evo[planet]) else None
  }

  // ----------------------------------------------------------- properties

  /** The batch is refused exactly when some line has no match. */
  lemma {:induction false} ParseAllFails(lines: seq<string>)
    ensures ParseAll(lines).None? <==> exists i :: 0 <= i < |lines| && ParseLine(lines[i]).None?
  {
    AllOfFails(lines, ParseLine);
  }

  /** An accepted batch holds the match of every line, in order. */
  lemma {:induction false} ParseAllLines(lines: seq<string>, i: nat)
    requires ParseAll(lines).Some? && i < |lines|
    ensures ParseLine(lines[i]) == Some(ParseAll(lines).value[i])
  {
    AllOfAt(lines, ParseLine, i);
  }

  /** All or nothing: one line without a match leaves the whole map as it was. */
  lemma {:induction false} GarbledLeavesEvolution(evo: Evolutions, text: string, i: nat)
    requires i < |EvolutionLines(text)| && ParseLine(EvolutionLines(text)[i]).None?
    ensures EvolutionAfter(evo, Some(text)) == evo
  {
    ParseAllFails(EvolutionLines(text));
  }

  lemma {:induction false} LastReadingSnoc(ls: seq<Line>, l: Line, planet: string)
    ensures LastReading(ls + [l], planet) ==
              if PlanetOf(l) == planet then Some(ReadingOf(l)) else LastReading(ls, planet)
    decreases |ls|
  {
    if ls == [] {
      assert ([l])[1..] == [];
    } else {
      assert (ls + [l])[1..] == ls[1..] + [l];
      LastReadingSnoc(ls[1..], l, planet);
    }
  }

  /** Planet by planet, the update is the last reading for it, or the old entry when no line names it. */
  lemma {:induction false} RecordGet(evo: Evolutions, ls: seq<Line>, planet: string)
    ensures Get(Record(evo, ls), planet) ==
              if LastReading(ls, planet).Some? then LastReading(ls, planet) else Get(evo, planet)
    decreases |ls|
  {
    if ls != [] {
      var init := ls[..|ls| - 1];
      RecordGet(evo, init, planet);
      LastReadingSnoc(init, ls[|ls| - 1], planet);
      assert init + [ls[|ls| - 1]] == ls;
    }
  }

  /** A planet has a reading in a batch exactly when some line names it. */
  lemma {:induction false} LastReadingNone(ls: seq<Line>, planet: string)
    ensures LastReading(ls, planet).None? <==> forall i :: 0 <= i < |ls| ==> PlanetOf(ls[i]) != planet
  {
    if ls != [] {
      LastReadingNone(ls[1..], planet);
      assert forall i :: 1 <= i < |ls| ==> ls[i] == ls[1..][i - 1];
    }
  }

  /** Empty lines are ignored: dropping them from a response never changes what it parses to. */
  lemma {:induction false} EmptyLinesIgnored(parts: seq<string>)
    requires forall i :: 0 <= i < |parts| ==> '\n' !in parts[i]
    ensures ParseEvolution(Join(parts, '\n')) == ParseEvolution(Join(NonEmpty(parts), '\n'))
  {
    var kept := NonEmpty(parts);
    if parts == [] {
      assert Join(parts, '\n') == [];
    } else {
      SplitJoin(parts, '\n');
    }
    if kept == [] {
      assert Join(kept, '\n') == [];
      assert Split([], '\n') == [[]] by {
        SplitPlain([], '\n');
      }
    } else {
      forall i | 0 <= i < |kept|
        ensures '\n' !in kept[i]
      {
        NonEmptyFrom(parts, i);
      }
      SplitJoin(kept, '\n');
      NonEmptyIdempotent(parts);
    }
  }

  /** A rendered match is on one line. */
  lemma {:induction false} RenderedHasNoNewline(l: Line)
    requires WellFormed(l)
    ensures '\n' !in Render(l)
  {
    var c := Captures(l);
    CapturesFit(l);
    PatternLacksNewline();
    WrittenLacks(AfterPlanet, c, '\n');
    WrittenLacks(FactorPattern, c, '\n');
    if l.planet.Some? {
      var pl := l.planet.value;
      forall k | 0 <= k < |pl|
        ensures pl[k] != '\n'
      {
        assert !IsLineTerminator(pl[k]);
      }
      assert '\n' !in pl + Written(AfterPlanet, c);
    }
  }

  /** A response of one line that matches writes exactly that match's planet. */
  lemma {:induction false} OneLine(evo: Evolutions, text: string, l: Line)
    requires text != [] && '\n' !in text && ParseLine(text) == Some(l)
    ensures EvolutionAfter(evo, Some(text)) == evo[PlanetOf(l) := ReadingOf(l)]
  {
    SplitPlain(text, '\n');
    assert EvolutionLines(text) == [text];
    AllOfOne(text, ParseLine);
    assert ParseEvolution(text) == Some([l]);
    assert ([l])[..0] == [];
    assert Record(evo, [l]) == Record(evo, [])[PlanetOf(l) := ReadingOf(l)];
  }

  /** A response of one match writes exactly that match's planet, `Nauvis` when it names none. */
  lemma {:induction false} SingleLine(evo: Evolutions, l: Line)
    requires WellFormed(l)
    ensures EvolutionAfter(evo, Some(Render(l))) == evo[PlanetOf(l) := ReadingOf(l)]
  {
    ParseRender(l);
    RenderedHasNoNewline(l);
    OneLine(evo, Render(l), l);
  }
}
