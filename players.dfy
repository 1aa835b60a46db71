/**
 * The parser of the `/players` response (backend/FactorioConnection.ts,
 * `updatePlayers`): the header `Players (<count>):`, the list of trimmed,
 * non-empty lines after it, the count check, and the entry pattern
 * `^(?<name>.+?)(?<online> \(online\))?$`.
 */
module Players {
  import opened Wrappers
  import opened Text

  const HeaderOpen: string := "Players ("
  const HeaderClose: string := "):"
  const OnlineMarker: string := " (online)"

  /** One line of the player list: a name and whether it carried the online marker. */
  datatype Entry = Entry(name: string, online: bool)

  /** The count and the captured rest of the response. */
  datatype Header = Header(count: nat, body: string)

  // --------------------------------------------------------------- header

  /**
   * The header pattern `Players \((\d+)\):` matches at position `p`. The
   * digits are the maximal run there: a shorter run is followed by a digit,
   * never by `)`, so backtracking cannot find another.
   */
  predicate HeaderAt(text: string, p: nat)
  {
    && p + |HeaderOpen| <= |text|
    && text[p..p + |HeaderOpen|] == HeaderOpen
    && var n := DigitRun(text, p + |HeaderOpen|);
       && n >= 1
       && p + |HeaderOpen| + n + |HeaderClose| <= |text|
       && text[p + |HeaderOpen| + n..p + |HeaderOpen| + n + |HeaderClose|] == HeaderClose
  }

  /** The unanchored search: the leftmost position at or after `from` where the header matches. */
  function FindHeader(text: string, from: nat): (r: Option<nat>)
    requires from <= |text|
    ensures r.Some? ==> from <= r.value <= |text| && HeaderAt(text, r.value)
    ensures r.Some? ==> forall q :: from <= q < r.value ==> !HeaderAt(text, q)
    ensures r.None? ==> forall q :: from <= q <= |text| ==> !HeaderAt(text, q)
    decreases |text| - from
  {
    if HeaderAt(text, from) then Some(from)
    else if from == |text| then None
    else FindHeader(text, from + 1)
  }

  /** The characters `(?:.|\n)` accepts: everything but `\r`, U+2028 and U+2029. */
  predicate InBody(c: char)
  {
    c == '\n' || !IsLineTerminator(c)
  }

  /** The greedy `(?:.|\n)*`: the longest prefix of `s` made of `InBody` characters. */
  function TakeBody(s: string): (r: string)
    ensures |r| <= |s| && r == s[..|r|]
    ensures forall k :: 0 <= k < |r| ==> InBody(r[k])
    ensures |r| == |s| || !InBody(s[|r|])
  {
    if s != [] && InBody(s[0]) then [s[0]] + TakeBody(s[1..]) else []
  }

  lemma {:induction false} TakeBodyWhole(s: string)
    requires forall k :: 0 <= k < |s| ==> InBody(s[k])
    ensures TakeBody(s) == s
  {
    if s != [] {
      TakeBodyWhole(s[1..]);
      assert [s[0]] + s[1..] == s;
    }
  }

  /** `players.match(/Players \((?<num>\d+)\):(?<players>(?:.|\n)*)/)` with its two groups. */
  function MatchHeader(text: string): Option<Header>
  {
    match FindHeader(text, 0)
    case None => None
    case Some(p) =>
      var start := p + |HeaderOpen|;
      var n := DigitRun(text, start);
      Some(Header(DecimalValue(text[start..start + n]),
                  TakeBody(text[start + n + |HeaderClose|..])))
  }

  /** `body.split('\n').map(player => player.trim()).filter(player => player)` */
  function PlayerLines(body: string): seq<string>
  {
    NonEmpty(TrimAll(Split(body, '\n')))
  }

  /**
   * The `playersList` that `updatePlayers` goes on to fold, or `None` when it
   * returns first: no header, or a count different from the number of lines.
   */
  function PlayersList(text: string): Option<seq<string>>
  {
    match MatchHeader(text)
    case None => None
    case Some(h) =>
      var lines := PlayerLines(h.body);
      if h.count == |lines| then Some(lines) else None
  }

  // ---------------------------------------------------------------- entry

  /** What follows the name can be the optional group followed by `$`. */
  predicate MarkerRest(e: string, k: nat)
    requires k <= |e|
  {
    e[k..] == [] || e[k..] == OnlineMarker
  }

  /** The lazy `.+?`: the shortest name of length at least `k` after which the rest of the pattern matches. */
  function LazyName(e: string, k: nat): (n: nat)
    requires 1 <= k <= |e|
    ensures k <= n <= |e| && MarkerRest(e, n)
    ensures forall j :: k <= j < n ==> !MarkerRest(e, j)
    decreases |e| - k
  {
    if MarkerRest(e, k) then k else LazyName(e, k + 1)
  }

  /** The entry carries the marker after a non-empty name. */
  predicate HasMarker(e: string)
  {
    |e| > |OnlineMarker| && EndsWith(e, OnlineMarker)
  }

  /**
   * `player.match(/^(?<name>.+?)(?<online> \(online\))?$/)`. It fails on an
   * empty line and on a line holding a line terminator (`.` refuses them and
   * `$` without the `m` flag is the end of the input); otherwise a line that
   * ends in ` (online)` after a non-empty name is that name, online, and any
   * other line is itself, offline.
   */
  function ParseEntry(e: string): (r: Option<Entry>)
    ensures r.Some? <==> e != [] && NoLineTerminator(e)
    ensures r.Some? && HasMarker(e) ==> r.value == Entry(e[..|e| - |OnlineMarker|], true)
    ensures r.Some? && !HasMarker(e) ==> r.value == Entry(e, false)
  {
    if e == [] || !NoLineTerminator(e) then None
    else
      var k := LazyName(e, 1);
      assert HasMarker(e) ==> k == |e| - |OnlineMarker| by {
        if HasMarker(e) {
          assert MarkerRest(e, |e| - |OnlineMarker|);
        }
      }
      assert !HasMarker(e) ==> k == |e| by {
        if k < |e| {
          assert e[k..] == OnlineMarker;
          assert EndsWith(e, OnlineMarker);
        }
      }
      Some(Entry(e[..k], k < |e|))
  }

  /** The `forEach` skips a line its pattern does not match. */
  function Entries(lines: seq<string>): (es: seq<Entry>)
    ensures |es| <= |lines|
    ensures (forall i :: 0 <= i < |lines| ==> ParseEntry(lines[i]).Some?) ==>
              && |es| == |lines|
              && forall i :: 0 <= i < |lines| ==> es[i] == ParseEntry(lines[i]).value
  {
    if lines == [] then []
    else
      var rest := Entries(lines[1..]);
      match ParseEntry(lines[0])
      case None => rest
      case Some(e) => [e] + rest
  }

  /** The entries a `/players` response reports, or `None` if `updatePlayers` rejects it. */
  function ParsePlayers(text: string): Option<seq<Entry>>
  {
    match PlayersList(text)
    case None => None
    case Some(lines) => Some(Entries(lines))
  }

  // ------------------------------------------------------------ properties

  /**
   * The response is rejected exactly when the header is missing or its count
   * differs from the number of non-blank trimmed lines after it.
   */
  lemma RejectedIff(text: string)
    ensures ParsePlayers(text).None? <==>
              || MatchHeader(text).None?
              || MatchHeader(text).value.count != |NonBlankLines(MatchHeader(text).value.body)|
  {
    if MatchHeader(text).Some? {
      PlayerLinesCount(MatchHeader(text).value.body);
    }
  }

  /** The positions of the lines of `body` that are not blank once trimmed. */
  function NonBlankLines(body: string): set<nat>
  {
    var parts := Split(body, '\n');
    set i: nat | i < |parts| && Trim(parts[i]) != []
  }

  /** The list holds one line for every line of the body that is not blank once trimmed. */
  lemma PlayerLinesCount(body: string)
    ensures |PlayerLines(body)| == |NonBlankLines(body)|
  {
    var trimmed := TrimAll(Split(body, '\n'));
    NonEmptyCount(trimmed);
    assert NonBlank(trimmed) == NonBlankLines(body);
  }

  /** No line of an accepted list is skipped: the body holds no character the entry pattern refuses. */
  lemma {:induction false} ListedLinesMatch(text: string)
    requires PlayersList(text).Some?
    ensures forall i :: 0 <= i < |PlayersList(text).value| ==> ParseEntry(PlayersList(text).value[i]).Some?
  {
    var h := MatchHeader(text).value;
    var parts := Split(h.body, '\n');
    var lines := PlayersList(text).value;
    forall i | 0 <= i < |lines|
      ensures ParseEntry(lines[i]).Some?
    {
      var line := lines[i];
      NonEmptyFrom(TrimAll(parts), i);
      var j :| 0 <= j < |parts| && TrimAll(parts)[j] == line;
      forall k | 0 <= k < |line|
        ensures !IsLineTerminator(line[k])
      {
        var c := line[k];
        TrimSubset(parts[j], c);
        SplitChars(h.body, '\n', j, c);
        var m :| 0 <= m < |h.body| && h.body[m] == c;
        assert InBody(h.body[m]);
      }
    }
  }

  /** An accepted response yields exactly as many entries as its header announces. */
  lemma AcceptedCountsMatch(text: string)
    requires ParsePlayers(text).Some?
    ensures |ParsePlayers(text).value| == MatchHeader(text).value.count
  {
    ListedLinesMatch(text);
  }

  // ------------------------------------------------------------ round trip

  /** A name the server can list: one line, no white space at either end. */
  predicate ListableName(name: string)
  {
    name != [] && NoLineTerminator(name) && !IsSpace(name[0]) && !IsSpace(name[|name| - 1])
  }

  /** An entry whose rendering reads back as itself: an offline name must not look online. */
  predicate ListableEntry(e: Entry)
  {
    ListableName(e.name) && (!e.online ==> !HasMarker(e.name))
  }

  function RenderEntry(e: Entry): string
  {
    e.name + (if e.online then OnlineMarker else [])
  }

  /** A `/players` response in the shape the parser expects: the header, then one line per entry. */
  function RenderPlayers(es: seq<Entry>): string
  {
    HeaderOpen + Decimal(|es|) + HeaderClose + Join([[]] + ToLines(es), '\n')
  }

  lemma EntryRoundTrip(e: Entry)
    requires ListableEntry(e)
    ensures ParseEntry(RenderEntry(e)) == Some(e)
  {
    var r := RenderEntry(e);
    assert r[..|e.name|] == e.name;
    if e.online {
      assert r[|r| - |OnlineMarker|..] == OnlineMarker;
      assert HasMarker(r);
    } else {
      assert r == e.name;
    }
    forall k | 0 <= k < |r|
      ensures !IsLineTerminator(r[k])
    {
      if k >= |e.name| {
        assert r[k] == OnlineMarker[k - |e.name|];
      }
    }
  }

  lemma {:induction false} EntriesRoundTrip(es: seq<Entry>)
    requires forall i :: 0 <= i < |es| ==> ListableEntry(es[i])
    ensures Entries(ToLines(es)) == es
  {
    if es != [] {
      EntryRoundTrip(es[0]);
      EntriesRoundTrip(es[1..]);
      assert ToLines(es)[1..] == ToLines(es[1..]);
    }
  }

  function ToLines(es: seq<Entry>): (ls: seq<string>)
    ensures |ls| == |es|
    ensures forall i :: 0 <= i < |es| ==> ls[i] == RenderEntry(es[i])
  {
    if es == [] then [] else [RenderEntry(es[0])] + ToLines(es[1..])
  }

  /** A rendered line holds no line terminator. */
  lemma RenderedLineChars(e: Entry, c: char)
    requires ListableEntry(e) && c in RenderEntry(e)
    ensures !IsLineTerminator(c)
  {
    var line := RenderEntry(e);
    var j :| 0 <= j < |line| && line[j] == c;
    if j >= |e.name| {
      assert line[j] == OnlineMarker[j - |e.name|];
    } else {
      assert line[j] == e.name[j];
    }
  }

  lemma RenderedLineTrimmed(e: Entry)
    requires ListableEntry(e)
    ensures Trim(RenderEntry(e)) == RenderEntry(e)
  {
    var r := RenderEntry(e);
    assert r[0] == e.name[0];
    if e.online {
      assert r[|r| - 1] == ')';
    } else {
      assert r == e.name;
    }
    TrimmedIsIdentity(r);
  }

  lemma {:induction false} ToLinesTrimmed(es: seq<Entry>)
    requires forall i :: 0 <= i < |es| ==> ListableEntry(es[i])
    ensures TrimAll(ToLines(es)) == ToLines(es)
  {
    if es != [] {
      RenderedLineTrimmed(es[0]);
      ToLinesTrimmed(es[1..]);
      assert ToLines(es)[1..] == ToLines(es[1..]);
    }
  }

  lemma RenderedPartsPlain(es: seq<Entry>)
    requires forall i :: 0 <= i < |es| ==> ListableEntry(es[i])
    ensures forall i :: 0 <= i < |es| + 1 ==> '\n' !in ([[]] + ToLines(es))[i]
  {
    var parts := [[]] + ToLines(es);
    forall i | 0 <= i < |parts|
      ensures '\n' !in parts[i]
    {
      if i > 0 && '\n' in parts[i] {
        RenderedLineChars(es[i - 1], '\n');
      }
    }
  }

  lemma RenderedLinesNonEmpty(es: seq<Entry>)
    requires forall i :: 0 <= i < |es| ==> ListableEntry(es[i])
    ensures forall i :: 0 <= i < |es| ==> ToLines(es)[i] != []
  {
    forall i | 0 <= i < |es|
      ensures ToLines(es)[i] != []
    {
      assert |RenderEntry(es[i])| >= |es[i].name| > 0;
    }
  }

  lemma RenderedPartsFiltered(es: seq<Entry>)
    requires forall i :: 0 <= i < |es| ==> ListableEntry(es[i])
    ensures NonEmpty(TrimAll([[]] + ToLines(es))) == ToLines(es)
  {
    var lines := ToLines(es);
    TrimAllCons([], lines);
    ToLinesTrimmed(es);
    TrimmedIsIdentity([]);
    assert TrimAll([[]] + lines) == [[]] + lines;
    NonEmptySkipsEmpty(lines);
    RenderedLinesNonEmpty(es);
    NonEmptyOfNonEmpty(lines);
  }

  lemma RenderedSplit(es: seq<Entry>)
    requires forall i :: 0 <= i < |es| ==> ListableEntry(es[i])
    ensures Split(Join([[]] + ToLines(es), '\n'), '\n') == [[]] + ToLines(es)
  {
    RenderedPartsPlain(es);
    SplitJoin([[]] + ToLines(es), '\n');
  }

  lemma RenderedBody(es: seq<Entry>)
    requires forall i :: 0 <= i < |es| ==> ListableEntry(es[i])
    ensures PlayerLines(Join([[]] + ToLines(es), '\n')) == ToLines(es)
  {
    RenderedSplit(es);
    RenderedPartsFiltered(es);
  }

  lemma LeadingHeaderAt(d: string, rest: string)
    requires d != [] && AllDigits(d)
    ensures HeaderAt(HeaderOpen + d + HeaderClose + rest, 0)
    ensures DigitRun(HeaderOpen + d + HeaderClose + rest, |HeaderOpen|) == |d|
  {
    var text := HeaderOpen + d + HeaderClose + rest;
    var start := |HeaderOpen|;
    assert text[start + |d|] == ')';
    assert DigitRun(text, start) == |d|;
    assert text[start + |d|..start + |d| + |HeaderClose|] == HeaderClose;
  }

  /** A response that starts with a header is matched there, whatever follows. */
  lemma MatchLeadingHeader(d: string, rest: string)
    requires d != [] && AllDigits(d)
    ensures MatchHeader(HeaderOpen + d + HeaderClose + rest) == Some(Header(DecimalValue(d), TakeBody(rest)))
  {
    var text := HeaderOpen + d + HeaderClose + rest;
    LeadingHeaderAt(d, rest);
    assert text[|HeaderOpen|..|HeaderOpen| + |d|] == d;
    assert text[|HeaderOpen| + |d| + |HeaderClose|..] == rest;
  }

  lemma RenderedBodyChars(es: seq<Entry>)
    requires forall i :: 0 <= i < |es| ==> ListableEntry(es[i])
    ensures forall k :: 0 <= k < |Join([[]] + ToLines(es), '\n')| ==> InBody(Join([[]] + ToLines(es), '\n')[k])
  {
    var parts := [[]] + ToLines(es);
    var body := Join(parts, '\n');
    forall k | 0 <= k < |body|
      ensures InBody(body[k])
    {
      var c := body[k];
      JoinChars(parts, '\n', c);
      if c != '\n' {
        var i :| 0 <= i < |parts| && c in parts[i];
        RenderedLineChars(es[i - 1], c);
      }
    }
  }

  lemma RenderedMatch(es: seq<Entry>)
    requires forall i :: 0 <= i < |es| ==> ListableEntry(es[i])
    ensures MatchHeader(RenderPlayers(es)) == Some(Header(|es|, Join([[]] + ToLines(es), '\n')))
  {
    var body := Join([[]] + ToLines(es), '\n');
    MatchLeadingHeader(Decimal(|es|), body);
    RenderedBodyChars(es);
    TakeBodyWhole(body);
    DecimalRoundTrip(|es|);
  }

  /** Round trip: a rendered list of listable entries parses back to the same list. */
  lemma RenderPlayersRoundTrip(es: seq<Entry>)
    requires forall i :: 0 <= i < |es| ==> ListableEntry(es[i])
    ensures ParsePlayers(RenderPlayers(es)) == Some(es)
  {
    RenderedMatch(es);
    RenderedBody(es);
    assert PlayersList(RenderPlayers(es)) == Some(ToLines(es));
    EntriesRoundTrip(es);
  }
}
