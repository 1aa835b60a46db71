# factorio-stats: the server session and the `/grow` route

This project models the backend of factorio-stats, a small web service that
watches a Factorio game server over RCON and reports on it. Its core is the
session object `FactorioConnection`. The session forwards console commands to the
server one at a time: a command issued while another one is in flight, or before
authentication, is dropped. Every poll cycle sends `/players`, `/time`,
`/version`, `/evolution` and `/seed`, in that order, and folds the responses
into its state:

- the presence map `players`, from player name to the time the player was seen
  joining, or `null` while the player is offline;
- the per-planet `evolution` readings;
- the `version`, `time` and `seed` texts.

It then schedules the next cycle: 1 s later if somebody has a timestamp, 10 s
later otherwise, and never when `players` is empty (see "## Findings"). The model
also covers the decision logic of the `/grow` HTTP route, which takes a
sender's name, checks it, and sends one greeting into the game chat.

The modules follow the code's structure:

- `Wrappers`: `Option`, and the all-or-nothing map used for the batch of
  evolution lines.
- `Text`: JavaScript's `split`, `trim`, `filter(x => x)`, `\d` and `+digits`.
  The model keeps their exact semantics: which characters count as white space
  or as line terminators, and the empty pieces that `split` produces.
- `Matching`: a matcher for the fixed regular-expression shapes of the
  `/evolution` response. It comes with soundness and completeness lemmas, and
  with the leftmost search and the greedy choice that JavaScript's backtracking
  amounts to on these patterns.
- `Players`: the `/players` parser. It covers the header `Players (<n>):`, the
  trimmed, non-blank lines after it, the count check, and the entry pattern
  with its lazy name and optional ` (online)`.
- `Presence`: the fold of the parsed entries into `players`.
- `Evolution`: the `/evolution` line pattern, searched unanchored in each line.
  The optional planet group is greedy, and a `.` wildcard follows the factor.
  The pattern has no `u` flag, so it reads UTF-16 code units. A character beyond
  U+FFFF is two of them, and the single wildcard cannot read it whole before the
  literal ` (` that follows (`DotReads`). The runs `.+` take both halves, so for
  them the difference does not show.
  The batch is refused if any line fails to match; otherwise each line writes
  its planet's entry, with `Nauvis` as the default planet.
- `Polling`: the command order, the next-cycle delay, and the chat guard.
- `Session`: the class `Connection`, whose fields are those of
  `FactorioConnection` and are updated in place. Its methods change them and
  are proved against the functions above.
- `Grow`: the `/grow` handler.

`send` awaits the server's response. It is modelled in two halves:
`BeginSend` lets the command out and sets `busy`, and `CompleteSend` receives
the response and clears `busy`. `Send` is the two back to back. The ghost
fields `transmitted` and `answered` record the commands written to the server
and how many have been answered. `Valid()` keeps at most one command in
flight, and only while `busy`.

## Model

| member | source | states |
|---|---|---|
| Wrappers.AllOf | backend/FactorioConnection.ts:141-156 | a successful all-or-nothing map has one result per input |
| Wrappers.AllOfFails | backend/FactorioConnection.ts:150-156 | the batch fails exactly when some element fails (both directions) |
| Wrappers.AllOfAt | backend/FactorioConnection.ts:141-148 | a successful batch holds, at every index and in order, what the element's parse gave |
| Wrappers.AllOfOne | backend/FactorioConnection.ts:141-156 | on one element the batch is that element's result |
| Text.Split | backend/FactorioConnection.ts:233 | `split('\n')` gives at least one piece, no piece holds the separator, and joining the pieces gives the input back |
| Text.SplitPlain | backend/FactorioConnection.ts:142 | a string without the separator splits into itself alone |
| Text.SplitAtSeparator | backend/FactorioConnection.ts:233 | splitting at a first separator peels off the piece before it |
| Text.SplitJoin | backend/FactorioConnection.ts:233 | round trip: splitting a join of separator-free pieces gives back the pieces |
| Text.PartInJoin | backend/FactorioConnection.ts:233 | every character of a piece occurs in the join |
| Text.JoinChars | backend/FactorioConnection.ts:233 | every character of a join is the separator or comes from some piece |
| Text.SplitChars | backend/FactorioConnection.ts:233 | every character of a piece of a split occurs in the input and is not the separator |
| Text.Leading | backend/FactorioConnection.ts:234 | the leading white-space count stays within the string |
| Text.LeadingSpaces | backend/FactorioConnection.ts:234 | the counted leading characters are white space, and the next one is not |
| Text.Trailing | backend/FactorioConnection.ts:234 | the trailing white-space count stays within the prefix |
| Text.TrailingSpaces | backend/FactorioConnection.ts:234 | the counted trailing characters are white space, and the one before them is not |
| Text.TrimSpec | backend/FactorioConnection.ts:234 | `trim` is a slice with only white space around it, and it neither starts nor ends with white space |
| Text.TrimSubset | backend/FactorioConnection.ts:234 | trimming keeps only characters of the original |
| Text.TrimmedIsIdentity | backend/FactorioConnection.ts:234 | a string with no white space at either end is its own trim |
| Text.TrimAll | backend/FactorioConnection.ts:234 | the `map` keeps the length and trims every element in place |
| Text.NonEmpty | backend/FactorioConnection.ts:235 | `filter(x => x)` keeps no empty string, and a string is in the result exactly when it is a non-empty string of the input |
| Text.NonEmptyFrom | backend/FactorioConnection.ts:235 | every string the filter keeps is one of its input |
| Text.NonEmptyConcat | backend/FactorioConnection.ts:235 | filtering a concatenation filters each part and keeps their order |
| Text.NonEmptyCount | backend/FactorioConnection.ts:235 | the filter keeps exactly as many strings as there are positions of non-empty strings in its input |
| Text.NonEmptyOfNonEmpty | backend/FactorioConnection.ts:235 | a list without empty strings passes the filter unchanged |
| Text.NonEmptyIdempotent | backend/FactorioConnection.ts:235 | the filter is idempotent |
| Text.Decimal | backend/FactorioConnection.ts:230 | a decimal spelling is non-empty digits without a leading zero |
| Text.DecimalRoundTrip | backend/FactorioConnection.ts:230 | `+digits` of the decimal spelling of `n` is `n` |
| Text.DigitRun | backend/FactorioConnection.ts:219 | the `\d+` run from a position is all digits and stops at a non-digit or the end |
| Matching.AtSlice | backend/FactorioConnection.ts:146 | a literal occurs at a position exactly when the slice there equals it |
| Matching.NumRun | backend/FactorioConnection.ts:146 | the `[0-9.]` run stays in bounds and stops at a character outside the class |
| Matching.NumRunNumeric | backend/FactorioConnection.ts:146 | every character of the run is in `[0-9.]` |
| Matching.NumRunExact | backend/FactorioConnection.ts:146 | a class run that ends before a character outside the class is the run |
| Matching.MatchSound | backend/FactorioConnection.ts:146 | what the matcher captures fits the pattern, and the pattern's text for those captures is in the input there |
| Matching.MatchFits | backend/FactorioConnection.ts:146 | what the matcher captures fits the pattern |
| Matching.MatchComplete | backend/FactorioConnection.ts:146 | where a guarded pattern's text is written for fitting captures, the matcher reads back exactly those captures |
| Matching.NumeralThenAnyComplete | backend/FactorioConnection.ts:146 | `[0-9.]+.` followed by its literal is read back even when the wildcard's character is a digit or a dot |
| Matching.WrittenLacks | backend/FactorioConnection.ts:146 | a character outside `[0-9.]` occurs in a pattern's text only where a literal or class holds it |
| Matching.Last | backend/FactorioConnection.ts:146 | the greedy choice picks an end in range that lets the rest match |
| Matching.LastGreatest | backend/FactorioConnection.ts:146 | no admissible end beyond the greedy choice exists |
| Matching.First | backend/FactorioConnection.ts:146 | the unanchored search picks a start in range where the pattern matches |
| Matching.FirstLeast | backend/FactorioConnection.ts:146 | no start before the one the search picks has a match |
| Players.FindHeader | backend/FactorioConnection.ts:218-220 | the header search returns the leftmost position where `Players \(\d+\):` matches, or none exists |
| Players.TakeBody | backend/FactorioConnection.ts:219 | `(?:.\|\n)*` takes the longest prefix free of `\r`, U+2028 and U+2029 |
| Players.TakeBodyWhole | backend/FactorioConnection.ts:219 | a body free of those characters is taken whole |
| Players.LazyName | backend/FactorioConnection.ts:252 | the lazy name is the shortest one after which ` (online)` or the end follows |
| Players.ParseEntry | backend/FactorioConnection.ts:252-259 | an entry matches exactly when non-empty and on one line; a trailing ` (online)` after a non-empty name marks it online, otherwise the whole line is an offline name |
| Players.Entries | backend/FactorioConnection.ts:251-256 | the `forEach` skips lines that do not match; when all match there is one entry per line, in order, each that line's parse |
| Players.RejectedIff | backend/FactorioConnection.ts:222-243 | a response is rejected exactly when there is no header or its count differs from the number of lines of its body that are not blank once trimmed (both directions) |
| Players.PlayerLinesCount | backend/FactorioConnection.ts:232-235 | the player list has one line per line of the body that is not blank once trimmed |
| Players.ListedLinesMatch | backend/FactorioConnection.ts:232-256 | every line of an accepted list matches the entry pattern, so none is skipped |
| Players.AcceptedCountsMatch | backend/FactorioConnection.ts:237-256 | an accepted response yields exactly as many entries as its header announces |
| Players.EntryRoundTrip | backend/FactorioConnection.ts:252-259 | a listable entry, written as the server lists it, parses back to itself |
| Players.EntriesRoundTrip | backend/FactorioConnection.ts:251-259 | a list of rendered listable entries parses back to the list |
| Players.ToLines | backend/FactorioConnection.ts:251 | one rendered line per entry, in order |
| Players.RenderedLineTrimmed | backend/FactorioConnection.ts:234 | a rendered entry is its own trim |
| Players.RenderedBody | backend/FactorioConnection.ts:232-235 | the line pipeline recovers exactly the rendered entry lines |
| Players.MatchLeadingHeader | backend/FactorioConnection.ts:218-220 | a response that starts with a header is matched there with its count and body |
| Players.RenderedMatch | backend/FactorioConnection.ts:218-230 | a rendered response matches with its entry count and its whole body |
| Players.RenderPlayersRoundTrip | backend/FactorioConnection.ts:207-256 | round trip: a rendered roster of listable entries is accepted and parses to the same entries |
| Presence.ApplyLookup | backend/FactorioConnection.ts:258-274 | one entry changes only its own name: offline stores `null`, online keeps a stored timestamp and otherwise stores `now` |
| Presence.FoldLookup | backend/FactorioConnection.ts:251-275 | the in-order fold agrees, name by name, with the fold-free reference outcome |
| Presence.FlagsEmpty | backend/FactorioConnection.ts:251-275 | a name has flags exactly when the response lists it |
| Presence.FoldKeys | backend/FactorioConnection.ts:251-275 | no name is ever removed, and every listed name gets an entry |
| Presence.FoldUnmentioned | backend/FactorioConnection.ts:251-275 | a name the response does not list keeps what it had, including being absent |
| Presence.FlagsOffline | backend/FactorioConnection.ts:259-261 | some entry for a name is offline exactly when `false` is among its flags |
| Presence.FlagsLast | backend/FactorioConnection.ts:251-275 | a name's last flag is that of its last entry |
| Presence.FoldLastOffline | backend/FactorioConnection.ts:261-268 | a name whose last entry is offline ends as `null` |
| Presence.FoldLastOnline | backend/FactorioConnection.ts:270-274 | a name whose last entry is online keeps its timestamp if it had one and no entry showed it offline, and is stamped `now` otherwise |
| Evolution.LineRun | backend/FactorioConnection.ts:146 | the run `.` accepts stops at a line terminator or the end |
| Evolution.LineRunSpan | backend/FactorioConnection.ts:146 | `.` accepts every character of the run |
| Evolution.CapturesFit | backend/FactorioConnection.ts:146 | the captures the factor pattern accepts are exactly those of a well-formed line |
| Evolution.FitsShape | backend/FactorioConnection.ts:146 | captures that fit the factor pattern are those of a line |
| Evolution.PatternGuarded | backend/FactorioConnection.ts:146 | every number run of the pattern is followed by a literal that no shorter run can reach |
| Evolution.PatternLacksNewline | backend/FactorioConnection.ts:146 | no piece of the pattern reads a line feed |
| Evolution.AfterPlanetSound | backend/FactorioConnection.ts:146 | what follows a planet is a well-formed line written there |
| Evolution.FactorSound | backend/FactorioConnection.ts:146 | a match without planet is a well-formed line written there |
| Evolution.MatchAtSound | backend/FactorioConnection.ts:146 | every anchored match is well formed and written at its position |
| Evolution.ParseSound | backend/FactorioConnection.ts:145-146 | every accepted line contains the rendering of what it captured |
| Evolution.ParseLeftmost | backend/FactorioConnection.ts:145-146 | a line with a match somewhere is accepted, and the match starts at the leftmost position that has one |
| Evolution.PlanetEndDecodes | backend/FactorioConnection.ts:146 | wherever the greedy planet picks its end, the rest of the pattern reads a line |
| Evolution.AfterPlanetReads | backend/FactorioConnection.ts:146 | the text after a planet, written for fitting captures, is read back as them |
| Evolution.AfterPlanetWritten | backend/FactorioConnection.ts:146 | behind a written planet, the rest of the pattern reads the line's captures |
| Evolution.PlanetInRun | backend/FactorioConnection.ts:146 | a written planet lies within the run of characters `.` accepts |
| Evolution.PlanetWritten | backend/FactorioConnection.ts:146 | a written planet is an end the greedy group may take |
| Evolution.FactorDecodes | backend/FactorioConnection.ts:146 | without a planet end, a factor match is read as a line |
| Evolution.PlanetEndExists | backend/FactorioConnection.ts:146 | an admissible end within the run gives the greedy group an end |
| Evolution.FactorMatchFinds | backend/FactorioConnection.ts:146 | where the factor pattern matches, the anchored matcher reads a line, with a planet or without |
| Evolution.FactorFinds | backend/FactorioConnection.ts:146 | a written line without planet is matched by the factor pattern with its captures |
| Evolution.PlanetHasEnd | backend/FactorioConnection.ts:146 | a written planet is in the run and lets the rest match |
| Evolution.PlanetFinds | backend/FactorioConnection.ts:146 | a written planet gives the greedy group an end |
| Evolution.MatchAtFinds | backend/FactorioConnection.ts:146 | where a well-formed match is written, the anchored matcher finds one |
| Evolution.ParseComplete | backend/FactorioConnection.ts:145-146 | a line that contains a well-formed match anywhere is accepted |
| Evolution.FactorNoSpaceDash | backend/FactorioConnection.ts:146 | the factor pattern's text holds no space directly followed by a dash |
| Evolution.AfterPlanetNoSpaceDash | backend/FactorioConnection.ts:146 | in the text after a planet, ` - ` starts only at its beginning |
| Evolution.SeparatorOnlyAfterPlanet | backend/FactorioConnection.ts:146 | in a rendering, the first ` - ` at or after the planet's end is exactly at that end, and there is none without a planet |
| Evolution.ParseRender | backend/FactorioConnection.ts:145-146 | round trip: a well-formed match, written as a line, is read back as itself, greedy planet included |
| Evolution.ParseAllFails | backend/FactorioConnection.ts:150-156 | the batch is refused exactly when some non-empty line has no match |
| Evolution.ParseAllLines | backend/FactorioConnection.ts:141-148 | an accepted batch holds every line's match, in order |
| Evolution.GarbledLeavesEvolution | backend/FactorioConnection.ts:150-156 | one line without a match leaves the whole map as it was |
| Evolution.LastReadingSnoc | backend/FactorioConnection.ts:158-172 | the last reading for a planet after one more line is that line's, if it names the planet |
| Evolution.RecordGet | backend/FactorioConnection.ts:158-172 | planet by planet, the update holds the reading of the last line naming it, or the old entry when none does |
| Evolution.LastReadingNone | backend/FactorioConnection.ts:158-172 | a planet has a reading in a batch exactly when some line names it |
| Evolution.EmptyLinesIgnored | backend/FactorioConnection.ts:141-143 | dropping empty lines from a response never changes what it parses to |
| Evolution.RenderedHasNoNewline | backend/FactorioConnection.ts:146 | a rendered match is on one line |
| Evolution.OneLine | backend/FactorioConnection.ts:130-172 | a one-line response that matches writes exactly its planet's entry and nothing else |
| Evolution.SingleLine | backend/FactorioConnection.ts:158-172 | a response of one rendered match writes exactly that planet, `Nauvis` when none is named |
| Polling.ReduceOrTruthy | backend/FactorioConnection.ts:111-113 | on a non-empty list `reduce((p, c) => p \|\| c)` is truthy exactly when some value is a timestamp |
| Polling.EmptyRosterStopsPolling | backend/FactorioConnection.ts:111-118 | as written, an empty `players` makes `reduce` throw and no next cycle is scheduled |
| Polling.NextDelayAgrees | backend/FactorioConnection.ts:111-118 | for a non-empty `players`, in any value order, the corrected delay is the one the code schedules: 1 s if somebody has a timestamp, 10 s otherwise; on an empty map it is 10 s |
| Session.Connection.constructor | backend/FactorioConnection.ts:7-22 | a new session is disconnected and idle, with nothing known and nothing sent |
| Session.Connection.Authenticate | backend/FactorioConnection.ts:40-45 | the session becomes connected and runs the first poll cycle: when idle, the five commands go out and the state is the cycle's outcome on top of the connected state; when busy, only the status changes; the delay is the corrected next delay, and on a non-empty `players` the one the code as written schedules, for any order of the values |
| Session.Connection.BeginSend | backend/FactorioConnection.ts:61-84 | a command goes out exactly when connected and idle, and then the session is busy; otherwise nothing changes |
| Session.Connection.CompleteSend | backend/FactorioConnection.ts:86-95 | the response is returned and the session is idle again |
| Session.Connection.Send | backend/FactorioConnection.ts:61-96 | `send` returns the response exactly when connected and idle, appends the command to the transmitted log, and leaves every field and `busy` as before |
| Session.Connection.ApplyPlayers | backend/FactorioConnection.ts:251-275 | the in-place loop leaves `players` equal to the fold of the entries and changes no other field |
| Session.Connection.UpdatePlayers | backend/FactorioConnection.ts:207-276 | sends `/players` and replaces `players` by its update for the response (nothing unless non-empty and accepted) |
| Session.Connection.RecordEvolution | backend/FactorioConnection.ts:158-172 | the in-place loop leaves `evolution` equal to the line-by-line record and changes no other field |
| Session.Connection.UpdateEvolution | backend/FactorioConnection.ts:130-178 | sends `/evolution` and replaces `evolution` by its update for the response (nothing unless non-empty and every line matches) |
| Session.Connection.UpdateSeed | backend/FactorioConnection.ts:180-186 | sends `/seed`; a non-empty response overwrites `seed` |
| Session.Connection.UpdateVersion | backend/FactorioConnection.ts:188-197 | sends `/version`; a non-empty response overwrites `version` |
| Session.Connection.UpdateTime | backend/FactorioConnection.ts:199-205 | sends `/time`; a non-empty response overwrites `time` |
| Session.Connection.Update | backend/FactorioConnection.ts:98-119 | disconnected: nothing, and no next cycle. Connected and idle: the five commands go out in order and the state is the cycle's outcome. Busy: every command is dropped. When connected, the delay is the corrected next delay, and wherever `players` is not empty it is the delay the code as written schedules, for any order of the values |
| Session.Connection.SendMessageChat | backend/FactorioConnection.ts:121-128 | a message starting with `/` is never sent; any other is sent exactly when connected and idle |
| Grow.NameRun | backend/index.ts:40 | the name-character run is a prefix of the input |
| Grow.NameRunChars | backend/index.ts:40 | the run holds only name characters and stops at one that is not |
| Grow.ValidNameChars | backend/index.ts:40-43 | a name is accepted exactly when non-empty and every character is in `[-a-zA-Z0-9_ ]` (both directions) |
| Grow.MissingNameIsAnonymous | backend/index.ts:38-47 | a request with no name or an empty one is accepted and greets as `Anonymous` |
| Grow.GrowOutcome | backend/index.ts:37-48 | a given non-empty name is refused with 400 exactly when it holds a character outside `[-a-zA-Z0-9_ ]`; a refusal sends no message; every accepted request gets 200 and the greeting of the given name, or of `Anonymous` when none was given |
| Grow.GreetingIsNotCommand | backend/index.ts:47 | every greeting starts with a name character, so the chat guard never drops it |

## Left out

- The RCON transport: connecting, the socket, and the `end`, `server` and `error`
  handlers are not modelled. A command going out is an append to the ghost log,
  and a response is an argument of the method that completes the command.
- The `verbose` flag and every `console.log`, including the "Version changed" and
  "joined"/"left" messages. They are logging only.
- Timers: `setTimeout` and the `updateTimeout` field. `Update` returns the delay
  before the next cycle instead of scheduling one. `Date.now()` is the parameter
  `now`.
- Concurrency. Each call of `Update` runs as one step. This matches the event loop:
  after a response arrives, `update` runs on in microtasks straight into its next
  `send`, so no HTTP handler runs between two commands of a cycle. A `/grow` chat
  message can be issued only while a command is in flight, when it is dropped
  (`SendMessageChat` with `busy`), or between cycles. A chat still in flight when
  a cycle starts makes every command of that cycle be dropped (`Update` with
  `busy`).
- Presence.ApplyEntry, Presence.Fold and Evolution.Record: treat `players` and
  `evolution` as dictionaries. In the code they are plain objects. A name that is
  an inherited property, such as `toString` or `constructor`, reads as truthy
  there, so an online player of that name is never stamped. Assigning to
  `__proto__` replaces the prototype instead of adding a key. Such names are not
  modelled.
- Session.Connection.Authenticate, Session.Connection.Update: schedule the
  corrected delay, 10 s, when `players` is empty after the cycle. The code as
  written then throws in `reduce` and schedules nothing. This includes the first
  cycle, which the `auth` handler starts. The as-written outcome is
  Polling.NextDelayAsWritten (Polling.EmptyRosterStopsPolling). Both methods
  prove they agree with that outcome on every non-empty `players`.
- Evolution.ReadingOf: keeps the four captured texts. It does not model their
  conversion to floating-point numbers (`+factor`, and `+x / 100` for the other
  three), because this model has no floating point.
- Players.MatchHeader: takes the count as the exact value of its digits.
  JavaScript's `+` rounds values beyond 2^53, and such counts are not modelled.
- Grow.HandleGrow: `name` is a missing or string value. A JSON body whose `name`
  is some other type, which would make `from.match` throw, is not modelled. The
  HTTP framework (koa), body parsing, the `/status` route and the client address
  in the log line are left out too.
- Session.Connection.GetState: returns the fields as values. Copying `players`
  and `evolution` with spread needs nothing more, because Dafny maps are values.
- `status` never returns to disconnected, because the code's `end` handler
  does nothing. The model has no method for it either.

## Findings

| source | as written | input that shows it | evidently intended | confidence | as-written member | corrected member |
|---|---|---|---|---|---|---|
| backend/FactorioConnection.ts:111-118 | `reduce` with no initial value runs over the values of `players`. It throws a `TypeError` when `players` is empty, so `update` rejects before `setTimeout` and polling stops for good. | `players` is still `{}` after the first `/players`. This happens on a server no player has ever joined, whose answer is `Players (0):`. It also happens when that answer is dropped because a command is in flight, is empty, or is refused. CRLF line endings cause a refusal: the body capture stops at the first `\r`, so any non-zero count fails the count check. | An empty roster counts as everybody offline, and the next cycle follows in 10 s. | not executed | Polling.NextDelayAsWritten (exhibited by Polling.EmptyRosterStopsPolling) | Polling.NextDelay (proved by Polling.NextDelayAgrees, used by Session.Connection.Update) |
