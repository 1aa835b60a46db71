/**
 * The session object `FactorioConnection` (backend/FactorioConnection.ts).
 * It forwards commands to the server one at a time and keeps what the
 * responses say: the players and their presence, the evolution of every
 * planet, and the version, time and seed texts.
 *
 * The RCON transport is not modelled: a command "goes out" by being
 * appended to the ghost log `transmitted`, and the server's response is an
 * argument of the method that completes it. `send` awaits its response, so
 * it is modelled as two steps, `BeginSend` and `CompleteSend`; while a
 * command is in flight any other `send` is dropped.
 */
module Session {
  import opened Wrappers
  import opened Players
  import opened Presence
  import opened Evolution
  import opened Polling

  datatype Status = Disconnected | Connected

  /** What `getState` hands out: copies of the fields, `None` for a field still `undefined`. */
  datatype State = State(status: Status, version: Option<string>, time: Option<string>,
                         seed: Option<string>, players: Roster, evolution: Evolutions)

  /** `send` lets a command out: connected, and nothing in flight. */
  predicate CanSend(status: Status, busy: bool)
  {
    status == Connected && !busy
  }

  /** What an awaited `send` returns: the response, or `undefined` when the command was dropped. */
  function Answer(status: Status, busy: bool, response: string): Option<string>
  {
    if CanSend(status, busy) then Some(response) else None
  }

  /** `if (x) { field = x; }`: a text field after a response; `undefined` and `''` change nothing. */
  function Overwrite(field: Option<string>, response: Option<string>): Option<string>
  {
    if response.Some? && response.value != [] then response else field
  }

  /** The fields after one poll cycle whose five commands all went out. */
  function AfterCycle(st: State, responses: seq<string>, now: Timestamp): State
    requires |responses| == 5
  {
    st.(players := PlayersAfter(st.players, Some(responses[0]), now),
        time := Overwrite(st.time, Some(responses[1])),
        version := Overwrite(st.version, Some(responses[2])),
        evolution := EvolutionAfter(st.evolution, Some(responses[3])),
        seed := Overwrite(st.seed, Some(responses[4])))
  }

  /** Five commands appended one by one are the five appended at once. */
  lemma AppendInTurn(t: seq<string>, cs: seq<string>)
    requires |cs| == 5
    ensures t + [cs[0]] + [cs[1]] + [cs[2]] + [cs[3]] + [cs[4]] == t + cs
  {
    assert cs == [cs[0], cs[1], cs[2], cs[3], cs[4]];
  }

  class Connection {
    var status: Status
    var busy: bool
    var version: Option<string>
    var time: Option<string>
    var seed: Option<string>
    var players: Roster
    var evolution: Evolutions
    /** The commands written to the server so far, in order. */
    ghost var transmitted: seq<string>
    /** How many of them have had their response. */
    ghost var answered: nat

    /** At most one command is in flight, exactly while `busy`, and nothing goes out before auth. */
    ghost predicate Valid()
      reads this
    {
      && answered <= |transmitted| <= answered + 1
      && (busy <==> |transmitted| == answered + 1)
      && (status == Disconnected ==> transmitted == [])
    }

    /** `getState()`. */
    function GetState(): State
      reads this
    {
      State(status, version, time, seed, players, evolution)
    }

    /** A new session: disconnected, idle, nothing known yet. */
    constructor()
      ensures Valid() && !busy && transmitted == []
      ensures GetState() == State(Disconnected, None, None, None, map[], map[])
    {
      status := Disconnected;
      busy := false;
      version := None;
      time := None;
      seed := None;
      players := map[];
      evolution := map[];
      transmitted := [];
      answered := 0;
    }

    /**
     * The `auth` handler: the session is connected from now on (nothing sets
     * it back), and the first poll cycle runs, `responses[i]` answering its
     * `i`-th command.
     */
    method Authenticate(responses: seq<string>, now: Timestamp) returns (delay: Option<nat>)
      requires Valid() && |responses| == 5
      modifies this
      ensures Valid() && busy == old(busy) && status == Connected
      ensures !old(busy) ==>
        && GetState() == AfterCycle(old(GetState()).(status := Connected), responses, now)
        && transmitted == old(transmitted) + PollCommands
        && answered == old(answered) + 5
      ensures old(busy) ==>
        GetState() == old(GetState()).(status := Connected) && transmitted == old(transmitted)
      ensures delay == Some(NextDelay(players))
      ensures players != map[] ==>
        forall values :: Enumerates(values, players) ==> NextDelayAsWritten(values) == delay
    {
      status := Connected;
      delay := Update(responses, now);
    }

    /** The first half of `send`: the command goes out only when connected and nothing is in flight. */
    method BeginSend(command: string) returns (sent: bool)
      requires Valid()
      modifies this
      ensures Valid() && GetState() == old(GetState()) && answered == old(answered)
      ensures sent <==> CanSend(old(status), old(busy))
      ensures sent ==> busy && transmitted == old(transmitted) + [command]
      ensures !sent ==> busy == old(busy) && transmitted == old(transmitted)
    {
      if status == Disconnected {
        return false;
      }
      if busy {
        return false;
      }
      busy := true;
      transmitted := transmitted + [command];
      sent := true;
    }

    /** The second half of `send`: the response arrives and the session is free again. */
    method CompleteSend(response: string) returns (ret: string)
      requires Valid() && busy
      modifies this
      ensures Valid() && !busy && ret == response
      ensures GetState() == old(GetState())
      ensures transmitted == old(transmitted) && answered == old(answered) + 1
    {
      busy := false;
      answered := answered + 1;
      ret := response;
    }

    /** `await this.send(command)` with nothing else sent meanwhile; the server answers `response`. */
    method Send(command: string, response: string) returns (ret: Option<string>)
      requires Valid()
      modifies this
      ensures Valid() && busy == old(busy) && GetState() == old(GetState())
      ensures ret == Answer(old(status), old(busy), response)
      ensures ret.Some? ==> transmitted == old(transmitted) + [command] && answered == old(answered) + 1
      ensures ret.None? ==> transmitted == old(transmitted) && answered == old(answered)
    {
      var sent := BeginSend(command);
      if sent {
        var r := CompleteSend(response);
        ret := Some(r);
      } else {
        ret := None;
      }
    }

    /** The `forEach` of `updatePlayers`: every entry, in order, updates `players` in place. */
    method ApplyPlayers(es: seq<Entry>, now: Timestamp)
      modifies this
      ensures players == Fold(old(players), es, now)
      ensures GetState() == old(GetState()).(players := players)
      ensures busy == old(busy) && transmitted == old(transmitted) && answered == old(answered)
    {
      var i := 0;
      while i < |es|
        invariant 0 <= i <= |es|
        invariant players == Fold(old(players), es[..i], now)
        invariant GetState() == old(GetState()).(players := players)
        invariant busy == old(busy) && transmitted == old(transmitted) && answered == old(answered)
      {
        var e := es[i];
        assert es[..i + 1][..i] == es[..i];
        if !e.online {
          players := players[e.name := None];
        } else if e.name in players && players[e.name].Some? {
        } else {
          players := players[e.name := Some(now)];
        }
        i := i + 1;
      }
      assert es[..i] == es;
    }

    /** `updatePlayers`: send `/players`, and apply the response only when it parses in full. */
    method UpdatePlayers(response: string, now: Timestamp)
      requires Valid()
      modifies this
      ensures Valid() && busy == old(busy) && status == old(status)
      ensures transmitted == old(transmitted) + (if CanSend(old(status), old(busy)) then ["/players"] else [])
      ensures answered == old(answered) + (if CanSend(old(status), old(busy)) then 1 else 0)
      ensures GetState() == old(GetState()).(players := PlayersAfter(old(players), Answer(old(status), old(busy), response), now))
    {
      var r := Send("/players", response);
      if r.Some? && r.value != [] {
        match ParsePlayers(r.value)
        case None =>
        case Some(es) => ApplyPlayers(es, now);
      }
    }

    /** The `forEach` of `updateEvolution`: every match, in order, writes its planet's entry. */
    method RecordEvolution(ls: seq<Line>)
      modifies this
      ensures evolution == Record(old(evolution), ls)
      ensures GetState() == old(GetState()).(evolution := evolution)
      ensures busy == old(busy) && transmitted == old(transmitted) && answered == old(answered)
    {
      var i := 0;
      while i < |ls|
        invariant 0 <= i <= |ls|
        invariant evolution == Record(old(evolution), ls[..i])
        invariant GetState() == old(GetState()).(evolution := evolution)
        invariant busy == old(busy) && transmitted == old(transmitted) && answered == old(answered)
      {
        assert ls[..i + 1][..i] == ls[..i];
        evolution := evolution[PlanetOf(ls[i]) := ReadingOf(ls[i])];
        i := i + 1;
      }
      assert ls[..i] == ls;
    }

    /** `updateEvolution`: send `/evolution`, and write the entries only when every line matches. */
    method UpdateEvolution(response: string)
      requires Valid()
      modifies this
      ensures Valid() && busy == old(busy) && status == old(status)
      ensures transmitted == old(transmitted) + (if CanSend(old(status), old(busy)) then ["/evolution"] else [])
      ensures answered == old(answered) + (if CanSend(old(status), old(busy)) then 1 else 0)
      ensures GetState() == old(GetState()).(evolution := EvolutionAfter(old(evolution), Answer(old(status), old(busy), response)))
    {
      var r := Send("/evolution", response);
      if r.Some? && r.value != [] {
        match ParseEvolution(r.value)
        case None =>
        case Some(ls) => RecordEvolution(ls);
      }
    }

    /** `updateSeed`. */
    method UpdateSeed(response: string)
      requires Valid()
      modifies this
      ensures Valid() && busy == old(busy) && status == old(status)
      ensures transmitted == old(transmitted) + (if CanSend(old(status), old(busy)) then ["/seed"] else [])
      ensures answered == old(answered) + (if CanSend(old(status), old(busy)) then 1 else 0)
      ensures GetState() == old(GetState()).(seed := Overwrite(old(seed), Answer(old(status), old(busy), response)))
    {
      var r := Send("/seed", response);
      if r.Some? && r.value != [] {
        seed := r;
      }
    }

    /** `updateVersion` (the message about a changed version is logging only). */
    method UpdateVersion(response: string)
      requires Valid()
      modifies this
      ensures Valid() && busy == old(busy) && status == old(status)
      ensures transmitted == old(transmitted) + (if CanSend(old(status), old(busy)) then ["/version"] else [])
      ensures answered == old(answered) + (if CanSend(old(status), old(busy)) then 1 else 0)
      ensures GetState() == old(GetState()).(version := Overwrite(old(version), Answer(old(status), old(busy), response)))
    {
      var r := Send("/version", response);
      if r.Some? && r.value != [] {
        version := r;
      }
    }

    /** `updateTime`: the text is stored as the server wrote it. */
    method UpdateTime(response: string)
      requires Valid()
      modifies this
      ensures Valid() && busy == old(busy) && status == old(status)
      ensures transmitted == old(transmitted) + (if CanSend(old(status), old(busy)) then ["/time"] else [])
      ensures answered == old(answered) + (if CanSend(old(status), old(busy)) then 1 else 0)
      ensures GetState() == old(GetState()).(time := Overwrite(old(time), Answer(old(status), old(busy), response)))
    {
      var r := Send("/time", response);
      if r.Some? && r.value != [] {
        time := r;
      }
    }

    /**
     * `update`: nothing while disconnected (`None`: no next cycle). Otherwise
     * the five commands in order, `responses[i]` answering the `i`-th, and
     * then the delay before the next cycle. A command in flight from before
     * makes every command of the cycle be dropped. The delay is the corrected
     * `NextDelay`: wherever `players` is not empty it is the one the code as
     * written schedules, for any order of its values; on an empty `players`
     * the code as written schedules none (`Polling.EmptyRosterStopsPolling`).
     */
    method Update(responses: seq<string>, now: Timestamp) returns (delay: Option<nat>)
      requires Valid() && |responses| == 5
      modifies this
      ensures Valid() && busy == old(busy)
      ensures old(status) == Disconnected ==>
        delay == None && GetState() == old(GetState()) && transmitted == old(transmitted)
      ensures old(status) == Connected && !old(busy) ==>
        && GetState() == AfterCycle(old(GetState()), responses, now)
        && transmitted == old(transmitted) + PollCommands
        && answered == old(answered) + 5
      ensures old(status) == Connected && old(busy) ==>
        GetState() == old(GetState()) && transmitted == old(transmitted)
      ensures old(status) == Connected ==> delay == Some(NextDelay(players))
      ensures old(status) == Connected && players != map[] ==>
        forall values :: Enumerates(values, players) ==> NextDelayAsWritten(values) == delay
    {
      if status == Disconnected {
        return None;
      }
      UpdatePlayers(responses[0], now);
      UpdateTime(responses[1]);
      UpdateVersion(responses[2]);
      UpdateEvolution(responses[3]);
      UpdateSeed(responses[4]);
      AppendInTurn(old(transmitted), PollCommands);
      delay := Some(NextDelay(players));
      if players != map[] {
        forall values | Enumerates(values, players)
          ensures NextDelayAsWritten(values) == delay
        {
          NextDelayAgrees(values, players);
        }
      }
    }

    /**
     * `sendMessageChat`: a message starting with `/` is refused; any other goes
     * to `send` unchanged. Its response completes it later (`CompleteSend`).
     */
    method SendMessageChat(message: string) returns (sent: bool)
      requires Valid()
      modifies this
      ensures Valid() && GetState() == old(GetState()) && answered == old(answered)
      ensures IsCommand(message) ==> !sent && busy == old(busy) && transmitted == old(transmitted)
      ensures sent <==> !IsCommand(message) && CanSend(old(status), old(busy))
      ensures sent ==> busy && transmitted == old(transmitted) + [message]
      ensures !sent ==> busy == old(busy) && transmitted == old(transmitted)
    {
      if |message| > 0 && message[0] == '/' {
        return false;
      }
      sent := BeginSend(message);
    }
  }
}
