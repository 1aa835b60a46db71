/**
 * The decisions of the poll cycle (backend/FactorioConnection.ts, `update`
 * and `sendMessageChat`): the fixed order of the five commands, the delay
 * before the next cycle, and the guard that keeps chat messages from being
 * read as console commands.
 */
module Polling {
  import opened Wrappers
  import opened Presence

  /** The commands one cycle sends, in the order `update` awaits them. */
  const PollCommands: seq<string> := ["/players", "/time", "/version", "/evolution", "/seed"]

  /** `1000 * 10`: the delay while nobody has a timestamp. */
  const IdleDelay: nat := 10000

  /** `1000 * 1`: the delay while somebody does. */
  const ActiveDelay: nat := 1000

  /** `p || c` on two stored `players` values: `null` is false, a timestamp (positive) is true. */
  function Or(p: Option<Timestamp>, c: Option<Timestamp>): Option<Timestamp>
  {
    if p.Some? then p else c
  }

  /**
   * `values.reduce((p, c) => p || c)` without an initial value: `None` when
   * `values` is empty, where JavaScript throws a `TypeError`.
   */
  function ReduceOr(values: seq<Option<Timestamp>>): (r: Option<Option<Timestamp>>)
    decreases |values|
  {
    if values == [] then None
    else if |values| == 1 then Some(values[0])
    else
      var init := ReduceOr(values[..|values| - 1]);
      Some(Or(init.value, values[|values| - 1]))
  }

  /** Some stored value is a timestamp. */
  predicate SomeoneStamped(values: seq<Option<Timestamp>>)
  {
    exists i :: 0 <= i < |values| && values[i].Some?
  }

  /** On a non-empty list the reduction is truthy exactly when some value is a timestamp. */
  lemma {:induction false} ReduceOrTruthy(values: seq<Option<Timestamp>>)
    requires values != []
    ensures ReduceOr(values).Some?
    ensures ReduceOr(values).value.Some? <==> SomeoneStamped(values)
    decreases |values|
  {
    if |values| > 1 {
      var init := values[..|values| - 1];
      ReduceOrTruthy(init);
      if SomeoneStamped(init) {
        var i :| 0 <= i < |init| && init[i].Some?;
        assert values[i].Some?;
      }
      if SomeoneStamped(values) {
        var i :| 0 <= i < |values| && values[i].Some?;
        if i < |values| - 1 {
          assert init[i].Some?;
        }
      }
    } else {
      if SomeoneStamped(values) {
        var i :| 0 <= i < |values| && values[i].Some?;
        assert i == 0;
      }
    }
  }

  /** `values` lists the values of `m` (`Object.values`): the same values, none left out. */
  ghost predicate Enumerates(values: seq<Option<Timestamp>>, m: Roster)
  {
    forall v :: v in values <==> v in m.Values
  }

  /**
   * The delay the code as written schedules, computed from `Object.values(players)`;
   * `None` when `reduce` throws and no next cycle is scheduled.
   */
  function NextDelayAsWritten(values: seq<Option<Timestamp>>): (r: Option<nat>)
  {
    match ReduceOr(values)
    case None => None
    case Some(acc) => Some(if acc.None? then IdleDelay else ActiveDelay)
  }

  /** The delay the cycle evidently intends: idle unless some player has a timestamp. */
  function NextDelay(m: Roster): (r: nat)
  {
    if exists name :: name in m && m[name].Some? then ActiveDelay else IdleDelay
  }

  /** With nobody in `players`, the code as written schedules no next cycle. */
  lemma EmptyRosterStopsPolling(values: seq<Option<Timestamp>>)
    requires Enumerates(values, map[])
    ensures NextDelayAsWritten(values) == None
  {
    FirstListed(values);
  }

  /** A non-empty list lists its first value. */
  lemma FirstListed(values: seq<Option<Timestamp>>)
    ensures values != [] ==> values[0] in values
  {
  }

  /** Wherever `players` is not empty, the corrected delay is the one the code schedules, whatever the
    * order `Object.values` lists them in; on an empty map it is the idle delay. */
  lemma NextDelayAgrees(values: seq<Option<Timestamp>>, m: Roster)
    requires Enumerates(values, m)
    ensures m != map[] ==> NextDelayAsWritten(values) == Some(NextDelay(m))
    ensures m == map[] ==> NextDelay(m) == IdleDelay
  {
    if m != map[] {
      var name :| name in m;
      assert m[name] in m.Values;
      assert values != [];
      ReduceOrTruthy(values);
      if SomeoneStamped(values) {
        var i :| 0 <= i < |values| && values[i].Some?;
        assert values[i] in values;
        var n :| n in m && m[n] == values[i];
      }
      if exists n :: n in m && m[n].Some? {
        var n :| n in m && m[n].Some?;
        assert m[n] in m.Values;
        var i :| 0 <= i < |values| && values[i] == m[n];
      }
    }
  }

  /** `message.startsWith('/')`: a console command rather than chat. */
  predicate IsCommand(message: string)
  {
    |message| > 0 && message[0] == '/'
  }
}
