/**
 * The presence fold of `updatePlayers` (backend/FactorioConnection.ts): each
 * parsed entry, in list order, updates `players`, the map from player name to
 * the `Date.now()` at which the player was seen joining, or `null` while the
 * player is offline.
 */
module Presence {
  import opened Wrappers
  import opened Players

  /** A `Date.now()` value. It is positive, so JavaScript reads every stored timestamp as true. */
  type Timestamp = t: int | t > 0 witness 1

  /** `players`: `None` is JavaScript's `null`. */
  type Roster = map<string, Option<Timestamp>>

  /** What `players[name]` reads: `None` when the name is absent (`undefined`). */
  function Lookup(m: Roster, name: string): Option<Option<Timestamp>>
  {
    if name in m then Some(m[name]) else None
  }

  /**
   * One iteration of the `forEach`: an offline entry stores `null`; an online
   * entry keeps a stored timestamp (`if (this.players[name]) return;`) and
   * otherwise stores `now`.
   */
  function ApplyEntry(m: Roster, e: Entry, now: Timestamp): Roster
  {
    if !e.online then m[e.name := None]
    else if e.name in m && m[e.name].Some? then m
    else m[e.name := Some(now)]
  }

  /** The entries applied in list order. */
  function Fold(m: Roster, es: seq<Entry>, now: Timestamp): Roster
    decreases |es|
  {
    if es == [] then m else ApplyEntry(Fold(m, es[..|es| - 1], now), es[|es| - 1], now)
  }

  /** The response's `players` update: nothing unless the response is non-empty and accepted. */
  function PlayersAfter(m: Roster, response: Option<string>, now: Timestamp): Roster
  {
    if response.None? || response.value == [] then m
    else
      match ParsePlayers(response.value)
      case None => m
      case Some(es) => Fold(m, es, now)
  }

  // ---------------------------------------------------- reference outcome

  function Names(es: seq<Entry>): set<string>
  {
    set i | 0 <= i < |es| :: es[i].name
  }

  /** The online flags of the entries for `name`, in list order. */
  function Flags(es: seq<Entry>, name: string): seq<bool>
    decreases |es|
  {
    if es == [] then []
    else Flags(es[..|es| - 1], name) + (if es[|es| - 1].name == name then [es[|es| - 1].online] else [])
  }

  /**
   * What a name ends up as after entries with these flags, stated without
   * the fold: unchanged if it is not mentioned; `null` if its last entry is
   * offline; its prior timestamp if every entry for it is online and it had
   * one; otherwise `now`.
   */
  function Settled(prior: Option<Option<Timestamp>>, flags: seq<bool>, now: Timestamp): Option<Option<Timestamp>>
  {
    if flags == [] then prior
    else if !flags[|flags| - 1] then Some(None)
    else if false !in flags && prior.Some? && prior.value.Some? then prior
    else Some(Some(now))
  }

  // ----------------------------------------------------------- properties

  /** What one entry for a name does to what `players[name]` reads. */
  function Step(o: Option<Option<Timestamp>>, online: bool, now: Timestamp): Option<Option<Timestamp>>
  {
    if !online then Some(None)
    else if o.Some? && o.value.Some? then o
    else Some(Some(now))
  }

  /** One entry changes its own name's reading by `Step` and no other name's. */
  lemma ApplyLookup(m: Roster, e: Entry, now: Timestamp, name: string)
    ensures Lookup(ApplyEntry(m, e, now), name) ==
              if e.name == name then Step(Lookup(m, name), e.online, now) else Lookup(m, name)
  {
  }

  /** The reference outcome after one more flag is `Step` of the outcome before it. */
  lemma SettledSnoc(prior: Option<Option<Timestamp>>, f: seq<bool>, b: bool, now: Timestamp)
    ensures Settled(prior, f + [b], now) == Step(Settled(prior, f, now), b, now)
  {
    var g := f + [b];
    assert g[|g| - 1] == b;
    if f != [] {
      assert f[|f| - 1] in f;
    }
    assert (false !in g) == (false !in f && b);
  }

  /** The fold agrees, name by name, with the reference outcome. */
  lemma {:induction false} FoldLookup(m: Roster, es: seq<Entry>, now: Timestamp, name: string)
    ensures Lookup(Fold(m, es, now), name) == Settled(Lookup(m, name), Flags(es, name), now)
    decreases |es|
  {
    if es != [] {
      var init := es[..|es| - 1];
      var e := es[|es| - 1];
      FoldLookup(m, init, now, name);
      ApplyLookup(Fold(m, init, now), e, now, name);
      if e.name == name {
        SettledSnoc(Lookup(m, name), Flags(init, name), e.online, now);
      }
    }
  }

  lemma {:induction false} FlagsEmpty(es: seq<Entry>, name: string)
    ensures Flags(es, name) == [] <==> name !in Names(es)
    decreases |es|
  {
    if es != [] {
      var init := es[..|es| - 1];
      FlagsEmpty(init, name);
      assert Names(es) == Names(init) + {es[|es| - 1].name} by {
        forall n | n in Names(es) ensures n in Names(init) + {es[|es| - 1].name} {
          var i :| 0 <= i < |es| && es[i].name == n;
          if i < |es| - 1 { assert init[i].name == n; }
        }
      }
    }
  }

  /** Entries are never removed, and every listed name gets an entry. */
  lemma {:induction false} FoldKeys(m: Roster, es: seq<Entry>, now: Timestamp)
    ensures Fold(m, es, now).Keys == m.Keys + Names(es)
    decreases |es|
  {
    if es != [] {
      var init := es[..|es| - 1];
      FoldKeys(m, init, now);
      assert Names(es) == Names(init) + {es[|es| - 1].name} by {
        forall n | n in Names(es) ensures n in Names(init) + {es[|es| - 1].name} {
          var i :| 0 <= i < |es| && es[i].name == n;
          if i < |es| - 1 { assert init[i].name == n; }
        }
      }
    }
  }

  /** A name the response does not list keeps whatever it had, including being absent. */
  lemma FoldUnmentioned(m: Roster, es: seq<Entry>, now: Timestamp, name: string)
    requires name !in Names(es)
    ensures Lookup(Fold(m, es, now), name) == Lookup(m, name)
  {
    FoldLookup(m, es, now, name);
    FlagsEmpty(es, name);
  }

  /** Some entry for `name` is offline exactly when `false` is among its flags. */
  lemma {:induction false} FlagsOffline(es: seq<Entry>, name: string)
    ensures (false in Flags(es, name)) <==> exists j :: 0 <= j < |es| && es[j].name == name && !es[j].online
    decreases |es|
  {
    if es != [] {
      var init := es[..|es| - 1];
      FlagsOffline(init, name);
      if exists j :: 0 <= j < |es| && es[j].name == name && !es[j].online {
        var j :| 0 <= j < |es| && es[j].name == name && !es[j].online;
        if j < |es| - 1 {
          assert init[j].name == name && !init[j].online;
        }
      }
    }
  }

  /** The last flag for a name is that of the name's last entry. */
  lemma {:induction false} FlagsLast(es: seq<Entry>, i: nat)
    requires i < |es|
    requires forall j :: i < j < |es| ==> es[j].name != es[i].name
    ensures Flags(es, es[i].name) != [] && Flags(es, es[i].name)[|Flags(es, es[i].name)| - 1] == es[i].online
    decreases |es|
  {
    if i < |es| - 1 {
      var init := es[..|es| - 1];
      FlagsLast(init, i);
    }
  }

  /** A name whose last entry is offline is `null`, whatever came before. */
  lemma FoldLastOffline(m: Roster, es: seq<Entry>, now: Timestamp, i: nat)
    requires i < |es| && !es[i].online
    requires forall j :: i < j < |es| ==> es[j].name != es[i].name
    ensures es[i].name in Fold(m, es, now) && Fold(m, es, now)[es[i].name] == None
  {
    FoldLookup(m, es, now, es[i].name);
    FlagsLast(es, i);
  }

  /**
   * A name whose last entry is online keeps the timestamp it already had when
   * no entry in the response showed it offline, and is stamped `now` otherwise.
   */
  lemma FoldLastOnline(m: Roster, es: seq<Entry>, now: Timestamp, i: nat)
    requires i < |es| && es[i].online
    requires forall j :: i < j < |es| ==> es[j].name != es[i].name
    ensures var name := es[i].name;
            var left := exists j :: 0 <= j < |es| && es[j].name == name && !es[j].online;
            && name in Fold(m, es, now)
            && Fold(m, es, now)[name] == if !left && name in m && m[name].Some? then m[name] else Some(now)
  {
    FoldLookup(m, es, now, es[i].name);
    FlagsLast(es, i);
    FlagsOffline(es, es[i].name);
  }
}
