/**
 * The decision logic of the `/grow` route (backend/index.ts): the sender's
 * name defaults to `Anonymous`, must match `^[-a-zA-Z0-9_ ]+$`, and an
 * accepted name is greeted with one chat message.
 */
module Grow {
  import opened Wrappers
  import opened Polling

  const DefaultName: string := "Anonymous"
  const Greeting: string := ": The Factory Must Grow!"

  /** `body?.name || 'Anonymous'`: a missing or empty name is replaced by the default. */
  function NameOrDefault(name: Option<string>): (from: string)
  {
    if name.None? || name.value == [] then DefaultName else name.value
  }

  /** The class `[-a-zA-Z0-9_ ]`. */
  predicate NameChar(c: char)
  {
    c == '-' || ('a' <= c <= 'z') || ('A' <= c <= 'Z') || ('0' <= c <= '9') || c == '_' || c == ' '
  }

  /** The longest prefix of `s` made of name characters. */
  function NameRun(s: string): (n: nat)
    ensures n <= |s|
  {
    if s != [] && NameChar(s[0]) then 1 + NameRun(s[1..]) else 0
  }

  /**
   * `from.match(/^[-a-zA-Z0-9_ ]+$/) !== null`. Without the `m` flag `^` and
   * `$` only match at the ends of the whole string, so the class run has to
   * span all of it.
   */
  predicate ValidName(from: string)
  {
    var n := NameRun(from);
    n > 0 && n == |from|
  }

  /** Every character of the run is a name character, and the run stops at one that is not. */
  lemma {:induction false} NameRunChars(s: string)
    ensures forall k :: 0 <= k < NameRun(s) ==> NameChar(s[k])
    ensures NameRun(s) < |s| ==> !NameChar(s[NameRun(s)])
  {
    if s != [] && NameChar(s[0]) {
      NameRunChars(s[1..]);
      forall k | 0 < k < NameRun(s)
        ensures NameChar(s[k])
      {
        assert s[k] == s[1..][k - 1];
      }
    }
  }

  /** A name is accepted exactly when it is non-empty and every character is a name character. */
  lemma ValidNameChars(from: string)
    ensures ValidName(from) <==> from != [] && forall k :: 0 <= k < |from| ==> NameChar(from[k])
  {
    NameRunChars(from);
  }

  /** The response to a `/grow` request: its status code, and the chat message it causes, if any. */
  datatype Reply = Reply(code: nat, chat: Option<string>)

  /** The handler: `ctx.throw(400, ...)` before anything is sent, or `ok` and one message. */
  function HandleGrow(name: Option<string>): (r: Reply)
  {
    var from := NameOrDefault(name);
    if !ValidName(from) then Reply(400, None) else Reply(200, Some(from + Greeting))
  }

  /** A request without a usable name greets as `Anonymous`. */
  lemma MissingNameIsAnonymous(name: Option<string>)
    requires name.None? || name == Some([])
    ensures HandleGrow(name) == Reply(200, Some(DefaultName + Greeting))
  {
    ValidNameChars(DefaultName);
  }

  /**
   * A given name is refused with 400 and no message exactly when it holds a
   * character outside `[-a-zA-Z0-9_ ]`; every accepted request gets 200 and
   * the one greeting of the name it was accepted under.
   */
  lemma GrowOutcome(name: Option<string>)
    ensures name.Some? && name.value != [] ==>
              (HandleGrow(name).code == 400 <==> exists k :: 0 <= k < |name.value| && !NameChar(name.value[k]))
    ensures HandleGrow(name).code == 400 || HandleGrow(name).code == 200
    ensures HandleGrow(name).chat.None? <==> HandleGrow(name).code == 400
    ensures HandleGrow(name).chat.Some? ==>
              HandleGrow(name).chat.value == (if name.Some? && name.value != [] then name.value else DefaultName) + Greeting
  {
    ValidNameChars(NameOrDefault(name));
  }

  /** A message `/grow` sends starts with a name character, so the chat guard never drops it. */
  lemma GreetingIsNotCommand(name: Option<string>)
    requires HandleGrow(name).chat.Some?
    ensures var m := HandleGrow(name).chat.value; m != [] && NameChar(m[0]) && !IsCommand(m)
  {
    var from := NameOrDefault(name);
    ValidNameChars(from);
    assert (from + Greeting)[0] == from[0];
  }
}
