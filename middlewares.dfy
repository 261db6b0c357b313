/**
 * The anti-flood middleware: a message sent before the bot started is
 * dropped, and a user's message that comes less than `limit` seconds after
 * their last accepted one is dropped with a warning.
 */
module Middlewares {
  import opened Telegram

  /** What `pre_process` returns: `CancelUpdate()`, or nothing, which lets the update through. */
  datatype Signal = Pass | Cancel

  const FloodWarning := "You are making request too often"

  /** The date of each user's last message in `accepted`: the latest message's date is its user's. */
  function LastDates(accepted: seq<Message>): (r: map<int, int>)
    ensures accepted == [] <==> r == map[]
    ensures accepted != [] ==> var m := accepted[|accepted| - 1]; m.from.id in r && r[m.from.id] == m.date
    decreases |accepted|
  {
    if accepted == [] then map[]
    else
      var m := accepted[|accepted| - 1];
      LastDates(accepted[..|accepted| - 1])[m.from.id := m.date]
  }

  /** A user has an entry exactly when one of their messages was accepted, and it is the date of one of them. */
  lemma {:induction false} LastDatesOf(accepted: seq<Message>, u: int)
    ensures u in LastDates(accepted) <==> exists i :: 0 <= i < |accepted| && accepted[i].from.id == u
    ensures u in LastDates(accepted) ==>
      exists i :: 0 <= i < |accepted| && accepted[i].from.id == u && accepted[i].date == LastDates(accepted)[u]
    decreases |accepted|
  {
    if accepted != [] {
      var init := accepted[..|accepted| - 1];
      LastDatesOf(init, u);
      assert forall i :: 0 <= i < |init| ==> init[i] == accepted[i];
    }
  }

  /** Every stored date is the date of an accepted message, so it is no earlier than the start time. */
  lemma LastDatesAfterStart(accepted: seq<Message>, startTime: int, u: int)
    requires forall i :: 0 <= i < |accepted| ==> accepted[i].date >= startTime
    requires u in LastDates(accepted)
    ensures LastDates(accepted)[u] >= startTime
  {
    LastDatesOf(accepted, u);
  }

  /** Two accepted messages of one user, the later at least `limit` seconds after the earlier. */
  ghost predicate Spaced(accepted: seq<Message>, limit: int) {
    forall i, j :: 0 <= i < j < |accepted| && accepted[i].from.id == accepted[j].from.id ==>
      accepted[j].date - accepted[i].date >= limit
  }

  /** Accepting one more message updates its user's date and no other. */
  lemma LastDatesAppend(accepted: seq<Message>, m: Message)
    ensures LastDates(accepted + [m]) == LastDates(accepted)[m.from.id := m.date]
  {
    assert (accepted + [m])[..|accepted|] == accepted;
  }

  /**
   * A message that is at least `limit` seconds after each accepted message of
   * its user keeps the accepted messages spaced, and keeps every stored date
   * the latest of its user's.
   */
  lemma AppendSpaced(accepted: seq<Message>, m: Message, limit: int)
    requires limit >= 0 && Spaced(accepted, limit)
    requires forall i :: 0 <= i < |accepted| && accepted[i].from.id == m.from.id ==> m.date - accepted[i].date >= limit
    requires forall i :: 0 <= i < |accepted| ==>
      accepted[i].from.id in LastDates(accepted) && accepted[i].date <= LastDates(accepted)[accepted[i].from.id]
    ensures Spaced(accepted + [m], limit)
    ensures forall i :: 0 <= i < |accepted + [m]| ==>
      (accepted + [m])[i].from.id in LastDates(accepted + [m])
      && (accepted + [m])[i].date <= LastDates(accepted + [m])[(accepted + [m])[i].from.id]
  {
    var s := accepted + [m];
    LastDatesAppend(accepted, m);
    assert forall i :: 0 <= i < |accepted| ==> s[i] == accepted[i];
  }

  class AntiFlood {
    const startTime: int
    const limit: int
    /** `last_time`: the date of each user's last accepted message. */
    var lastTime: map<int, int>
    /** The warnings sent: the chat and the text. */
    var warnings: seq<(int, string)>
    /** The messages let through since the start, in order. */
    ghost var accepted: seq<Message>

    /**
     * `last_time` holds each user's last accepted date; every accepted
     * message was sent after the start; and, for a non-negative limit, a
     * user's accepted messages are at least `limit` seconds apart.
     */
    ghost predicate Valid()
      reads this
    {
      lastTime == LastDates(accepted)
      && (forall i :: 0 <= i < |accepted| ==> accepted[i].date >= startTime)
      && (limit >= 0 ==> Spaced(accepted, limit))
      && (limit >= 0 ==> forall i :: 0 <= i < |accepted| ==>
            accepted[i].from.id in lastTime && accepted[i].date <= lastTime[accepted[i].from.id])
    }

    constructor(startTime: int, windowLimitSec: int)
      ensures Valid()
      ensures this.startTime == startTime && limit == windowLimitSec
      ensures lastTime == map[] && warnings == [] && accepted == []
    {
      this.startTime := startTime;
      limit := windowLimitSec;
      lastTime := map[];
      warnings := [];
      accepted := [];
    }

    /** `pre_process`. */
    method PreProcess(message: Message) returns (signal: Signal)
      requires Valid()
      modifies this
      ensures Valid()
      ensures var u := message.from.id;
        if message.date < startTime then
          signal == Cancel && lastTime == old(lastTime) && warnings == old(warnings)
        else if u !in old(lastTime) then
          signal == Pass && lastTime == old(lastTime)[u := message.date] && warnings == old(warnings)
        else if message.date - old(lastTime)[u] < limit then
          signal == Cancel && lastTime == old(lastTime)
          && warnings == old(warnings) + [(message.chat.id, FloodWarning)]
        else
          signal == Pass && lastTime == old(lastTime)[u := message.date] && warnings == old(warnings)
      ensures accepted == old(accepted) + (if signal == Pass then [message] else [])
    {
      var u := message.from.id;
      if message.date < startTime {
        return Cancel;
      }
      if u !in lastTime {
        Accept(message);
        return Pass;
      }
      if message.date - lastTime[u] < limit {
        warnings := warnings + [(message.chat.id, FloodWarning)];
        return Cancel;
      }
      Accept(message);
      signal := Pass;
    }

    /** Records an accepted message. */
    method Accept(message: Message)
      requires Valid()
      requires message.date >= startTime
      requires message.from.id in lastTime ==> message.date - lastTime[message.from.id] >= limit
      modifies this`lastTime, this`accepted
      ensures Valid()
      ensures lastTime == old(lastTime)[message.from.id := message.date]
      ensures accepted == old(accepted) + [message]
    {
      var u := message.from.id;
      ghost var before := accepted;
      if limit >= 0 {
        if u !in lastTime {
          LastDatesOf(before, u);
        }
        AppendSpaced(before, message, limit);
      }
      LastDatesAppend(before, message);
      lastTime := lastTime[u := message.date];
      accepted := accepted + [message];
    }
  }
}
