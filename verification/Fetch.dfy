/** When a pod's feos-authn asks feosd for credentials. */
module Fetch {
  import opened Wrappers

  const BACKOFF_FIRST: nat := 2
  const BACKOFF_MAX: nat := 60

  /** A message of feosd, as far as asking for credentials goes. */
  datatype Message =
    | Other
    | Hello(valid: bool)
    | Credentials(loads: bool)
    | Refused
    | Refetch

  datatype Event =
    | Accepted(ok: bool)
    | Received(msg: Message)
    | Closed
    | Retry

  class Control {
    /** The connection of feosd, and whether it said hello. */
    var session: Option<bool>
    /** A request is due. */
    var want: bool
    /** A request was sent on this connection, its answer pending. */
    var inflight: bool
    /** A refetch came while one was in flight. */
    var again: bool
    var retryAt: Option<nat>
    var backoff: nat

    /** The requests sent on this connection and not answered yet. */
    ghost var unanswered: nat
    /** Since the last request was sent, a refetch came or that request was
        refused or lost; at first, none was sent. */
    ghost var owed: bool

    /** A request in flight is on a live connection past its hello, and is the
        only one; exactly what is owed is due, or will be once the answer comes; the
        backoff is between its bounds, and only runs while a request is due. */
    ghost predicate Valid()
      reads this
    {
      && (inflight ==> session == Some(true) && retryAt.None?)
      && unanswered == (if inflight then 1 else 0)
      && (owed <==> (want && !inflight) || (inflight && again))
      && (again ==> owed)
      && (retryAt.Some? ==> want)
      && 2 <= backoff <= 60
    }

    /** Whether a request goes out now. */
    predicate Due()
      reads this
    {
      session == Some(true) && want && !inflight && retryAt.None?
    }

    /** No request that could be sent is left unsent. */
    ghost predicate Settled()
      reads this
    {
      !Due()
    }

    /** feosd answers each request at most once, on its own connection. */
    ghost predicate Expected(ev: Event)
      reads this
    {
      ev.Received? ==>
        session.Some? && (session == Some(true) && (ev.msg.Credentials? || ev.msg.Refused?) ==> unanswered > 0)
    }

    constructor ()
      ensures Valid() && Settled() && owed && want && session.None? && retryAt.None? && backoff == 2
    {
      session, want, inflight, again, retryAt, backoff := None, true, false, false, None, BACKOFF_FIRST;
      unanswered, owed := 0, true;
    }

    method Fail(now: nat)
      requires 2 <= backoff <= 60 && session == Some(true)
      modifies this
      ensures Valid() && owed && want && !inflight && retryAt == Some(now + old(backoff))
      ensures backoff == (if 2 * old(backoff) < 60 then 2 * old(backoff) else 60) && session == old(session)
    {
      inflight := false;
      want := true;
      retryAt := Some(now + backoff);
      backoff := if backoff * 2 < BACKOFF_MAX then backoff * 2 else BACKOFF_MAX;
      unanswered, owed := 0, true;
    }

    /** The connection goes, or another takes its place: what was in flight on
        it is due again. */
    method Replace(next: Option<bool>)
      requires Valid() && next != Some(true)
      modifies this
      ensures Valid() && session == next && !inflight && backoff == old(backoff) && retryAt == old(retryAt)
      ensures owed == (old(owed) || old(inflight)) && want == (old(want) || old(inflight))
    {
      session := next;
      if inflight {
        inflight := false;
        want := true;
        owed := true;
      }
      unanswered := 0;
    }

    /** One message; false closes the connection. */
    method OnMessage(msg: Message, now: nat) returns (keep: bool)
      requires Valid() && session.Some? && Expected(Received(msg))
      modifies this
      ensures Valid() && session.Some?
      ensures old(session) == Some(true) ==> session == Some(true)
      ensures old(session) == Some(true) && msg == Refetch ==> owed
      ensures old(owed) ==> owed
      ensures old(session) == Some(true) && msg == Credentials(true) ==>
                owed == old(owed) && !inflight && backoff == BACKOFF_FIRST
      ensures old(session) == Some(true) && (msg == Credentials(false) || msg == Refused) ==>
                owed && retryAt == Some(now + old(backoff))
                && backoff == (if 2 * old(backoff) < 60 then 2 * old(backoff) else 60)
      ensures old(session) == Some(false) ==> session == (if msg == Hello(true) then Some(true) else Some(false))
      ensures old(session) == Some(false) && !msg.Hello? ==> unchanged(this)
      ensures msg == Other || msg == Hello(false) ==> unchanged(this)
      ensures msg == Hello(true) ==>
                session == Some(true) && want == old(want) && inflight == old(inflight) && retryAt == old(retryAt)
      ensures msg == Refetch ==> retryAt == old(retryAt) && backoff == old(backoff)
      ensures keep <==> msg != Hello(false)
    {
      var hello := session.value;
      if !hello && !msg.Hello? {
        return true;
      }
      match msg {
        case Other =>
        case Hello(valid) =>
          if !valid { return false; }
          session := Some(true);
        case Credentials(loads) =>
          inflight := false;
          unanswered := 0;
          if loads {
            backoff := BACKOFF_FIRST;
            want := again;
            again := false;
          } else {
            Fail(now);
          }
        case Refused =>
          Fail(now);
        case Refetch =>
          if inflight {
            again := true;
          } else {
            want := true;
          }
          owed := true;
      }
      return true;
    }

    /** Sends what is due; with `mayFail` the connection may be lost instead. */
    method Ask(mayFail: bool) returns (sent: bool)
      requires Valid()
      modifies this
      ensures Valid() && Settled()
      ensures retryAt == old(retryAt) && backoff == old(backoff) && want == old(want)
      ensures sent ==> old(Due()) && inflight && !again && !owed && session == Some(true)
      ensures !sent ==> owed == old(owed) && inflight == old(inflight) && again == old(again)
      ensures old(Due()) ==> sent || (mayFail && session.None?)
      ensures !old(Due()) ==> unchanged(this)
    {
      sent := false;
      if Due() {
        sent := true;
        if mayFail { sent := *; }
        if sent {
          inflight := true;
          again := false;
          unanswered, owed := unanswered + 1, false;
        } else {
          session := None;
        }
      }
    }

    /** One turn of the loop: what is owed stays owed until a request is sent. */
    method Step(ev: Event, now: nat, mayFail: bool) returns (sent: bool)
      requires Valid() && Settled() && Expected(ev)
      requires ev.Retry? ==> retryAt.Some? && retryAt.value <= now
      modifies this
      ensures Valid() && Settled()
      ensures old(owed) && !sent ==> owed
      ensures ev == Received(Refetch) && old(session) == Some(true) && !sent ==> owed
      ensures sent ==> !owed && inflight
      // A new connection takes the place of the old one, and says hello first.
      ensures ev == Accepted(true) ==> session == Some(false) && !inflight && !sent
      ensures ev == Accepted(false) ==> unchanged(this) && !sent
      // One that is closed, or said the wrong hello, is gone.
      ensures ev == Closed || ev == Received(Hello(false)) ==> session.None? && !inflight && !sent
      // What was in flight on the old one is due again.
      ensures ev == Accepted(true) || ev == Closed || ev == Received(Hello(false)) ==>
                want == (old(want) || old(inflight)) && retryAt == old(retryAt)
      // Past the hello what is due goes out at once, and so it does when a wait is over.
      ensures ev == Received(Hello(true)) && old(want) && !old(inflight) && old(retryAt).None? ==>
                sent || (mayFail && session.None?)
      ensures ev == Retry ==> retryAt.None?
      ensures ev == Retry && old(session) == Some(true) ==> sent || (mayFail && session.None?)
      ensures ev == Retry && old(session) != Some(true) ==> session == old(session) && !sent
    {
      match ev {
        case Accepted(ok) =>
          if ok { Replace(Some(false)); }
        case Received(msg) =>
          var keep := OnMessage(msg, now);
          if !keep { Replace(None); }
        case Closed =>
          Replace(None);
        case Retry =>
          retryAt := None;
      }
      sent := Ask(mayFail);
    }

    /** Any run: whatever comes, in any order, as long as feosd answers each
        request at most once. */
    method Run(turns: nat)
      requires Valid() && Settled()
      modifies this
      ensures Valid() && Settled()
    {
      var n := 0;
      while n < turns
        invariant Valid() && Settled()
      {
        var ev: Event := *;
        var now: nat :| true;
        var possible := ev.Retry? ==> retryAt.Some? && retryAt.value <= now;
        var answers := ev.Received? && session == Some(true) && (ev.msg.Credentials? || ev.msg.Refused?);
        if possible && (ev.Received? ==> session.Some?) && (answers ==> inflight) {
          var mayFail: bool := *;
          var sent := Step(ev, now, mayFail);
        }
        n := n + 1;
      }
    }
  }
}
