/** Session identification: the `thread_id` of the first `thread.started`
    event, or null. */
module CodexSession {
  import opened CodexEvents

  /** The forward scan that stops at the first `thread.started` event. */
  function SessionOf(es: seq<Event>): Option<string>
  {
    if es == [] then None
    else if IsThreadStarted(es[0]) then es[0].threadId
    else SessionOf(es[1..])
  }

  /** The source's loop: take the `thread_id` of the first `thread.started`
      event and stop. */
  method FindSession(events: seq<Event>) returns (sessionId: Option<string>)
    ensures sessionId == SessionOf(events)
  {
    sessionId := None;
    var i := 0;
    while i < |events|
      invariant 0 <= i <= |events|
      invariant sessionId == None
      invariant SessionOf(events) == SessionOf(events[i..])
    {
      var e := events[i];
      if IsThreadStarted(e) {
        sessionId := e.threadId;
        break;
      }
      assert events[i..][1..] == events[i + 1..];
      i := i + 1;
    }
  }

  /** First wins: the session id is the `thread_id` of the earliest
      `thread.started` event, even when that one has none and a later one does. */
  lemma {:induction false} SessionFirstWins(es: seq<Event>, i: nat)
    requires i < |es| && IsThreadStarted(es[i])
    requires forall j :: 0 <= j < i ==> !IsThreadStarted(es[j])
    ensures SessionOf(es) == es[i].threadId
  {
    if i > 0 {
      assert !IsThreadStarted(es[0]);
      assert forall j :: 0 <= j < i - 1 ==> es[1..][j] == es[j + 1];
      SessionFirstWins(es[1..], i - 1);
    }
  }

  /** Without any `thread.started` event the session id is null. */
  lemma {:induction false} SessionAbsent(es: seq<Event>)
    requires forall j :: 0 <= j < |es| ==> !IsThreadStarted(es[j])
    ensures SessionOf(es) == None
  {
    if es != [] {
      assert forall j :: 0 <= j < |es| - 1 ==> es[1..][j] == es[j + 1];
      SessionAbsent(es[1..]);
    }
  }

  /** Over a concatenation, the first part decides as soon as it holds a
      `thread.started` event; otherwise the second part does. */
  lemma {:induction false} SessionAppend(a: seq<Event>, b: seq<Event>)
    ensures SessionOf(a + b) ==
              if exists j :: 0 <= j < |a| && IsThreadStarted(a[j]) then SessionOf(a)
              else SessionOf(b)
  {
    if a == [] {
      assert a + b == b;
    } else {
      assert (a + b)[0] == a[0];
      assert (a + b)[1..] == a[1..] + b;
      SessionAppend(a[1..], b);
      if !IsThreadStarted(a[0]) {
        assert (exists j :: 0 <= j < |a| && IsThreadStarted(a[j]))
            == (exists j :: 0 <= j < |a[1..]| && IsThreadStarted(a[1..][j])) by {
          if exists j :: 0 <= j < |a| && IsThreadStarted(a[j]) {
            var j :| 0 <= j < |a| && IsThreadStarted(a[j]);
            assert a[1..][j - 1] == a[j];
          }
          if exists j :: 0 <= j < |a[1..]| && IsThreadStarted(a[1..][j]) {
            var j :| 0 <= j < |a[1..]| && IsThreadStarted(a[1..][j]);
            assert a[j + 1] == a[1..][j];
          }
        }
      } else {
        assert IsThreadStarted(a[0]);
      }
    }
  }
}
