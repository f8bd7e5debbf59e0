/** The reconnect policy of one session: what a `close` or `open` status does
    to the session's consecutive retry count, and whether the session is
    restarted or torn down. */
module Reconnect {
  import opened Wrappers

  /** The retry budget: at most this many restarts in a row. */
  const MaxRetryAttempts: nat := 10

  /** `retryCount.get(sessionId) ?? 0`: a missing entry reads as 0. */
  function Attempts(stored: Option<nat>): nat
  {
    match stored
    case None => 0
    case Some(n) => n
  }

  /** `code != DisconnectReason.loggedOut` fails exactly when the code is
      present and equal to the logged-out code; an absent code (`undefined`)
      compares unequal and is retryable. */
  predicate IsLoggedOut(code: Option<int>, loggedOut: int)
  {
    code == Some(loggedOut)
  }

  /** What a `close` status leads to: a restart recorded as attempt number
      `attempt`, or the end of the session. */
  datatype CloseDecision = Retry(attempt: nat) | Terminate

  function DecideClose(code: Option<int>, loggedOut: int, stored: Option<nat>): (d: CloseDecision)
    ensures d.Retry? ==> 1 <= d.attempt <= MaxRetryAttempts
    ensures IsLoggedOut(code, loggedOut) ==> d == Terminate
  {
    var attempt := Attempts(stored);
    if !IsLoggedOut(code, loggedOut) && attempt < MaxRetryAttempts then Retry(attempt + 1)
    else Terminate
  }

  /** A retryable close (not logged out, budget left) restarts the session and
      stores the count one higher. */
  lemma RetryableClose(code: Option<int>, loggedOut: int, stored: Option<nat>)
    requires !IsLoggedOut(code, loggedOut) && Attempts(stored) < MaxRetryAttempts
    ensures DecideClose(code, loggedOut, stored) == Retry(Attempts(stored) + 1)
    ensures 1 <= DecideClose(code, loggedOut, stored).attempt <= MaxRetryAttempts
  {
  }

  /** A logged-out close, or any close once the budget is spent, ends the
      session; these are the only two ways a close ends it. */
  lemma TerminalClose(code: Option<int>, loggedOut: int, stored: Option<nat>)
    ensures DecideClose(code, loggedOut, stored) == Terminate
        <==> IsLoggedOut(code, loggedOut) || Attempts(stored) >= MaxRetryAttempts
  {
  }

  /** The connection statuses that touch the retry count; every other event
      (connecting, QR code, credentials, messages) leaves it alone. */
  datatype ConnEvent = Close(code: Option<int>) | Open | Other

  /** The stored retry count after one event (`None`: no entry). */
  function Step(stored: Option<nat>, e: ConnEvent, loggedOut: int): (next: Option<nat>)
    ensures !e.Other? ==> Attempts(next) <= MaxRetryAttempts
    ensures e.Close? && IsLoggedOut(e.code, loggedOut) ==> next == None
    ensures e.Other? ==> next == stored
  {
    match e
    case Close(code) =>
      (match DecideClose(code, loggedOut, stored)
       case Retry(attempt) => Some(attempt)
       case Terminate => None)
    case Open => None
    case Other => stored
  }

  /** The stored retry count after a stream of events, taken in order. */
  function Replay(stored: Option<nat>, events: seq<ConnEvent>, loggedOut: int): Option<nat>
    decreases |events|
  {
    if events == [] then stored
    else Step(Replay(stored, events[..|events| - 1], loggedOut), events[|events| - 1], loggedOut)
  }

  /** A close that does not say "logged out". */
  predicate Retryable(e: ConnEvent, loggedOut: int)
  {
    e.Close? && !IsLoggedOut(e.code, loggedOut)
  }

  /** The stored count never exceeds the budget, whatever the events. */
  lemma {:induction false} ReplayWithinBudget(stored: Option<nat>, events: seq<ConnEvent>, loggedOut: int)
    requires Attempts(stored) <= MaxRetryAttempts
    ensures Attempts(Replay(stored, events, loggedOut)) <= MaxRetryAttempts
  {
    if events != [] {
      ReplayWithinBudget(stored, events[..|events| - 1], loggedOut);
    }
  }

  /** From a clean start, N retryable closes in a row (N <= 10) leave the
      count at exactly N, each one having restarted the session. */
  lemma {:induction false} ConsecutiveRetryableCloses(events: seq<ConnEvent>, loggedOut: int)
    requires |events| <= MaxRetryAttempts
    requires forall i :: 0 <= i < |events| ==> Retryable(events[i], loggedOut)
    ensures Replay(None, events, loggedOut) == if events == [] then None else Some(|events|)
    ensures forall i :: 0 <= i < |events| ==>
      && Retryable(events[i], loggedOut)
      && DecideClose(events[i].code, loggedOut, Replay(None, events[..i], loggedOut)) == Retry(i + 1)
  {
    if events != [] {
      var n := |events| - 1;
      var prefix := events[..n];
      ConsecutiveRetryableCloses(prefix, loggedOut);
      forall i | 0 <= i < |events|
        ensures Retryable(events[i], loggedOut) && DecideClose(events[i].code, loggedOut, Replay(None, events[..i], loggedOut)) == Retry(i + 1)
      {
        if i < n {
          assert prefix[..i] == events[..i];
        } else {
          assert events[..i] == prefix;
        }
      }
    }
  }

  /** The eleventh retryable close in a row ends the session. */
  lemma EleventhCloseTerminates(events: seq<ConnEvent>, code: Option<int>, loggedOut: int)
    requires |events| == MaxRetryAttempts
    requires forall i :: 0 <= i < |events| ==> Retryable(events[i], loggedOut)
    ensures DecideClose(code, loggedOut, Replay(None, events, loggedOut)) == Terminate
    ensures Replay(None, events + [Close(code)], loggedOut) == None
  {
    ConsecutiveRetryableCloses(events, loggedOut);
    assert (events + [Close(code)])[..|events|] == events;
  }

  /** An `open` status clears the count whatever it was: what follows it
      sees a full budget again. */
  lemma {:induction false} OpenRestoresBudget(stored: Option<nat>, before: seq<ConnEvent>,
                                             after: seq<ConnEvent>, loggedOut: int)
    ensures Replay(stored, before + [Open] + after, loggedOut) == Replay(None, after, loggedOut)
  {
    var events := before + [Open] + after;
    if after == [] {
      assert events[..|events| - 1] == before;
    } else {
      var n := |after| - 1;
      assert events[..|events| - 1] == before + [Open] + after[..n];
      OpenRestoresBudget(stored, before, after[..n], loggedOut);
    }
  }
}
