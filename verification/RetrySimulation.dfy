/**
 The retry loop is a run of the transfer system: the calls of `run_attempt` that `CheckForUpdate` makes are one
 start, one connection for each attempt, and at the end nothing more or giving up.
 */
module RetrySimulation {
  import opened Prelude
  import opened Transfer
  import opened TransferRow
  import D = Downloader
  import Retry

  /** What can happen between the start of an attempt and the start of the next: all but the steps of the loop itself. */
  predicate OfAttempt(ev: Event) {
    !ev.StartRun? && !ev.Connect? && !ev.GiveUp?
  }

  /** A check for updates with these attempts, each given by what happens in it and after it. */
  function CheckEvents(seen: bool, attempts: seq<seq<Event>>): (evs: seq<Event>)
    ensures |evs| > 0
  {
    if |attempts| == 0 then [StartRun(seen)]
    else CheckEvents(seen, attempts[..|attempts| - 1]) + ([Connect] + attempts[|attempts| - 1])
  }

  /** The attempts end with the results that the loop sees. */
  ghost predicate Realizes(s: State, seen: bool, attempts: seq<seq<Event>>, results: Retry.Attempts) {
    forall k: nat | k < |attempts| :: EndsWith(s, seen, attempts, results, k)
  }

  ghost predicate EndsWith(s: State, seen: bool, attempts: seq<seq<Event>>, results: Retry.Attempts, k: nat)
    requires k < |attempts|
  {
    && (forall j | 0 <= j < |attempts[k]| :: OfAttempt(attempts[k][j]))
    && After(s, CheckEvents(seen, attempts[..k + 1])).client == D.Ended(results(k))
  }

  /** The loop went on after every attempt but the last: what `Retry.CheckForUpdate` promises of its calls. */
  ghost predicate GoesOn(attempts: seq<seq<Event>>, results: Retry.Attempts, retryMax: nat) {
    forall k: nat | k + 1 < |attempts| :: Retry.Continues(results(k), 1 + Retry.PlainCount(results, k), retryMax)
  }

  lemma ContinuesBetween(r: D.AttemptResult, attempt: nat, retryMax: nat)
    requires Retry.Continues(r, attempt, retryMax)
    ensures Between(D.Ended(r))
  {
  }

  lemma Started(s: State, seen: bool)
    requires Idle(s.client)
    ensures Between(After(s, CheckEvents(seen, [])).client)
  {
    AfterOne(s, StartRun(seen));
  }

  /**
   The simulation: each attempt of the loop starts where the state machine can connect; after the last one the
   client is where its result says, so that the check is over, or can be given up.
   */
  lemma CallsAreRun(s: State, seen: bool, attempts: seq<seq<Event>>, results: Retry.Attempts, retryMax: nat)
    requires Idle(s.client) && Realizes(s, seen, attempts, results) && GoesOn(attempts, results, retryMax)
    ensures Can(s, StartRun(seen))
    ensures forall k: nat | k < |attempts| :: Can(After(s, CheckEvents(seen, attempts[..k])), Connect)
    ensures var t := After(s, CheckEvents(seen, attempts));
      if |attempts| == 0 then Between(t.client)
      else t.client == D.Ended(results(|attempts| - 1)) && (Idle(t.client) || Can(t, GiveUp))
  {
    hide After, CheckEvents, Retry.Continues;
    Started(s, seen);
    forall k: nat | k < |attempts| ensures Can(After(s, CheckEvents(seen, attempts[..k])), Connect) {
      if k == 0 {
        assert attempts[..0] == [];
      } else {
        assert EndsWith(s, seen, attempts, results, k - 1);
        ContinuesBetween(results(k - 1), 1 + Retry.PlainCount(results, k - 1), retryMax);
      }
    }
    if |attempts| > 0 {
      assert EndsWith(s, seen, attempts, results, |attempts| - 1);
      assert attempts[..|attempts|] == attempts;
    } else {
      assert attempts == [];
    }
  }

  lemma {:induction false} OneStart(seen: bool, attempts: seq<seq<Event>>, k: nat)
    requires forall i, j | 0 <= i < |attempts| && 0 <= j < |attempts[i]| :: OfAttempt(attempts[i][j])
    requires k < |CheckEvents(seen, attempts)|
    ensures CheckEvents(seen, attempts)[k].StartRun? <==> k == 0
  {
    if |attempts| > 0 {
      var n := |attempts| - 1;
      var first := CheckEvents(seen, attempts[..n]);
      if k < |first| {
        OneStart(seen, attempts[..n], k);
      } else {
        var last := [Connect] + attempts[n];
        assert CheckEvents(seen, attempts)[k] == last[k - |first|];
        assert k > |first| ==> OfAttempt(attempts[n][k - |first| - 1]);
      }
    }
  }

  /** So one call of `CheckForUpdate`, with all its attempts, changes the client's row at most once. */
  lemma OneCallChangesRowOnce(s: State, before: seq<Event>, seen: bool, attempts: seq<seq<Event>>, results: Retry.Attempts,
                              i: nat, j: nat)
    requires Initial(s) && Realizes(After(s, before), seen, attempts, results)
    requires |before| <= i < j < |before + CheckEvents(seen, attempts)|
    ensures !(RowChangesAt(s, before + CheckEvents(seen, attempts), i) && RowChangesAt(s, before + CheckEvents(seen, attempts), j))
  {
    hide After, CheckEvents, RowChangesAt;
    var evs := before + CheckEvents(seen, attempts);
    if RowChangesAt(s, evs, i) && RowChangesAt(s, evs, j) {
      RowChangesOncePerRun(s, evs, i, j);
      var k :| i < k < j && evs[k].StartRun?;
      forall a, b | 0 <= a < |attempts| && 0 <= b < |attempts[a]| ensures OfAttempt(attempts[a][b]) {
        assert EndsWith(After(s, before), seen, attempts, results, a);
      }
      OneStart(seen, attempts, k - |before|);
      assert false;
    }
  }
}
