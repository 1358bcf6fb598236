/** The pending-timeout table `@timeouts` (token to deadline) and what a sweep does to it. */
module Timeouts {
  import opened Types

  /** The tokens `check_timeouts` fires at time `now`: those whose deadline lies strictly before it. */
  function Expired(timeouts: map<Token, int>, now: int): set<Token>
  {
    set t | t in timeouts && timeouts[t] < now
  }

  /** The table a sweep at `now` leaves behind. */
  function Remaining(timeouts: map<Token, int>, now: int): map<Token, int>
  {
    map t | t in timeouts && now <= timeouts[t] :: timeouts[t]
  }

  /**
    A sweep splits the table: every token either expires or stays with its
    deadline, never both; and a second sweep at the same time finds nothing.
   */
  lemma SweepPartitions(timeouts: map<Token, int>, now: int)
    ensures Expired(timeouts, now) + Remaining(timeouts, now).Keys == timeouts.Keys
    ensures Expired(timeouts, now) !! Remaining(timeouts, now).Keys
    ensures Expired(Remaining(timeouts, now), now) == {}
  {
  }

  /** A token armed at `now` with `seconds` of timeout expires exactly at sweeps after `now + seconds`. */
  lemma ArmedExpiresAfterDeadline(timeouts: map<Token, int>, token: Token, now: int, seconds: int, later: int)
    ensures token in Expired(timeouts[token := now + seconds], later) <==> now + seconds < later
  {
  }
  /**
    The loop of `check_timeouts` over the table and the callback table:
    every expired token is deleted from the table, and its callback, when
    one is registered, is deleted and fired. `firedNow` lists the fired
    tokens in the order the loop visits them.
   */
  method Expire(timeouts: map<Token, int>, callbacks: set<Token>, now: int)
    returns (left: map<Token, int>, waiting: set<Token>, firedNow: seq<Token>)
    ensures left == Remaining(timeouts, now)
    ensures waiting == callbacks - Expired(timeouts, now)
    ensures forall t :: t in firedNow <==> t in Expired(timeouts, now) && t in callbacks
    ensures forall i, j :: 0 <= i < j < |firedNow| ==> firedNow[i] != firedNow[j]
  {
    left, waiting, firedNow := timeouts, callbacks, [];
    var toVisit := timeouts.Keys;
    while toVisit != {}
      invariant toVisit <= timeouts.Keys
      invariant forall t :: t in left <==> t in timeouts && (t in toVisit || now <= timeouts[t])
      invariant forall t :: t in left ==> left[t] == timeouts[t]
      invariant waiting == callbacks - (Expired(timeouts, now) - toVisit)
      invariant forall t :: t in firedNow <==> t in Expired(timeouts, now) - toVisit && t in callbacks
      invariant forall i, j :: 0 <= i < j < |firedNow| ==> firedNow[i] != firedNow[j]
      decreases toVisit
    {
      var tok :| tok in toVisit;
      if now > left[tok] {
        left := left - {tok};
        if tok in waiting {
          waiting := waiting - {tok};
          firedNow := firedNow + [tok];
        }
      }
      toVisit := toVisit - {tok};
    }
  }
}
