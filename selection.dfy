/**
  The selection policies over a candidate list (the pairs `select_nanites`
  returned for one service). `least_loaded`, `all` and `random` are queries;
  the round-robin cursor arithmetic of `rr` is here, its cursor map lives in
  the Mapper.
 */
module Selection {
  import opened Types

  /**
    The position `candidates.min { |a, b| a[1][:status] <=> b[1][:status] }`
    picks: Ruby's `min` replaces its running minimum only on a strictly
    smaller element, so the first of several equal minima wins.
   */
  function FirstMin(c: seq<Entry>): (k: nat)
    requires c != []
    ensures k < |c|
    ensures forall j :: 0 <= j < |c| ==> c[k].state.status <= c[j].state.status
    ensures forall j :: 0 <= j < k ==> c[j].state.status > c[k].state.status
  {
    if |c| == 1 then 0
    else
      var k := FirstMin(c[..|c| - 1]);
      if c[|c| - 1].state.status < c[k].state.status then |c| - 1 else k
  }

  /** `least_loaded`: the one candidate of minimum status, first among equals, or nothing. */
  function PickLeastLoaded(c: seq<Entry>): (r: seq<Entry>)
    ensures |r| <= 1
    ensures r == [] <==> c == []
    ensures r != [] ==> r[0] in c && forall e :: e in c ==> r[0].state.status <= e.state.status
  {
    if c == [] then [] else [c[FirstMin(c)]]
  }

  /** With loads 5, 2, 2, 9, `least_loaded` picks the first of the two workers of load 2. */
  lemma LeastLoadedTieExample(s: seq<Service>)
    ensures var c := [Entry("a", NaniteState(0, s, 5)), Entry("b", NaniteState(0, s, 2)),
                      Entry("c", NaniteState(0, s, 2)), Entry("d", NaniteState(0, s, 9))];
            PickLeastLoaded(c) == [c[1]]
  {
    var c := [Entry("a", NaniteState(0, s, 5)), Entry("b", NaniteState(0, s, 2)),
              Entry("c", NaniteState(0, s, 2)), Entry("d", NaniteState(0, s, 9))];
    var k := FirstMin(c);
    assert c[k].state.status <= c[1].state.status;
    assert k == 1;
  }

  /** `all`: every candidate, in order. */
  function PickAll(c: seq<Entry>): (r: seq<Entry>)
    ensures |r| == |c|
    ensures r == [] <==> c == []
    ensures forall e :: e in r <==> e in c
  {
    c
  }

  /** `random`: the candidate at the drawn position `k`, standing for `rand(candidates.size)`. */
  function PickRandom(c: seq<Entry>, k: nat): (r: seq<Entry>)
    requires c == [] || k < |c|
    ensures |r| <= 1
    ensures r == [] <==> c == []
    ensures r != [] ==> r[0] in c
  {
    if c == [] then [] else [c[k]]
  }

  /**
    The position `rr` serves from cursor `cursor` among `n` candidates: the
    cursor is reset to 0 once it reaches `n`, which also covers a list that
    shrank since the previous call.
   */
  function RrIndex(cursor: nat, n: nat): (i: nat)
    requires n > 0
    ensures i < n
    ensures cursor < n ==> i == cursor
    ensures cursor >= n ==> i == 0
  {
    if cursor >= n then 0 else cursor
  }

  /** `rr` from cursor `cursor`: the candidate at the clamped cursor, or nothing. */
  function PickRr(c: seq<Entry>, cursor: nat): (r: seq<Entry>)
    ensures |r| <= 1
    ensures r == [] <==> c == []
    ensures r != [] ==> r[0] in c
    ensures cursor < |c| ==> r == [c[cursor]]
  {
    if c == [] then [] else [c[RrIndex(cursor, |c|)]]
  }

  /** The cursor `rr` leaves behind: one past the position served, unchanged when there was none. */
  function RrAdvance(c: seq<Entry>, cursor: nat): (next: nat)
    ensures c != [] ==> 1 <= next <= |c|
    ensures c != [] && cursor < |c| ==> next == cursor + 1
    ensures c == [] ==> next == cursor
    ensures c != [] ==> PickRr(c, cursor) == [c[next - 1]]
    ensures c != [] && cursor >= |c| ==> next == 1
  {
    if c == [] then cursor else RrIndex(cursor, |c|) + 1
  }

  /**
    The results a policy may produce from candidates `c` (with round-robin
    cursor `cursor`); `random` may produce the candidate at any position.
   */
  ghost predicate Chosen(selector: Selector, c: seq<Entry>, cursor: nat, targets: seq<Entry>) {
    match selector
    case LeastLoaded => targets == PickLeastLoaded(c)
    case All => targets == PickAll(c)
    case Random => (c == [] && targets == []) || exists k :: 0 <= k < |c| && targets == PickRandom(c, k)
    case Rr => targets == PickRr(c, cursor)
  }

  /**
    Whatever the policy, it selects only candidates,
    selects nothing exactly when there are no candidates, and selects a single
    worker unless it is `all`.
   */
  lemma ChosenFromCandidates(selector: Selector, c: seq<Entry>, cursor: nat, targets: seq<Entry>)
    requires Chosen(selector, c, cursor, targets)
    ensures forall e :: e in targets ==> e in c
    ensures targets == [] <==> c == []
    ensures selector != All ==> |targets| <= 1
    ensures selector == All ==> targets == c
  {
    if selector == Random && c != [] {
      var k :| 0 <= k < |c| && targets == PickRandom(c, k);
    }
  }

  /** The positions served by `calls` successive `rr` calls over a list of `n` candidates. */
  function RrRun(cursor: nat, n: nat, calls: nat): (r: seq<nat>)
    requires n > 0
    ensures |r| == calls
    decreases calls
  {
    if calls == 0 then []
    else
      var i := RrIndex(cursor, n);
      [i] + RrRun(i + 1, n, calls - 1)
  }

  /**
    With a stable candidate list, successive `rr` calls walk the list
    cyclically: each call serves the position after the previous one, and
    the position after the last is the first.
   */
  lemma {:induction false} RrNext(cursor: nat, n: nat, calls: nat, j: nat)
    requires n > 0 && j + 1 < calls
    ensures var r := RrRun(cursor, n, calls);
            r[j + 1] == if r[j] + 1 == n then 0 else r[j] + 1
    decreases calls
  {
    var i := RrIndex(cursor, n);
    if j > 0 {
      RrNext(i + 1, n, calls - 1, j - 1);
    }
  }

  /** Below the end of the list, the j-th call from cursor `cursor` serves position cursor + j. */
  lemma {:induction false} RrCountsUp(cursor: nat, n: nat, calls: nat, j: nat)
    requires j < calls && cursor + j < n
    ensures RrRun(cursor, n, calls)[j] == cursor + j
    decreases calls
  {
    if j > 0 {
      RrCountsUp(cursor + 1, n, calls - 1, j - 1);
    }
  }

  /** From a fresh cursor, n successive `rr` calls serve every candidate once, in list order. */
  lemma RrRoundFromZero(n: nat)
    requires n > 0
    ensures RrRun(0, n, n) == seq(n, j => j)
  {
    forall j | 0 <= j < n ensures RrRun(0, n, n)[j] == j {
      RrCountsUp(0, n, n, j);
    }
  }
}
