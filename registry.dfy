/**
  The worker registry `@nanites` as pure values. Since Ruby 1.9 hashes
  enumerate in insertion order, so the registry is a map together with `order`, the list of
  its keys in the order `each` visits them.
 */
module Registry {
  import opened Types

  /** No identity occurs twice in `ids`. */
  ghost predicate DistinctIds(ids: seq<Identity>) {
    forall i, j :: 0 <= i < j < |ids| ==> ids[i] != ids[j]
  }

  /** `order` lists every key of `nanites` exactly once. */
  ghost predicate Ordered(order: seq<Identity>, nanites: map<Identity, NaniteState>) {
    && DistinctIds(order)
    && (forall id :: id in nanites <==> id in order)
  }

  /** The `[name, state]` pairs in the order `@nanites.each` yields them. */
  function Entries(order: seq<Identity>, nanites: map<Identity, NaniteState>): (es: seq<Entry>)
    requires forall i :: 0 <= i < |order| ==> order[i] in nanites
  {
    seq(|order|, i requires 0 <= i < |order| => Entry(order[i], nanites[order[i]]))
  }

  /** The pairs of `s` that satisfy the block `p`, in the order of `s`. */
  function Filter(s: seq<Entry>, p: (Identity, NaniteState) -> bool): seq<Entry>
  {
    if s == [] then []
    else
      var e := s[|s| - 1];
      Filter(s[..|s| - 1], p) + (if p(e.name, e.state) then [e] else [])
  }

  /** The block `{ |n, r| r[:services].include?(res) }` every selector filters with. */
  function Offers(res: Service): (Identity, NaniteState) -> bool
  {
    (name: Identity, state: NaniteState) => res in state.services
  }

  /** The candidates every selector starts from. */
  function Candidates(order: seq<Identity>, nanites: map<Identity, NaniteState>, res: Service): seq<Entry>
    requires forall i :: 0 <= i < |order| ==> order[i] in nanites
  {
    Filter(Entries(order, nanites), Offers(res))
  }

  /** No two entries of `s` carry the same identity. */
  ghost predicate DistinctNames(s: seq<Entry>) {
    forall i, j :: 0 <= i < j < |s| ==> s[i].name != s[j].name
  }

  /** Filtering keeps exactly the pairs that satisfy the block. */
  lemma {:induction false} FilterMembers(s: seq<Entry>, p: (Identity, NaniteState) -> bool, e: Entry)
    ensures e in Filter(s, p) <==> e in s && p(e.name, e.state)
  {
    if s != [] {
      var init := s[..|s| - 1];
      FilterMembers(init, p, e);
      assert s == init + [s[|s| - 1]];
    }
  }

  /** Filtering distributes over concatenation, so it keeps the order of its input. */
  lemma {:induction false} FilterAppend(a: seq<Entry>, b: seq<Entry>, p: (Identity, NaniteState) -> bool)
    ensures Filter(a + b, p) == Filter(a, p) + Filter(b, p)
    decreases |b|
  {
    if b == [] {
      assert a + b == a;
    } else {
      var init := b[..|b| - 1];
      assert (a + b)[..|a + b| - 1] == a + init;
      FilterAppend(a, init, p);
    }
  }

  /** Filtering never produces two pairs for the same identity if its input had none. */
  lemma {:induction false} FilterDistinct(s: seq<Entry>, p: (Identity, NaniteState) -> bool)
    requires DistinctNames(s)
    ensures DistinctNames(Filter(s, p))
  {
    if s != [] {
      var init := s[..|s| - 1];
      var e := s[|s| - 1];
      FilterDistinct(init, p);
      forall x | x in Filter(init, p) ensures x.name != e.name {
        FilterMembers(init, p, x);
      }
    }
  }

  /**
    The candidates for `res` are exactly the registered workers that list
    `res` among their services, each with its current state, each once.
   */
  lemma CandidatesExact(order: seq<Identity>, nanites: map<Identity, NaniteState>, res: Service, e: Entry)
    requires Ordered(order, nanites)
    ensures e in Candidates(order, nanites, res) <==>
              e.name in nanites && e.state == nanites[e.name] && res in e.state.services
    ensures DistinctNames(Candidates(order, nanites, res))
  {
    var es := Entries(order, nanites);
    FilterMembers(es, Offers(res), e);
    FilterDistinct(es, Offers(res));
    if e.name in nanites && e.state == nanites[e.name] {
      var i :| 0 <= i < |order| && order[i] == e.name;
      assert es[i] == e;
    }
  }

  /** There is no candidate exactly when no registered worker offers `res`. */
  lemma CandidatesEmpty(order: seq<Identity>, nanites: map<Identity, NaniteState>, res: Service)
    requires Ordered(order, nanites)
    ensures Candidates(order, nanites, res) == [] <==>
              forall id :: id in nanites ==> res !in nanites[id].services
  {
    var c := Candidates(order, nanites, res);
    if c != [] {
      CandidatesExact(order, nanites, res, c[0]);
    }
    forall id | id in nanites && res in nanites[id].services ensures c != [] {
      CandidatesExact(order, nanites, res, Entry(id, nanites[id]));
    }
  }

  /** A worker survives `check_pings` while its last-seen age is at most `ping_time + 1`. */
  predicate Alive(state: NaniteState, now: int, pingTime: int) {
    now - state.timestamp <= pingTime + 1
  }

  /** The registry `check_pings` leaves behind. */
  function Survivors(nanites: map<Identity, NaniteState>, now: int, pingTime: int): map<Identity, NaniteState>
  {
    map id | id in nanites && Alive(nanites[id], now, pingTime) :: nanites[id]
  }

  /** The identities among the first `n` of `order` whose worker is still alive, in order. */
  function KeptPrefix(order: seq<Identity>, n: nat, nanites: map<Identity, NaniteState>, now: int, pingTime: int): seq<Identity>
    requires n <= |order|
    requires forall i :: 0 <= i < |order| ==> order[i] in nanites
  {
    if n == 0 then []
    else
      KeptPrefix(order, n - 1, nanites, now, pingTime) +
        (if Alive(nanites[order[n - 1]], now, pingTime) then [order[n - 1]] else [])
  }

  /** The key order `check_pings` leaves behind: the live identities of `order`, in order. */
  function SurvivorOrder(order: seq<Identity>, nanites: map<Identity, NaniteState>, now: int, pingTime: int): seq<Identity>
    requires forall i :: 0 <= i < |order| ==> order[i] in nanites
  {
    KeptPrefix(order, |order|, nanites, now, pingTime)
  }

  lemma {:induction false} KeptPrefixMembers(order: seq<Identity>, n: nat, nanites: map<Identity, NaniteState>, now: int, pingTime: int, id: Identity)
    requires n <= |order|
    requires forall i :: 0 <= i < |order| ==> order[i] in nanites
    ensures id in KeptPrefix(order, n, nanites, now, pingTime) <==>
              exists j :: 0 <= j < n && order[j] == id && Alive(nanites[id], now, pingTime)
  {
    if n > 0 {
      KeptPrefixMembers(order, n - 1, nanites, now, pingTime, id);
    }
  }

  lemma {:induction false} KeptPrefixDistinct(order: seq<Identity>, n: nat, nanites: map<Identity, NaniteState>, now: int, pingTime: int)
    requires n <= |order|
    requires forall i :: 0 <= i < |order| ==> order[i] in nanites
    requires DistinctIds(order)
    ensures DistinctIds(KeptPrefix(order, n, nanites, now, pingTime))
  {
    if n > 0 {
      var last := order[n - 1];
      KeptPrefixDistinct(order, n - 1, nanites, now, pingTime);
      var a := KeptPrefix(order, n - 1, nanites, now, pingTime);
      forall x | x in a ensures x != last {
        KeptPrefixMembers(order, n - 1, nanites, now, pingTime, x);
      }
      var r := KeptPrefix(order, n, nanites, now, pingTime);
      forall i, j | 0 <= i < j < |r| ensures r[i] != r[j] {
        assert r[i] == a[i];
        if j == |a| {
          assert r[j] == last && a[i] in a;
        } else {
          assert r[j] == a[j];
        }
      }
    }
  }

  /**
    The sweep keeps the registry well formed: what survives is listed in
    order, once each, and holds exactly the live workers, unchanged.
   */
  lemma SweepKeepsOrdered(order: seq<Identity>, nanites: map<Identity, NaniteState>, now: int, pingTime: int)
    requires Ordered(order, nanites)
    ensures Ordered(SurvivorOrder(order, nanites, now, pingTime), Survivors(nanites, now, pingTime))
  {
    KeptPrefixDistinct(order, |order|, nanites, now, pingTime);
    forall id ensures id in Survivors(nanites, now, pingTime) <==> id in SurvivorOrder(order, nanites, now, pingTime) {
      KeptPrefixMembers(order, |order|, nanites, now, pingTime, id);
    }
  }

  /**
    The order half of the state of `check_pings` after visiting the first `i`
    names of the original key list `names` over the original registry `m`:
    `ord` lists the visited survivors (`kept` of them) followed by the
    unvisited names.
   */
  ghost predicate SweptOrder(names: seq<Identity>, m: map<Identity, NaniteState>,
                             ord: seq<Identity>, i: nat, kept: nat, now: int, pingTime: int)
  {
    && i <= |names|
    && (forall j :: 0 <= j < |names| ==> names[j] in m)
    && kept == |KeptPrefix(names, i, m, now, pingTime)|
    && ord == KeptPrefix(names, i, m, now, pingTime) + names[i..]
  }

  /**
    The registry half of the same state: `r` holds the unvisited workers and
    the visited live ones, unchanged.
   */
  ghost predicate SweptMap(names: seq<Identity>, m: map<Identity, NaniteState>, r: map<Identity, NaniteState>,
                           i: nat, now: int, pingTime: int)
  {
    && (forall j :: 0 <= j < |names| ==> names[j] in m)
    && (forall j :: 0 <= j < |names| ==> (names[j] in r <==> i <= j || Alive(m[names[j]], now, pingTime)))
    && (forall id :: id in r ==> id in m && r[id] == m[id])
  }

  ghost predicate Swept(names: seq<Identity>, m: map<Identity, NaniteState>, r: map<Identity, NaniteState>,
                        ord: seq<Identity>, i: nat, kept: nat, now: int, pingTime: int)
  {
    && Ordered(names, m)
    && SweptOrder(names, m, ord, i, kept, now, pingTime)
    && SweptMap(names, m, r, i, now, pingTime)
  }

  lemma SweepStart(names: seq<Identity>, m: map<Identity, NaniteState>, now: int, pingTime: int)
    requires Ordered(names, m)
    ensures Swept(names, m, m, names, 0, 0, now, pingTime)
  {
    assert names[0..] == names;
  }

  /**
    One step of `check_pings`: the visited worker is still registered with its
    original state at position `kept`; deleting it if stale, or passing over
    it if alive, advances the sweep.
   */
  lemma SweepStep(names: seq<Identity>, m: map<Identity, NaniteState>, r: map<Identity, NaniteState>,
                  ord: seq<Identity>, i: nat, kept: nat, now: int, pingTime: int)
    requires Swept(names, m, r, ord, i, kept, now, pingTime) && i < |names|
    ensures names[i] in r && r[names[i]] == m[names[i]]
    ensures kept < |ord|
    ensures !Alive(m[names[i]], now, pingTime) ==>
              Swept(names, m, r - {names[i]}, ord[..kept] + ord[kept + 1..], i + 1, kept, now, pingTime)
    ensures Alive(m[names[i]], now, pingTime) ==>
              Swept(names, m, r, ord, i + 1, kept + 1, now, pingTime)
  {
    if Alive(m[names[i]], now, pingTime) {
      OrderKeep(names, m, ord, i, kept, now, pingTime);
    } else {
      OrderDrop(names, m, ord, i, kept, now, pingTime);
      MapDrop(names, m, r, i, now, pingTime);
    }
  }

  /** Passing over a live worker: its name joins the visited survivors. */
  lemma OrderKeep(names: seq<Identity>, m: map<Identity, NaniteState>,
                  ord: seq<Identity>, i: nat, kept: nat, now: int, pingTime: int)
    requires SweptOrder(names, m, ord, i, kept, now, pingTime) && i < |names|
    requires Alive(m[names[i]], now, pingTime)
    ensures kept < |ord|
    ensures SweptOrder(names, m, ord, i + 1, kept + 1, now, pingTime)
  {
    assert names[i..] == [names[i]] + names[i + 1..];
  }

  /** Deleting a stale worker: its name, at position `kept`, leaves the order. */
  lemma OrderDrop(names: seq<Identity>, m: map<Identity, NaniteState>,
                  ord: seq<Identity>, i: nat, kept: nat, now: int, pingTime: int)
    requires SweptOrder(names, m, ord, i, kept, now, pingTime) && i < |names|
    requires !Alive(m[names[i]], now, pingTime)
    ensures kept < |ord|
    ensures SweptOrder(names, m, ord[..kept] + ord[kept + 1..], i + 1, kept, now, pingTime)
  {
    var prefix := KeptPrefix(names, i, m, now, pingTime);
    assert names[i..] == [names[i]] + names[i + 1..];
    assert ord == prefix + [names[i]] + names[i + 1..];
    assert ord[..kept] == prefix;
    assert ord[kept + 1..] == names[i + 1..];
  }

  /** Deleting a stale worker: only its own key leaves the registry. */
  lemma MapDrop(names: seq<Identity>, m: map<Identity, NaniteState>, r: map<Identity, NaniteState>,
                i: nat, now: int, pingTime: int)
    requires DistinctIds(names)
    requires SweptMap(names, m, r, i, now, pingTime) && i < |names|
    requires !Alive(m[names[i]], now, pingTime)
    ensures SweptMap(names, m, r - {names[i]}, i + 1, now, pingTime)
  {
    var name := names[i];
    var r' := r - {name};
    forall j | 0 <= j < |names| ensures names[j] in r' <==> i + 1 <= j || Alive(m[names[j]], now, pingTime) {
      if j != i {
        assert names[j] != name;
      }
    }
  }

  /** A finished sweep leaves exactly the survivors, in order. */
  lemma SweepDone(names: seq<Identity>, m: map<Identity, NaniteState>, r: map<Identity, NaniteState>,
                  ord: seq<Identity>, kept: nat, now: int, pingTime: int)
    requires Swept(names, m, r, ord, |names|, kept, now, pingTime)
    ensures r == Survivors(m, now, pingTime)
    ensures ord == SurvivorOrder(names, m, now, pingTime)
    ensures Ordered(ord, r)
  {
    forall id | id in m ensures id in r <==> Alive(m[id], now, pingTime) {
      var j :| 0 <= j < |names| && names[j] == id;
    }
    SweepKeepsOrdered(names, m, now, pingTime);
  }

  /** The key order after `@nanites[id] = state`: a new key goes last, an old one keeps its place. */
  function Inserted(order: seq<Identity>, nanites: map<Identity, NaniteState>, id: Identity): seq<Identity>
  {
    if id in nanites then order else order + [id]
  }

  lemma InsertKeepsOrdered(order: seq<Identity>, nanites: map<Identity, NaniteState>, id: Identity, state: NaniteState)
    requires Ordered(order, nanites)
    ensures Ordered(Inserted(order, nanites, id), nanites[id := state])
  {
  }
}
