/**
  The Mapper: the coordinator's registry of workers, its selection and
  routing of requests, and its pending-timeout table.

  Time is the integer `now` each operation receives; tokens come from the
  caller (standing for `Nanite.gensym`); a `send_request` deferred with
  `EM.next_tick` is appended to `pending`; a Pong or Advertise published on a
  worker's queue is appended to `outbox`; a callback called with `nil` is
  recorded by appending its token to `fired`.
 */
module Nanite {
  import opened Wrappers
  import opened Types
  import opened Registry
  import opened Selection
  import opened Timeouts

  /** The identities of the selected pairs, `targets.map { |t| t.first }`. */
  function Names(targets: seq<Entry>): (ws: seq<Identity>)
    ensures |ws| == |targets|
  {
    seq(|targets|, i requires 0 <= i < |targets| => targets[i].name)
  }

  /** One deferred `send_request(req, w)` per worker, in order. */
  function SendsTo(req: RequestPacket, ws: seq<Identity>): (s: seq<Send>)
    ensures |s| == |ws|
  {
    seq(|ws|, i requires 0 <= i < |ws| => Send(req, ws[i]))
  }

  /** The `workers` hash of a routed answer: every selected identity is `:waiting`. */
  function WaitingFor(ws: seq<Identity>): map<Identity, WorkerState>
  {
    map w | w in ws :: Waiting
  }

  /** The round-robin cursor for `res`; `@last[res] ||= 0` makes an absent one 0. */
  function Cursor(last: map<Service, nat>, res: Service): nat
  {
    if res in last then last[res] else 0
  }

  /** The cursor map after a selection by `selector`: only `rr` touches it. */
  function CursorsAfter(selector: Selector, last: map<Service, nat>, res: Service, c: seq<Entry>): map<Service, nat>
  {
    if selector == Rr then last[res := RrAdvance(c, Cursor(last, res))] else last
  }

  /**
    The selector `push` dispatches on, as written: its default options apply
    only when no options hash is passed at all. A hash without `:selector`
    gives `nil`, and `__send__(nil, ...)` raises; `None` stands for that raise.
   */
  function PushSelectorAsWritten(opts: Option<Options>): Option<Selector>
  {
    match opts
    case None => Some(LeastLoaded)
    case Some(o) => o.selector
  }

  /** The selector `push` evidently intends: `:least_loaded` unless the options name one, as in `request`. */
  function PushSelector(opts: Option<Options>): (s: Selector)
    ensures PushSelectorAsWritten(opts).Some? ==> s == PushSelectorAsWritten(opts).value
    ensures opts.Some? ==> s == RequestSelector(opts.value)
  {
    match opts
    case None => LeastLoaded
    case Some(o) => RequestSelector(o)
  }

  /** `push` with an empty options hash, as `Agent#push` passes by default, raises where `request` would use `:least_loaded`. */
  lemma PushWithEmptyOptionsRaises()
    ensures PushSelectorAsWritten(Some(Options(None, None, None))) == None
    ensures RequestSelector(Options(None, None, None)) == LeastLoaded
    ensures PushSelector(Some(Options(None, None, None))) == LeastLoaded
  {
  }

  /**
    The loop of `check_pings` over the registry `nanites` with key order
    `names`: enumerate the keys in order and delete each stale worker as it is
    visited.
   */
  method Sweep(names: seq<Identity>, nanites: map<Identity, NaniteState>, now: int, pingTime: int)
    returns (live: map<Identity, NaniteState>, liveOrder: seq<Identity>)
    requires Ordered(names, nanites)
    ensures live == Survivors(nanites, now, pingTime)
    ensures liveOrder == SurvivorOrder(names, nanites, now, pingTime)
    ensures Ordered(liveOrder, live)
  {
    live, liveOrder := nanites, names;
    var kept := 0;
    var i := 0;
    SweepStart(names, nanites, now, pingTime);
    while i < |names|
      invariant Swept(names, nanites, live, liveOrder, i, kept, now, pingTime)
      decreases |names| - i
    {
      var name := names[i];
      SweepStep(names, nanites, live, liveOrder, i, kept, now, pingTime);
      if now - live[name].timestamp > pingTime + 1 {
        live := live - {name};
        liveOrder := liveOrder[..kept] + liveOrder[kept + 1..];
      } else {
        kept := kept + 1;
      }
      i := i + 1;
    }
    SweepDone(names, nanites, live, liveOrder, kept, now, pingTime);
  }

  class Mapper {
    /** `agent.identity`: the `from` and `reply_to` of every request. */
    const identity: Identity
    /** `agent.ping_time`, the heartbeat period in seconds. */
    const pingTime: int

    /** `@nanites`, with `order` its keys in iteration order. */
    var nanites: map<Identity, NaniteState>
    var order: seq<Identity>
    /** `@last`: the round-robin cursor per service. */
    var last: map<Service, nat>
    /** `@timeouts`: the deadline per outstanding token. */
    var timeouts: map<Token, int>
    /** The tokens that have a callback block registered. */
    var callbacks: set<Token>
    /** The tokens whose callback has been called with `nil`, in call order. */
    var fired: seq<Token>
    /** Request sends deferred to the next reactor tick. */
    var pending: seq<Send>
    /** Pong and Advertise replies published to workers. */
    var outbox: seq<Publish>
    /** Every token handed out so far. */
    ghost var issued: set<Token>

    ghost predicate Valid()
      reads this
    {
      RegistryValid() && TokensValid()
    }

    /** `order` lists the keys of `nanites`, each once. */
    ghost predicate RegistryValid()
      reads this`nanites, this`order
    {
      Ordered(order, nanites)
    }

    /** Tokens are never reused, and a callback that has fired is gone, so none fires twice. */
    ghost predicate TokensValid()
      reads this`timeouts, this`callbacks, this`fired, this`issued
    {
      && timeouts.Keys <= issued
      && callbacks <= issued
      && (forall i :: 0 <= i < |fired| ==> fired[i] in issued && fired[i] !in callbacks)
      && (forall i, j :: 0 <= i < j < |fired| ==> fired[i] != fired[j])
    }

    constructor (identity: Identity, pingTime: int)
      ensures Valid()
      ensures this.identity == identity && this.pingTime == pingTime
      ensures nanites == map[] && order == [] && last == map[] && timeouts == map[]
      ensures callbacks == {} && fired == [] && pending == [] && outbox == []
      ensures issued == {}
    {
      this.identity := identity;
      this.pingTime := pingTime;
      nanites, order, last, timeouts := map[], [], map[], map[];
      callbacks, fired, pending, outbox := {}, [], [], [];
      issued := {};
    }

    /** The candidates for service `res` in the current registry. */
    function CandidatesFor(res: Service): seq<Entry>
      reads this
      requires Valid()
    {
      Candidates(order, nanites, res)
    }

    /** `select_nanites`: the pairs the block accepts, in iteration order; the registry is only read. */
    method SelectNanites(p: (Identity, NaniteState) -> bool) returns (names: seq<Entry>)
      requires Valid()
      ensures names == Filter(Entries(order, nanites), p)
    {
      ghost var es := Entries(order, nanites);
      names := [];
      var i := 0;
      while i < |order|
        invariant 0 <= i <= |order|
        invariant names == Filter(es[..i], p)
      {
        var name := order[i];
        var state := nanites[name];
        assert es[..i + 1][..i] == es[..i] && es[i] == Entry(name, state);
        if p(name, state) {
          names := names + [Entry(name, state)];
        }
        i := i + 1;
      }
      assert es[..i] == es;
    }

    /** `rr`: serve the candidate at the clamped cursor for `res` and move the cursor past it. */
    method RoundRobin(res: Service) returns (targets: seq<Entry>)
      requires Valid()
      modifies this`last
      ensures targets == PickRr(CandidatesFor(res), Cursor(old(last), res))
      ensures last == CursorsAfter(Rr, old(last), res, CandidatesFor(res))
    {
      var cursor := Cursor(last, res);
      var candidates := SelectNanites(Offers(res));
      if candidates == [] {
        last := last[res := cursor];
        return [];
      }
      if cursor >= |candidates| {
        cursor := 0;
      }
      targets := [candidates[cursor]];
      last := last[res := cursor + 1];
    }

    /** `__send__(selector, res)`: run one policy over the candidates for `res`. */
    method Select(selector: Selector, res: Service) returns (targets: seq<Entry>)
      requires Valid()
      modifies this`last
      ensures Chosen(selector, CandidatesFor(res), Cursor(old(last), res), targets)
      ensures last == CursorsAfter(selector, old(last), res, CandidatesFor(res))
    {
      match selector
      case LeastLoaded =>
        var candidates := SelectNanites(Offers(res));
        targets := PickLeastLoaded(candidates);
      case All =>
        targets := SelectNanites(Offers(res));
      case Random =>
        var candidates := SelectNanites(Offers(res));
        if candidates == [] {
          targets := [];
        } else {
          var k :| 0 <= k < |candidates|;
          targets := PickRandom(candidates, k);
        }
      case Rr =>
        targets := RoundRobin(res);
    }

    /**
      `route`: select targets for `req.kind`; with none, no answer. Otherwise
      an answer whose workers are the selected identities, all waiting, and
      one deferred send of `req` per selected worker.
     */
    method Route(req: RequestPacket, selector: Selector) returns (answer: Option<Answer>, ghost targets: seq<Entry>)
      requires Valid()
      modifies this`last, this`pending
      ensures Chosen(selector, CandidatesFor(req.kind), Cursor(old(last), req.kind), targets)
      ensures last == CursorsAfter(selector, old(last), req.kind, CandidatesFor(req.kind))
      ensures answer.None? <==> targets == []
      ensures answer.Some? ==> answer.value == Answer(req.token, WaitingOn(WaitingFor(Names(targets))))
      ensures pending == old(pending) + SendsTo(req, Names(targets))
    {
      var selected := Select(selector, req.kind);
      targets := selected;
      if selected != [] {
        var workers := Names(selected);
        answer := Some(Answer(req.token, WaitingOn(WaitingFor(workers))));
        pending := pending + SendsTo(req, workers);
      } else {
        answer := None;
      }
    }

    /**
      `route_specific`: an answer for a known `target`, whatever services it
      lists, with one deferred send to it; no answer for an unknown one.
     */
    method RouteSpecific(req: RequestPacket, target: Identity) returns (answer: Option<Answer>)
      requires Valid()
      modifies this`pending
      ensures answer.None? <==> target !in nanites
      ensures answer.Some? ==> answer.value == Answer(req.token, TargetList([target]))
      ensures pending == if target in nanites then old(pending) + [Send(req, target)] else old(pending)
    {
      if target in nanites {
        answer := Some(Answer(req.token, TargetList([target])));
        pending := pending + [Send(req, target)];
      } else {
        answer := None;
      }
    }

    /**
      `request`: route a request expecting a reply (to `target` if given,
      else by the selector, `:least_loaded` by default). With no route the
      result is `false` (`None`) and neither the timeouts nor the callbacks
      change; otherwise the result is the token, the callback is registered if
      a block was given, and a deadline `now + timeout` is armed unless the
      `:timeout` option is `nil`/`false` (60 by default).
     */
    method Request(kind: Service, payload: Payload, opts: Options, hasCallback: bool, token: Token, now: int)
      returns (result: Option<Token>, ghost targets: seq<Entry>)
      requires Valid()
      requires token !in issued
      modifies this`last, this`pending, this`timeouts, this`callbacks, this`issued
      ensures Valid()
      ensures var req := RequestPacket(kind, payload, identity, token, Some(identity));
              pending == old(pending) + SendsTo(req, Names(targets))
      ensures opts.target.Some? ==>
                && targets == (if opts.target.value in nanites then [Entry(opts.target.value, nanites[opts.target.value])] else [])
                && last == old(last)
      ensures opts.target.None? ==>
                && Chosen(RequestSelector(opts), CandidatesFor(kind), Cursor(old(last), kind), targets)
                && last == CursorsAfter(RequestSelector(opts), old(last), kind, CandidatesFor(kind))
      ensures result.None? <==> targets == []
      ensures result.None? ==> timeouts == old(timeouts) && callbacks == old(callbacks)
      ensures result.Some? ==> result.value == token
      ensures issued == old(issued) + {token}
      ensures result.Some? ==> callbacks == if hasCallback then old(callbacks) + {token} else old(callbacks)
      ensures result.Some? ==> timeouts == match RequestTimeout(opts)
                                          case None => old(timeouts)
                                          case Some(seconds) => old(timeouts)[token := now + seconds]
    {
      var req := RequestPacket(kind, payload, identity, token, Some(identity));
      issued := issued + {token};
      assert forall i :: 0 <= i < |fired| ==> fired[i] != token;
      var answer: Option<Answer>;
      if opts.target.Some? {
        var target := opts.target.value;
        answer := RouteSpecific(req, target);
        targets := if target in nanites then [Entry(target, nanites[target])] else [];
        assert target in nanites ==> SendsTo(req, Names(targets)) == [Send(req, target)];
      } else {
        answer, targets := Route(req, RequestSelector(opts));
      }
      if answer.None? {
        return None, targets;
      }
      Watch(answer.value.token, hasCallback, RequestTimeout(opts), now);
      result := Some(answer.value.token);
    }

    /**
      The bookkeeping of a routed `request`: register the callback block, if
      any, under the fresh token, and arm its deadline unless the timeout is off.
     */
    method Watch(token: Token, hasCallback: bool, timeout: Option<int>, now: int)
      requires TokensValid()
      requires token in issued && forall i :: 0 <= i < |fired| ==> fired[i] != token
      modifies this`timeouts, this`callbacks
      ensures TokensValid()
      ensures callbacks == if hasCallback then old(callbacks) + {token} else old(callbacks)
      ensures timeouts == match timeout
                          case None => old(timeouts)
                          case Some(seconds) => old(timeouts)[token := now + seconds]
    {
      if hasCallback {
        callbacks := callbacks + {token};
      }
      match timeout {
        case None =>
        case Some(seconds) =>
          timeouts := timeouts[token := now + seconds];
      }
    }

    /**
      `push`: route a request that expects no reply. It never arms a timeout
      or registers a callback, and reports whether any worker was selected.
     */
    method Push(kind: Service, payload: Payload, opts: Option<Options>, token: Token)
      returns (ok: bool, ghost targets: seq<Entry>)
      requires Valid()
      requires token !in issued
      modifies this`last, this`pending, this`issued
      ensures Valid()
      ensures issued == old(issued) + {token}
      ensures Chosen(PushSelector(opts), CandidatesFor(kind), Cursor(old(last), kind), targets)
      ensures last == CursorsAfter(PushSelector(opts), old(last), kind, CandidatesFor(kind))
      ensures ok <==> CandidatesFor(kind) != []
      ensures pending == old(pending) + SendsTo(RequestPacket(kind, payload, identity, token, None), Names(targets))
      ensures timeouts == old(timeouts) && callbacks == old(callbacks)
    {
      var req := RequestPacket(kind, payload, identity, token, None);
      issued := issued + {token};
      var answer;
      answer, targets := Route(req, PushSelector(opts));
      ChosenFromCandidates(PushSelector(opts), CandidatesFor(kind), Cursor(old(last), kind), targets);
      ok := answer.Some?;
    }

    /**
      `handle_ping`: a heartbeat from a known worker refreshes its timestamp
      and status only and is answered with Pong; one from an unknown worker
      leaves the registry alone and is answered with Advertise.
     */
    method HandlePing(ping: Ping, now: int)
      requires Valid()
      modifies this`nanites, this`outbox
      ensures Valid()
      ensures ping.from in old(nanites) ==>
                && nanites == old(nanites)[ping.from := old(nanites)[ping.from].(timestamp := now, status := ping.status)]
                && outbox == old(outbox) + [Publish(ping.identity, Pong)]
      ensures ping.from !in old(nanites) ==>
                nanites == old(nanites) && outbox == old(outbox) + [Publish(ping.identity, Advertise)]
    {
      if ping.from in nanites {
        var nanite := nanites[ping.from];
        nanites := nanites[ping.from := nanite.(timestamp := now, status := ping.status)];
        outbox := outbox + [Publish(ping.identity, Pong)];
      } else {
        outbox := outbox + [Publish(ping.identity, Advertise)];
      }
    }

    /**
      `register`: the worker's entry now holds the announced services and
      status, last seen `now`; every other entry is untouched. A new identity
      is enumerated last, a known one keeps its place.
     */
    method Register(reg: Registration, now: int)
      requires Valid()
      modifies this`nanites, this`order
      ensures Valid()
      ensures nanites == old(nanites)[reg.identity := NaniteState(now, reg.services, reg.status)]
      ensures order == Inserted(old(order), old(nanites), reg.identity)
    {
      InsertKeepsOrdered(order, nanites, reg.identity, NaniteState(now, reg.services, reg.status));
      if reg.identity !in nanites {
        order := order + [reg.identity];
      }
      nanites := nanites[reg.identity := NaniteState(now, reg.services, reg.status)];
    }

    /**
      `check_pings`: delete, while enumerating, every worker last seen more
      than `ping_time + 1` seconds before `now`; the others stay, unchanged
      and in order.
     */
    method CheckPings(now: int)
      requires Valid()
      modifies this`nanites, this`order
      ensures Valid()
      ensures nanites == Survivors(old(nanites), now, pingTime)
      ensures order == SurvivorOrder(old(order), old(nanites), now, pingTime)
    {
      nanites, order := Sweep(order, nanites, now, pingTime);
    }

    /**
      `check_timeouts`: remove every token whose deadline is strictly before
      `now`, keep the others, and call each removed token's callback, if it
      still has one, exactly once with `nil` (unregistering it).
     */
    method CheckTimeouts(now: int)
      requires Valid()
      modifies this`timeouts, this`callbacks, this`fired
      ensures Valid()
      ensures timeouts == Remaining(old(timeouts), now)
      ensures callbacks == old(callbacks) - Expired(old(timeouts), now)
      ensures |fired| >= |old(fired)| && fired[..|old(fired)|] == old(fired)
      ensures forall t :: t in fired[|old(fired)|..] <==> t in Expired(old(timeouts), now) && t in old(callbacks)
    {
      var newly;
      timeouts, callbacks, newly := Expire(timeouts, callbacks, now);
      fired := fired + newly;
      assert fired[|old(fired)|..] == newly;
    }
  }
}
