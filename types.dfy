/** Option values, standing for Ruby's `nil` versus a present value. */
module Wrappers {
  datatype Option<+T> = None | Some(value: T) {
    function GetOr(default: T): T {
      match this
      case Some(v) => v
      case None => default
    }
  }
}

/**
  The values the Mapper works with: worker records, inbound heartbeat and
  registration packets, outbound requests and messages, answers, and the
  options of `request` and `push`.
 */
module Types {
  import opened Wrappers

  type Identity = string
  type Service = string
  type Token = string
  type Payload = string

  /** The state hash a worker's identity maps to in `@nanites`. */
  datatype NaniteState = NaniteState(timestamp: int, services: seq<Service>, status: int)

  /** One `[name, state]` pair as `select_nanites` yields it. */
  datatype Entry = Entry(name: Identity, state: NaniteState)

  /** A registration packet from the registration fanout. */
  datatype Registration = Registration(identity: Identity, services: seq<Service>, status: int)

  /** A heartbeat packet: the registry is keyed by `from`, the reply goes to `identity`'s queue. */
  datatype Ping = Ping(from: Identity, identity: Identity, status: int)

  /** An outbound request; `replyTo` is `None` for a push. */
  datatype RequestPacket = RequestPacket(kind: Service, payload: Payload, from: Identity, token: Token, replyTo: Option<Identity>)

  /** The per-worker state of an answer: always `:waiting` when created. */
  datatype WorkerState = Waiting

  /**
    What an answer's `workers` holds: `route` builds a hash from identity to
    `:waiting`, `route_specific` an array holding the one target.
   */
  datatype Workers = WaitingOn(states: map<Identity, WorkerState>) | TargetList(ids: seq<Identity>)

  datatype Answer = Answer(token: Token, workers: Workers)

  /** A `send_request` deferred to the next reactor tick. */
  datatype Send = Send(req: RequestPacket, target: Identity)

  /** The replies to a heartbeat, published on the sender's queue. */
  datatype Reply = Pong | Advertise

  datatype Publish = Publish(queue: Identity, reply: Reply)

  /** The four selection policies, the symbols `__send__` dispatches on. */
  datatype Selector = LeastLoaded | All | Random | Rr

  /** The value of the `:timeout` option: `nil`/`false`, or a number of seconds. */
  datatype TimeoutOption = Off | After(seconds: int)

  /** An options hash; `None` in a field means the key is absent. */
  datatype Options = Options(selector: Option<Selector>, timeout: Option<TimeoutOption>, target: Option<Identity>)

  const DefaultTimeout: int := 60

  /** The selector `request` uses after merging its defaults. */
  function RequestSelector(opts: Options): (s: Selector)
    ensures opts.selector.Some? ==> s == opts.selector.value
    ensures opts.selector.None? ==> s == LeastLoaded
  {
    opts.selector.GetOr(LeastLoaded)
  }

  /** The timeout `request` arms after merging its defaults; `None` arms nothing. */
  function RequestTimeout(opts: Options): (t: Option<int>)
    ensures t.None? <==> opts.timeout == Some(Off)
    ensures opts.timeout.None? ==> t == Some(DefaultTimeout)
    ensures forall n :: opts.timeout == Some(After(n)) ==> t == Some(n)
  {
    match opts.timeout.GetOr(After(DefaultTimeout))
    case Off => None
    case After(n) => Some(n)
  }
}
