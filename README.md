# Nanite Mapper, modelled in Dafny

This project models the Mapper of Nanite (`Nanite::Mapper`, in
`lib/nanite/mapper.rb`). The Mapper is the coordinator's scheduler. It:

- keeps a registry of worker processes ("nanites"), built from registration
  and heartbeat messages;
- drops workers whose heartbeat is overdue;
- picks the worker or workers for each request with one of four policies
  (`least_loaded`, `all`, `random`, `rr`), or sends to a named target;
- defers the sends to the next reactor tick;
- hands out a correlation token per request and arms a deadline for it;
- calls a request's callback with `nil` once its deadline has passed.

The model is a Dafny class `Nanite.Mapper` whose fields are the Ruby
instance variables, and whose methods are the Ruby methods, with
specification functions and lemmas alongside:

- `types.dfy`: the packets, answers, options and registry records.
- `registry.dfy`: the registry as a map plus its key order (since Ruby 1.9 a
  Hash enumerates in insertion order), the candidate filter, and the
  stale-worker sweep.
- `selection.dfy`: the four selection policies and the round-robin cursor
  arithmetic.
- `timeouts.dfy`: the pending-timeout table and its sweep.
- `mapper.dfy`: the `Mapper` class, with `route`, `route_specific`,
  `request`, `push`, `handle_ping`, `register`, `check_pings` and
  `check_timeouts`.

The environment is made explicit:

- `Time.now` is an integer `now` passed to each operation.
- `Nanite.gensym` is a fresh token passed by the caller of `request` or
  `push`. Freshness is a precondition over the ghost set `issued`, which
  both operations extend.
- `rand(n)` is a nondeterministic choice of an index below `n`.
- `EM.next_tick { send_request(...) }` appends to the `pending` list.
- Publishing Pong or Advertise appends to `outbox`.
- Calling a callback with `nil` appends its token to `fired`.
- `__send__(selector, res)` is a `match` over the closed datatype
  `Selector`.

Where the code and its prose description differ, the model follows the code
(the one exception is the `push` crash under "## Findings"):

- `check_timeouts` fires a token only when `now > deadline` (strictly).
- A `:timeout` of 0 is truthy in Ruby, so it arms a deadline at `now`
  instead of disabling the timeout.
- `request` arms the deadline whether or not a callback block was given.
- A worker is stale when `now - timestamp > ping_time + 1`.
- The round-robin selector is the symbol `:rr`.
- `route_specific` sets the answer's `workers` to the array `[target]`,
  whereas `route` sets it to a hash from identity to `:waiting`.
  `Workers` keeps both shapes.

## Model

| member | source | states |
|---|---|---|
| Nanite.Mapper.constructor | lib/nanite/mapper.rb:52-59 | A new mapper has an empty registry, no cursors, an empty timeout table, no callbacks, sends or replies, and has issued no token. |
| Registry.FilterMembers | lib/nanite/mapper.rb:72-78 | A pair is selected if and only if it is in the registry and the block accepts it. |
| Registry.FilterAppend | lib/nanite/mapper.rb:72-78 | Selecting from two consecutive runs of the registry gives the selections of each run, in order. |
| Registry.FilterDistinct | lib/nanite/mapper.rb:72-78 | If the names are distinct, the selected names are distinct too. |
| Nanite.Mapper.SelectNanites | lib/nanite/mapper.rb:72-78 | The loop returns exactly the filter of the registry's pairs, in enumeration order, and leaves the registry unchanged. |
| Registry.CandidatesExact | lib/nanite/mapper.rb:156 | A pair is a candidate for a service if and only if it is a registered worker with its current state and it lists the service. Candidates are never duplicated. |
| Registry.CandidatesEmpty | lib/nanite/mapper.rb:157 | There are no candidates exactly when no registered worker offers the service. |
| Selection.FirstMin | lib/nanite/mapper.rb:159 | The chosen position has minimum status, and every earlier position has strictly greater status, so the first of equal minima wins. |
| Selection.PickLeastLoaded | lib/nanite/mapper.rb:155-160 | The result has at most one candidate. It is empty exactly when there are no candidates. Otherwise it is a candidate of minimum status. |
| Selection.LeastLoadedTieExample | lib/nanite/mapper.rb:159 | With loads 5, 2, 2, 9, `least_loaded` picks the second worker, the first one of load 2. |
| Selection.PickAll | lib/nanite/mapper.rb:162-164 | `all` returns every candidate, as many as there are, and nothing when there are none. |
| Selection.PickRandom | lib/nanite/mapper.rb:166-171 | The result has at most one candidate. It is empty exactly when there are no candidates. Any result is a candidate. |
| Selection.RrIndex | lib/nanite/mapper.rb:178-179 | The served position is always in range. It equals the cursor whenever the cursor is in range, and is 0 once the cursor has reached the candidate count. |
| Selection.PickRr | lib/nanite/mapper.rb:173-182 | The result has at most one candidate. It is empty exactly when there are no candidates. With an in-range cursor it is the candidate at the cursor. |
| Selection.RrAdvance | lib/nanite/mapper.rb:177-180 | After a pick, the cursor is one past the position `rr` served, even when the list has shrunk: a cursor that had to be reset serves position 0 and is left at 1. With no candidates the cursor is unchanged. |
| Selection.ChosenFromCandidates | lib/nanite/mapper.rb:155-182 | Every policy selects only candidates. It selects nothing exactly when there are none. It selects one worker, unless the policy is `all`, which selects every candidate. |
| Selection.RrNext | lib/nanite/mapper.rb:173-182 | With a stable candidate list, each call serves the position after the previous one, wrapping from the last position to the first. |
| Selection.RrCountsUp | lib/nanite/mapper.rb:173-182 | Call j from cursor c serves position c + j while that position is in range. |
| Selection.RrRoundFromZero | lib/nanite/mapper.rb:173-182 | From a fresh cursor, n calls over n candidates serve each candidate once, in list order. |
| Nanite.Mapper.RoundRobin | lib/nanite/mapper.rb:173-182 | Returns the candidate at the clamped cursor for the service, with an absent cursor read as 0. Only that service's cursor changes, and it moves one past the served position. |
| Nanite.Mapper.Select | lib/nanite/mapper.rb:212 | Dispatching on the selector gives a result that policy allows. Only `rr` changes a cursor. |
| Nanite.Mapper.Route | lib/nanite/mapper.rb:211-229 | With no targets there is no answer. Otherwise the answer carries the request's token and marks every selected identity `:waiting`. Exactly one deferred send per selected worker is queued, in order. |
| Nanite.Mapper.RouteSpecific | lib/nanite/mapper.rb:197-209 | An answer exists exactly when the target is registered, whatever services it offers. Its workers are `[target]`, and exactly one send to the target is queued. |
| Types.RequestSelector | lib/nanite/mapper.rb:81-82 | After merging the defaults, the selector is the one the options name, or `least_loaded` when they name none. |
| Types.RequestTimeout | lib/nanite/mapper.rb:95 | No deadline is armed exactly when the `:timeout` option is `nil`/`false`. An absent option arms 60 seconds; any number, 0 included, arms that many. |
| Nanite.Mapper.Request | lib/nanite/mapper.rb:80-97 | Routes to the target if one is given, else by the selector (`least_loaded` by default). With no route the result is `false` and no timeout or callback is registered. Otherwise the result is the fresh token, the callback is registered if a block was given, and the deadline `now + timeout` (60 by default) is armed unless the timeout is off. The token joins the issued tokens, so tokens stay unique and no fired callback is re-registered. |
| Nanite.Mapper.Watch | lib/nanite/mapper.rb:93-95 | Registers the block under the token, and arms the deadline unless the timeout is off. Nothing else changes, and token bookkeeping stays consistent. |
| Nanite.Mapper.Push | lib/nanite/mapper.rb:99-108 | Sends without a reply queue. The result is true exactly when the service has a candidate. Push never arms a timeout and never registers a callback. Its fresh token joins the issued tokens, as a request's does. |
| Nanite.PushSelectorAsWritten | lib/nanite/mapper.rb:99-103 | Models the code as written: the default `:least_loaded` applies only when no options hash is passed. A hash without `:selector` yields no selector. |
| Nanite.PushSelector | lib/nanite/mapper.rb:99-103 | Models the intended selector: it agrees with the as-written one wherever that one is defined, and with `request`'s defaulting for every options hash. |
| Nanite.PushWithEmptyOptionsRaises | lib/nanite/mapper.rb:99-103 | With an empty options hash, the as-written push has no selector, while `request` and the corrected push use `least_loaded`. |
| Nanite.Mapper.HandlePing | lib/nanite/mapper.rb:128-136 | A heartbeat from a known worker refreshes only its timestamp and status, and is answered with Pong on the sender's queue. One from an unknown worker leaves the registry unchanged and is answered with Advertise. |
| Nanite.Mapper.Register | lib/nanite/mapper.rb:148-153 | The worker's entry becomes exactly the announced services and status, last seen now. Every other entry is untouched. A new identity is enumerated last; a known one keeps its place. |
| Registry.InsertKeepsOrdered | lib/nanite/mapper.rb:149-151 | Assigning a key keeps the key order a duplicate-free listing of the registry. |
| Registry.KeptPrefixMembers | lib/nanite/mapper.rb:140-142 | An identity remains after sweeping a prefix of the key list if and only if it is in that prefix and its worker is alive. |
| Registry.KeptPrefixDistinct | lib/nanite/mapper.rb:140-142 | The kept identities are listed once each. |
| Registry.SweepKeepsOrdered | lib/nanite/mapper.rb:138-146 | The surviving order lists exactly the surviving workers, once each. |
| Registry.SweepStep | lib/nanite/mapper.rb:140-142 | Each visited worker is still registered with its original state. Deleting it, or passing over it, advances the sweep. |
| Registry.SweepDone | lib/nanite/mapper.rb:138-146 | A finished sweep leaves exactly the live workers, unchanged and in their original order. |
| Nanite.Sweep | lib/nanite/mapper.rb:138-146 | Deleting stale workers while enumerating leaves exactly those with `now - timestamp <= ping_time + 1`, unchanged and in their original order. |
| Nanite.Mapper.CheckPings | lib/nanite/mapper.rb:138-146 | The registry becomes exactly its live workers, in order, and stays well formed. |
| Timeouts.Expire | lib/nanite/mapper.rb:185-195 | Deletes every token whose deadline is strictly before now and keeps the others with their deadlines. Deletes the callbacks of the expired tokens, and fires exactly those expired tokens that had one, each once. |
| Timeouts.SweepPartitions | lib/nanite/mapper.rb:187-189 | Every token either expires or stays, never both. A second sweep at the same time expires nothing. |
| Timeouts.ArmedExpiresAfterDeadline | lib/nanite/mapper.rb:188 | A token armed at `now` with a timeout of n seconds expires at a sweep at time t exactly when t > now + n. |
| Nanite.Mapper.CheckTimeouts | lib/nanite/mapper.rb:185-195 | The timeout table becomes its unexpired entries and the expired callbacks are removed. The expired tokens that had a callback are appended to the fired log. No callback fires twice over the mapper's lifetime. |

## Left out

- The `Agent` delegation methods (`mapper`, `request`, `push`) only forward to the Mapper. They are not modelled.
- `start`, `setup_queues` and `amq`: queue setup, AMQP subscriptions and the periodic `EM` timer are not modelled. The sweeps are plain operations taking `now`.
- `send_request`, `dump_packet`/`load_packet` (marshalling) and publishing are not modelled. A send is recorded in `pending` and a publish in `outbox`.
- `agent.reducer.watch_for` and `handle_result`: the reducer is not part of this model, so disarming a token when its answer arrives is not modelled either.
- Logging is not modelled.
- `Time.now` is an integer `now`. The floating-point time of Ruby is not modelled.
- `rand` is a nondeterministic choice of a valid index. Its distribution is not modelled.
- `request` stores its callback in `agent.callbacks`, while `check_timeouts` deletes from `Nanite.callbacks`. The model treats them as the same table, the one `callbacks` field.
- `@timeouts` is `nil` until `start` runs. Before then, a `request` that finds a route and has a truthy `:timeout` raises at the deadline assignment, after it has stored the callback and scheduled the send. A request with no route returns `false` first, and one with `:timeout` `nil`/`false` skips the assignment. The model starts with an empty table, so that raise is not modelled.
- `@last` is created on the first `rr` call. The model starts with an empty cursor map, which reads the same.
- Nanite.Mapper.RoundRobin: `@last[res]` is written once per call. Ruby writes it up to three times (`||= 0`, the reset to 0, `+= 1`), and the final value is the same.
- The block passed to `select_nanites` is a pure predicate over a name and a state. A block with side effects is not modelled.
- The answer's `workers` hash is modelled as a map, so the order of its keys is not modelled.
- Nanite.Mapper.Push: routes on the corrected selector `PushSelector`. The raise that the code as written hits for an options hash without `:selector` is modelled only by `PushSelectorAsWritten` (see "## Findings").
- Timeouts.Expire: visits the tokens in an arbitrary order, so the order in which callbacks fire within one sweep is not modelled. Ruby fires them in the insertion order of `@timeouts`. The set of fired tokens is the same.
- A worker's status is an integer. The source compares whatever `ping.status` holds with `<=>`, and a `nil` or incomparable status makes `min` raise. That error path is not modelled.
- The registry's key order assumes Ruby 1.9 or later, where a Hash enumerates in insertion order. Under Ruby 1.8 the enumeration order, and so the tie-break of `least_loaded` and the order of `rr`, depends on hashing and is not modelled.

## Findings

| source | as written | input that shows it | evidently intended | confidence | as-written member | corrected member |
|---|---|---|---|---|---|---|
| lib/nanite/mapper.rb:99-103 | `push` defaults its options only when no hash is passed at all, then dispatches on `opts[:selector]` | `Agent#push(type, payload)` passes `{}`, so `__send__(nil, type)` raises | default the selector to `:least_loaded`, as `request` does by merging its defaults | high (not executed) | Nanite.PushSelectorAsWritten, Nanite.PushWithEmptyOptionsRaises | Nanite.PushSelector |
