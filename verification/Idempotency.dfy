/** The Idempotency-Key middleware as a step system: any number of requests, each
    at its own point between two awaits, share the table of keys with each other
    and with the collector of expired rows. */
module Idempotency {
  import opened Wrappers
  import opened IdempotencyTable

  type Bytes = seq<bv8>
  type Sha = Bytes -> string

  const MAX_BODY_BYTES: nat := 1024 * 1024
  const MAX_KEY_LENGTH: nat := 255
  const IN_FLIGHT_POLL_TIMEOUT: nat := 5000
  const FIRST_BACKOFF: nat := 10
  const MAX_BACKOFF: nat := 250
  const JSON: string := "application/json"

  // ------------------------------------------------------------------
  // Requests and responses
  // ------------------------------------------------------------------

  datatype Verb = GET | HEAD | OPTIONS | POST | PUT | PATCH | DELETE | Other(name: string)

  // `key` is the header as text, if there is one; `body` is what could be read.
  datatype Request = Request(verb: Verb, path: string, key: Option<string>, body: Option<Bytes>)

  type HttpStatus = n: nat | 100 <= n <= 999 witness 200

  // A body is UTF-8 text, or bytes whose lossy conversion is some other text.
  datatype Body = Utf8(text: string) | NotUtf8(raw: Bytes, lossy: string)

  // A handler's response; the body is absent if it cannot be buffered.
  datatype HandlerResponse = HandlerResponse(status: HttpStatus, contentType: Option<string>, body: Option<Body>)

  datatype Outcome =
    | Passed(response: HandlerResponse)                 // handler's response, no key involved
    | Fresh(response: HandlerResponse)                  // handler's response under a key
    | Replayed(status: HttpStatus, body: string, from: nat)
    | Mismatch                                          // 422
    | InFlight                                          // 409
    | InvalidKey                                        // 400
    | TooLarge                                          // 413
    | Internal                                          // 500
    | Aborted                                           // the client went away or the process died

  function VerbName(v: Verb): string {
    match v
    case GET => "GET" case HEAD => "HEAD" case OPTIONS => "OPTIONS" case POST => "POST"
    case PUT => "PUT" case PATCH => "PATCH" case DELETE => "DELETE" case Other(name) => name
  }

  predicate IsMutation(v: Verb) {
    v == POST || v == PUT || v == PATCH || v == DELETE
  }

  // A header that is text has visible ASCII, spaces and tabs only.
  predicate IsWhitespace(c: char) {
    c == ' ' || '\t' <= c <= '\r'
  }

  predicate ValidKey(key: string) {
    && 0 < |key| <= MAX_KEY_LENGTH
    && forall i :: 0 <= i < |key| ==> !IsWhitespace(key[i])
  }

  function BodyText(b: Body): string {
    match b case Utf8(text) => text case NotUtf8(_, lossy) => lossy
  }

  predicate IsJson(r: HandlerResponse) {
    r.contentType.Some? && JSON <= r.contentType.value
  }

  predicate Cacheable(r: HandlerResponse) {
    r.body.Some? && IsJson(r)
  }

  type JsonResponse = r: HandlerResponse | Cacheable(r) witness HandlerResponse(200, Some(JSON), Some(Utf8("")))

  function ToStored(r: JsonResponse): Stored {
    Stored(r.status, BodyText(r.body.value))
  }

  function StatusFrom(n: nat): HttpStatus {
    if 100 <= n <= 999 then n else 500
  }

  // ------------------------------------------------------------------
  // One request
  // ------------------------------------------------------------------

  datatype Job = Bypass | Rejected(why: Outcome) | Keyed(slot: Slot, hash: string)

  function Classify(sha: Sha, req: Request): Job {
    if !IsMutation(req.verb) || req.key.None? then Bypass
    else if !ValidKey(req.key.value) then Rejected(InvalidKey)
    else if req.body.None? || |req.body.value| > MAX_BODY_BYTES then Rejected(TooLarge)
    else Keyed(Slot(req.key.value, VerbName(req.verb) + " " + req.path), sha(req.body.value))
  }

  datatype Poll = Poll(started: nat, backoff: nat, wakeAt: nat, lookups: nat)

  datatype Pc =
    | Bypassing
    | BypassRunning
    | LookingUp(again: bool)
    | Inserting
    | Sleeping(poll: Poll)
    | Reserved(deadline: int)
    | Running(deadline: int)
    | Finalizing(deadline: int, response: JsonResponse)
    | Done(outcome: Outcome)

  datatype Proc = Proc(req: Request, job: Job, pc: Pc)

  // A found row that is not in flight answers its reader.
  function Answered(stored: StoredResponse, hash: string): Outcome {
    if stored.requestHash == hash then Replayed(StatusFrom(stored.status), stored.body, stored.owner)
    else Mismatch
  }

  function NextBackoff(backoff: nat): nat {
    if backoff * 2 <= MAX_BACKOFF then backoff * 2 else MAX_BACKOFF
  }

  // One turn of the poll loop: what the lookup found and the time since the loop
  // began settle the answer, or the loop goes on.
  function Settled(found: Result<Option<StoredResponse>, DbError>, hash: string, elapsed: int): Option<Outcome> {
    match found
    case Failure(_) => Some(Internal)
    case Success(None) => Some(InFlight)
    case Success(Some(stored)) =>
      if !stored.inFlight then Some(Answered(stored, hash))
      else if elapsed > IN_FLIGHT_POLL_TIMEOUT then Some(InFlight)
      else None
  }

  // ------------------------------------------------------------------
  // The shared state and its steps
  // ------------------------------------------------------------------

  // The history of the run, for stating its properties.
  datatype Event =
    | Inserted(who: nat, slot: Slot)
    | Started(who: nat, under: Option<Slot>)
    | Collected(slots: set<Slot>)

  datatype State = State(table: Table, procs: seq<Proc>, now: nat, log: seq<Event>)

  function Empty(): State {
    State(map[], [], 0, [])
  }

  // What the environment decides: whether a database call fails, what the handler
  // answers, when a request is abandoned.
  datatype Input = Go | DbFails | Reply(response: HandlerResponse) | Abort

  datatype Step =
    | Arrive(req: Request)
    | Tick(ms: nat)
    | Collect
    | Act(who: nat, input: Input)

  predicate Accepts(pc: Pc, input: Input, now: nat) {
    match pc
    case Done(_) => false
    case Bypassing => input.Go? || input.Abort?
    case BypassRunning => input.Reply? || input.Abort?
    case LookingUp(_) => !input.Reply?
    case Inserting => !input.Reply?
    case Sleeping(poll) => input.Abort? || (poll.wakeAt <= now && !input.Reply?)
    case Reserved(_) => input.Go? || input.Abort?
    case Running(_) => input.Reply? || input.Abort?
    case Finalizing(_, _) => !input.Reply?
  }

  predicate Enabled(s: State, step: Step) {
    step.Act? ==> step.who < |s.procs| && Accepts(s.procs[step.who].pc, step.input, s.now)
  }

  function Goto(s: State, who: nat, pc: Pc): State
    requires who < |s.procs|
  {
    s.(procs := s.procs[who := s.procs[who].(pc := pc)])
  }

  function Noted(s: State, event: Event): State {
    s.(log := s.log + [event])
  }

  function StartPolling(now: nat): Pc {
    Sleeping(Poll(now, FIRST_BACKOFF, now + FIRST_BACKOFF, 0))
  }

  // First lookup, and the one after a lost insert.
  function AfterLookup(s: State, slot: Slot, hash: string, again: bool): Pc {
    match Found(s.table, slot)
    case None => if again then Done(Internal) else Inserting
    case Some(stored) => if stored.inFlight then StartPolling(s.now) else Done(Answered(stored, hash))
  }

  function AfterPoll(s: State, slot: Slot, hash: string, poll: Poll): Pc {
    match Settled(Success(Found(s.table, slot)), hash, s.now - poll.started)
    case Some(outcome) => Done(outcome)
    case None =>
      var backoff := NextBackoff(poll.backoff);
      Sleeping(Poll(poll.started, backoff, s.now + backoff, poll.lookups + 1))
  }

  function ActKeyed(s: State, who: nat, input: Input, slot: Slot, hash: string): State
    requires who < |s.procs| && s.procs[who].job == Keyed(slot, hash)
  {
    match (s.procs[who].pc, input)
    case (LookingUp(again), Go) => Goto(s, who, AfterLookup(s, slot, hash, again))
    case (LookingUp(_), _) => Goto(s, who, Done(Internal))
    case (Inserting, Go) =>
      if slot in s.table then Goto(s, who, LookingUp(true))
      else
        var table := Reserve(s.table, slot, hash, DEFAULT_TTL_SECONDS, s.now, who);
        Goto(Noted(s.(table := table), Inserted(who, slot)), who, Reserved(table[slot].expiresAt))
    case (Inserting, _) => Goto(s, who, Done(Internal))
    case (Reserved(deadline), _) => Goto(Noted(s, Started(who, Some(slot))), who, Running(deadline))
    case (Running(deadline), Reply(r)) =>
      Goto(s, who, if Cacheable(r) then Finalizing(deadline, r) else Done(Fresh(r)))
    case (Finalizing(_, r), Go) =>
      Goto(s.(table := Complete(s.table, slot, ToStored(r))), who, Done(Fresh(r)))
    case (Finalizing(_, r), _) => Goto(s, who, Done(Fresh(r)))
    case (Sleeping(poll), Go) => Goto(s, who, AfterPoll(s, slot, hash, poll))
    case (Sleeping(_), _) => Goto(s, who, Done(Internal))
    case (_, _) => s
  }

  function ActOnce(s: State, who: nat, input: Input): State
    requires who < |s.procs|
  {
    if input.Abort? then Goto(s, who, Done(Aborted))
    else match s.procs[who].job
      case Keyed(slot, hash) => ActKeyed(s, who, input, slot, hash)
      case Rejected(why) => s
      case Bypass =>
        match (s.procs[who].pc, input)
        case (Bypassing, Go) => Goto(Noted(s, Started(who, None)), who, BypassRunning)
        case (BypassRunning, Reply(r)) => Goto(s, who, Done(Passed(r)))
        case (_, _) => s
  }

  function FirstPc(job: Job): Pc {
    match job
    case Bypass => Bypassing
    case Rejected(why) => Done(why)
    case Keyed(_, _) => LookingUp(false)
  }

  function Apply(sha: Sha, s: State, step: Step): State
    requires Enabled(s, step)
  {
    match step
    case Arrive(req) =>
      var job := Classify(sha, req);
      s.(procs := s.procs + [Proc(req, job, FirstPc(job))])
    case Tick(ms) => s.(now := s.now + ms)
    case Collect =>
      var gone := Expired(s.table, s.now);
      Noted(s.(table := s.table - gone), Collected(gone))
    case Act(who, input) => ActOnce(s, who, input)
  }

  ghost predicate Runs(sha: Sha, s: State, steps: seq<Step>)
    decreases steps
  {
    steps == [] || (Enabled(s, steps[0]) && Runs(sha, Apply(sha, s, steps[0]), steps[1..]))
  }

  ghost function After(sha: Sha, s: State, steps: seq<Step>): State
    requires Runs(sha, s, steps)
    decreases steps
  {
    if steps == [] then s else After(sha, Apply(sha, s, steps[0]), steps[1..])
  }
}
