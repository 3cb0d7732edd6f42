/**
The consent protocol as a state machine over a table of live tickets.
The table is a map from ticket identifier to transaction; `ConsentController`
shows that the service's fixed array of slots behaves exactly like this map.
*/
module ConsentModel {
  import opened Base

  const MAX_PENDING: nat := 32
  const MAX_TIMEOUT_NS: u64 := 120_000_000_000

  datatype Instance = Instance(endpoint: u64, process: u64, thread: u64, revision: u64, digest: Digest) {
    predicate Valid() { endpoint != 0 && process != 0 && thread != 0 }
  }

  datatype Session = Session(id: u64, generation: u64)

  datatype Presenter = Presenter(instance: Instance, registration: u64)

  datatype InputRoute = InputRoute(source: Instance, seat: u64, generation: u64)

  datatype Action = Launch | ProcessGrant | Operation

  datatype Choice = Deny | AllowOnce | AllowForProcess | AllowPersistently

  datatype Binding = Binding(
    requester: Instance,
    session: Session,
    policyGeneration: u64,
    sourceDigest: Digest,
    preparedDigest: Digest,
    requirementsDigest: Digest,
    action: Action)

  datatype Ticket = Ticket(id: u64, challenge: Bytes32)

  datatype Correlation = Correlation(ticket: Ticket, display: u64)

  /** Fresh observations; a missing observation stays missing. */
  datatype Current = Current(
    requester: Option<Instance>,
    presenter: Option<Presenter>,
    input: Option<InputRoute>,
    session: Option<Session>,
    policyGeneration: u64,
    foreground: bool)

  datatype Offer = Offer(correlation: Correlation, deadline: u64, choices: set<Choice>)

  datatype Transition = AllReleased | PhysicalPress | Repeat | Synthetic | Release

  datatype Feedback = Presented | Dismissed | Decision(choice: Choice, gesture: u64)

  datatype Approval = Approval(binding: Binding, choice: Choice, correlation: Correlation)

  datatype Outcome = StillPending | Denied(binding: Binding) | Approved(approval: Approval)

  datatype Error =
    | Invalid | Full | Busy | Exhausted | ClockWentBack | Unknown | WrongPeer | WrongDisplay
    | InvalidState | StaleInput | MissingPresence | UnofferedChoice | Expired | Changed

  datatype Presence = Presence(serial: u64, released: bool, gesture: Option<u64>)

  datatype Stage = Offered | Shown | Armed(presence: Presence)

  datatype Pending = Pending(
    offer: Offer,
    binding: Binding,
    presenter: Presenter,
    input: InputRoute,
    stage: Stage)
  {
    predicate Matches(current: Current) {
      && current.requester == Some(binding.requester)
      && current.presenter == Some(presenter)
      && current.input == Some(input)
      && current.session == Some(binding.session)
      && current.policyGeneration == binding.policyGeneration
      && current.foreground
    }

    function Id(): u64 { offer.correlation.ticket.id }
  }

  datatype State = State(live: map<u64, Pending>, nextId: Option<u64>, lastNow: u64)

  const INITIAL: State := State(map[], Some(1), 0)

  /** Every transition of the machine, with the observations it receives as arguments. */
  datatype Event =
    | Begin(binding: Binding, presenter: Presenter, input: InputRoute, choices: set<Choice>,
            now: u64, timeout: u64, challenge: Bytes32)
    | BeginAt(correlation: Correlation, binding: Binding, presenter: Presenter, input: InputRoute,
              choices: set<Choice>, now: u64, timeout: u64)
    | SendFeedback(peer: Instance, correlation: Correlation, feedback: Feedback, current: Current, now: u64)
    | Propose(peer: Instance, correlation: Correlation, choice: Choice, current: Current, now: u64)
    | Arm(peer: Instance, correlation: Correlation, route: InputRoute, serial: u64, allReleased: bool, now: u64)
    | Input(peer: Instance, correlation: Correlation, route: InputRoute, serial: u64, transition: Transition, now: u64)
    | Cancel(peer: Instance, correlation: Correlation)
    | Expire(now: u64)
    | Observe(seen: u64 -> Current)
    | Time(now: u64)

  datatype Response =
    | Failed(error: Error)
    | Issued(offer: Offer)
    | Resolved(outcome: Outcome)
    | Done
    | Cancelled(binding: Binding)
    | Swept(gone: set<u64>)

  /** One table entry leaves. */
  function Drop(s: State, id: u64): State {
    s.(live := s.live - {id})
  }

  function Update(s: State, id: u64, p: Pending): State {
    s.(live := s.live[id := p])
  }

  /** The argument checks of `begin`, before any table lookup. */
  predicate WellFormed(binding: Binding, presenter: Presenter, input: InputRoute, choices: set<Choice>,
                       timeout: u64, challenge: Bytes32)
  {
    && binding.requester.Valid()
    && presenter.instance.Valid()
    && input.source.Valid()
    && input.source.process != presenter.instance.process
    && presenter.registration != 0
    && input.generation != 0
    && binding.session.id != 0
    && binding.session.generation != 0
    && binding.policyGeneration != 0
    && timeout != 0
    && timeout <= MAX_TIMEOUT_NS
    && !AllZero(challenge)
    && !(binding.action == ProcessGrant && AllowOnce in choices)
    && !(binding.action != ProcessGrant && AllowForProcess in choices)
  }

  /** Some live transaction already uses this renderer endpoint or this challenge. */
  ghost predicate Overlaps(s: State, endpoint: u64, challenge: Bytes32) {
    exists id :: id in s.live
      && (s.live[id].presenter.instance.endpoint == endpoint
          || s.live[id].offer.correlation.ticket.challenge == challenge)
  }

  ghost predicate ChallengeInUse(s: State, challenge: Bytes32) {
    exists id :: id in s.live && s.live[id].offer.correlation.ticket.challenge == challenge
  }

  ghost function DoBegin(s: State, binding: Binding, presenter: Presenter, input: InputRoute, choices: set<Choice>,
                         now: u64, timeout: u64, challenge: Bytes32): (State, Response)
  {
    if now < s.lastNow then (s, Failed(ClockWentBack)) else
    var s1 := s.(lastNow := now);
    if !WellFormed(binding, presenter, input, choices, timeout, challenge) then (s1, Failed(Invalid)) else
    if now + timeout >= U64_LIMIT then (s1, Failed(Exhausted)) else
    if Overlaps(s, presenter.instance.endpoint, challenge) then (s1, Failed(Busy)) else
    if |s.live| >= MAX_PENDING then (s1, Failed(Full)) else
    if s.nextId.None? then (s1, Failed(Exhausted)) else
    var id := s.nextId.value;
    var offer := Offer(Correlation(Ticket(id, challenge), id), now + timeout, choices);
    (State(s.live[id := Pending(offer, binding, presenter, input, Offered)], CheckedAdd(id, 1), now),
     Issued(offer))
  }

  ghost function NextCorrelation(s: State, challenge: Bytes32): (r: Result<Correlation, Error>) {
    if AllZero(challenge) then Err(Invalid)
    else if ChallengeInUse(s, challenge) then Err(Busy)
    else if s.nextId.None? then Err(Exhausted)
    else Ok(Correlation(Ticket(s.nextId.value, challenge), s.nextId.value))
  }

  ghost function DoBeginAt(s: State, correlation: Correlation, binding: Binding, presenter: Presenter,
                           input: InputRoute, choices: set<Choice>, now: u64, timeout: u64): (State, Response)
  {
    match NextCorrelation(s, correlation.ticket.challenge)
    case Err(e) => (s, Failed(e))
    case Ok(c) =>
      if c != correlation then (s, Failed(Changed))
      else DoBegin(s, binding, presenter, input, choices, now, timeout, correlation.ticket.challenge)
  }

  /** An open ticket has this number and this challenge. */
  predicate Challenged(s: State, c: Correlation) {
    c.ticket.id in s.live && s.live[c.ticket.id].offer.correlation.ticket.challenge == c.ticket.challenge
  }

  function Locate(s: State, c: Correlation): (r: Result<u64, Error>)
    ensures r.Ok? ==> r.value in s.live && r.value == c.ticket.id
    ensures r.Ok? <==> Challenged(s, c) && s.live[c.ticket.id].offer.correlation.display == c.display
    ensures r.Err? ==> r.error == if Challenged(s, c) then WrongDisplay else Unknown
  {
    var id := c.ticket.id;
    if id !in s.live || s.live[id].offer.correlation.ticket.challenge != c.ticket.challenge then Err(Unknown)
    else if s.live[id].offer.correlation.display != c.display then Err(WrongDisplay)
    else Ok(id)
  }

  /** Clock, lookup and deadline: the common entry of every message about a ticket. */
  function Enter(s: State, c: Correlation, now: u64): (r: (State, Result<Pending, Error>))
    ensures r.1.Ok? ==> c.ticket.id in r.0.live && r.0.live[c.ticket.id] == r.1.value
                        && r.0 == s.(lastNow := now) && now < r.1.value.offer.deadline
    ensures now < s.lastNow ==> r == (s, Err(ClockWentBack))
    ensures now >= s.lastNow && r.1.Err? ==>
      && (r.1.error == Expired <==> Locate(s, c).Ok? && now >= s.live[c.ticket.id].offer.deadline)
      && r.0 == (if r.1.error == Expired then Drop(s, c.ticket.id) else s).(lastNow := now)
  {
    if now < s.lastNow then (s, Err(ClockWentBack)) else
    var s1 := s.(lastNow := now);
    match Locate(s, c)
    case Err(e) => (s1, Err(e))
    case Ok(id) =>
      if now >= s.live[id].offer.deadline then (Drop(s1, id), Err(Expired)) else (s1, Ok(s.live[id]))
  }

  function DoFeedback(s: State, peer: Instance, c: Correlation, feedback: Feedback, current: Current, now: u64)
    : (State, Response)
  {
    var (s1, found) := Enter(s, c, now);
    if found.Err? then (s1, Failed(found.error)) else
    var id, p := c.ticket.id, found.value;
    if peer != p.presenter.instance then (s1, Failed(WrongPeer)) else
    if !p.Matches(current) then (Drop(s1, id), Failed(Changed)) else
    match feedback
    case Presented =>
      if p.stage != Offered then (s1, Failed(InvalidState))
      else (Update(s1, id, p.(stage := Shown)), Resolved(StillPending))
    case Dismissed => (Drop(s1, id), Resolved(Denied(p.binding)))
    case Decision(choice, gesture) =>
      if choice == Deny && gesture == 0 then (Drop(s1, id), Resolved(Denied(p.binding))) else
      if choice == Deny || choice !in p.offer.choices then (s1, Failed(UnofferedChoice)) else
      if !p.stage.Armed? then (s1, Failed(MissingPresence)) else
      if gesture == 0 || p.stage.presence.gesture != Some(gesture) then (s1, Failed(MissingPresence)) else
      (Drop(s1, id), Resolved(Approved(Approval(p.binding, choice, p.offer.correlation))))
  }

  function DoPropose(s: State, peer: Instance, c: Correlation, choice: Choice, current: Current, now: u64)
    : (State, Response)
  {
    var (s1, found) := Enter(s, c, now);
    if found.Err? then (s1, Failed(found.error)) else
    var p := found.value;
    if peer != p.presenter.instance then (s1, Failed(WrongPeer)) else
    if !p.Matches(current) then (Drop(s1, c.ticket.id), Failed(Changed)) else
    if choice == Deny then DoFeedback(s1, peer, c, Decision(Deny, 0), current, now) else
    if !p.stage.Armed? || p.stage.presence.gesture.None? then (s1, Failed(MissingPresence)) else
    DoFeedback(s1, peer, c, Decision(choice, p.stage.presence.gesture.value), current, now)
  }

  function DoArm(s: State, peer: Instance, c: Correlation, route: InputRoute, serial: u64, allReleased: bool, now: u64)
    : (State, Response)
  {
    var (s1, found) := Enter(s, c, now);
    if found.Err? then (s1, Failed(found.error)) else
    var p := found.value;
    if peer != p.input.source || route != p.input then (s1, Failed(WrongPeer)) else
    if p.stage != Shown then (s1, Failed(InvalidState)) else
    (Update(s1, c.ticket.id, p.(stage := Armed(Presence(serial, allReleased, None)))), Done)
  }

  function Observed(presence: Presence, serial: u64, transition: Transition): Presence {
    var seen := presence.(serial := serial);
    match transition
    case AllReleased => seen.(released := true)
    case PhysicalPress =>
      if seen.released then seen.(gesture := Some(serial), released := false) else seen
    case _ => seen
  }

  function DoInput(s: State, peer: Instance, c: Correlation, route: InputRoute, serial: u64,
                   transition: Transition, now: u64): (State, Response)
  {
    var (s1, found) := Enter(s, c, now);
    if found.Err? then (s1, Failed(found.error)) else
    var p := found.value;
    if peer != p.input.source || route != p.input then (s1, Failed(WrongPeer)) else
    if !p.stage.Armed? then (s1, Failed(InvalidState)) else
    if serial <= p.stage.presence.serial then (s1, Failed(StaleInput)) else
    (Update(s1, c.ticket.id, p.(stage := Armed(Observed(p.stage.presence, serial, transition)))), Done)
  }

  function DoCancel(s: State, peer: Instance, c: Correlation): (State, Response) {
    match Locate(s, c)
    case Err(e) => (s, Failed(e))
    case Ok(id) =>
      var p := s.live[id];
      if peer != p.binding.requester && peer != p.presenter.instance && peer != p.input.source
      then (s, Failed(WrongPeer))
      else (Drop(s, id), Cancelled(p.binding))
  }

  function ExpiredIds(s: State, now: u64): set<u64> {
    set id | id in s.live && now >= s.live[id].offer.deadline
  }

  ghost function ChangedIds(s: State, seen: u64 -> Current): set<u64> {
    set id | id in s.live && !s.live[id].Matches(seen(id))
  }

  function DoExpire(s: State, now: u64): (State, Response) {
    if now < s.lastNow then (s, Failed(ClockWentBack))
    else (State(s.live - ExpiredIds(s, now), s.nextId, now), Swept(ExpiredIds(s, now)))
  }

  ghost function DoObserve(s: State, seen: u64 -> Current): (State, Response) {
    (s.(live := s.live - ChangedIds(s, seen)), Swept(ChangedIds(s, seen)))
  }

  function DoTime(s: State, now: u64): (State, Response) {
    if now < s.lastNow then (s, Failed(ClockWentBack)) else (s.(lastNow := now), Done)
  }

  ghost function Step(s: State, e: Event): (State, Response) {
    match e
    case Begin(b, p, i, ch, now, timeout, challenge) => DoBegin(s, b, p, i, ch, now, timeout, challenge)
    case BeginAt(c, b, p, i, ch, now, timeout) => DoBeginAt(s, c, b, p, i, ch, now, timeout)
    case SendFeedback(peer, c, f, current, now) => DoFeedback(s, peer, c, f, current, now)
    case Propose(peer, c, choice, current, now) => DoPropose(s, peer, c, choice, current, now)
    case Arm(peer, c, route, serial, released, now) => DoArm(s, peer, c, route, serial, released, now)
    case Input(peer, c, route, serial, transition, now) => DoInput(s, peer, c, route, serial, transition, now)
    case Cancel(peer, c) => DoCancel(s, peer, c)
    case Expire(now) => DoExpire(s, now)
    case Observe(seen) => DoObserve(s, seen)
    case Time(now) => DoTime(s, now)
  }
}
