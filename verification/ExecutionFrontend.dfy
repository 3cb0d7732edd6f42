/**
The presenter handoff that drives the registry of held calls and the consent
controller together. Answers of the kernel and of peers are parameters.
*/
module ExecutionFrontend {
  import opened Base
  import opened ConsentModel
  import opened ConsentRuns
  import opened ConsentController
  import opened ExecutionRequests
  import TextEvidence

  datatype Kind = Text | Graphical

  /** The outcome of a check that only passes or fails. */
  type Check = Option<SysError>

  datatype Active = Active(
    peer: Peer,
    requester: Instance,
    presenter: Presenter,
    route: InputRoute,
    offer: Offer,
    armed: bool,
    terminal: Option<u32>,
    text: TextEvidence.Flags)

  datatype TextWaiter = TextWaiter(peer: Peer, master: u32)

  /** Fresh observations of one active request. */
  datatype Witness = Witness(current: Current, requester: Peer)

  datatype FrontendAction = ShowedPrompt | DismissedPrompt | Decide(choice: Choice)

  const MAX_TEXT_WAITERS: nat := 16

  function Refused(): SysError { Native(AccessDenied) }

  function NotYet(): SysError { Native(NotReady) }

  // What the service knows about a launch before consent, and the answers used to begin it.

  datatype Launch = Launch(
    sourceLen: nat,
    digest: Digest,
    digestMatches: bool,
    keyValid: bool,
    requirements: Result<Digest, SysError>,
    uid: Result<u32, SysError>,
    remembered: Check)

  /** `Pending::new`: the held request, bound to its requester, session, policy and exact requirements. */
  function NewRequest(l: Launch, requester: Peer, session: Session, generation: u64, imageLimit: nat)
    : (r: Result<Request, SysError>)
    ensures r.Ok? ==> r.value.binding.requester == requester.instance && r.value.sourceLen == l.sourceLen
  {
    if l.sourceLen == 0 || l.sourceLen > imageLimit || !l.keyValid
       || !requester.instance.Valid() || requester.process == 0
       || session.id == 0 || session.generation == 0 || generation == 0
    then Err(Native(InvalidArgument))
    else if !l.digestMatches then Err(Native(AccessDenied))
    else if l.uid.Err? then Err(l.uid.error)
    else if l.remembered.Some? then Err(l.remembered.value)
    else if l.requirements.Err? then Err(l.requirements.error)
    else Ok(Request(l.sourceLen, requester,
                    Binding(requester.instance, session, generation, l.digest, l.digest, l.requirements.value,
                            ConsentModel.Launch),
                    l.uid.value))
  }

  /** What a launch must be for a request to be made of it, field by field. */
  predicate Launchable(l: Launch, requester: Peer, session: Session, generation: u64, imageLimit: nat) {
    && 0 < l.sourceLen <= imageLimit && l.keyValid && l.digestMatches
    && requester.instance.endpoint != 0 && requester.instance.process != 0 && requester.instance.thread != 0
    && requester.process != 0
    && session.id != 0 && session.generation != 0 && generation != 0
    && l.uid.Ok? && l.remembered.None? && l.requirements.Ok?
  }

  /** A request is made exactly of such a launch, and is bound to all of it. */
  lemma RequestIff(l: Launch, requester: Peer, session: Session, generation: u64, imageLimit: nat)
    ensures var r := NewRequest(l, requester, session, generation, imageLimit);
      && (r.Ok? <==> Launchable(l, requester, session, generation, imageLimit))
      && (r.Ok? ==>
            && r.value.requester == requester && r.value.binding.session == session
            && r.value.binding.policyGeneration == generation && r.value.binding.action == ConsentModel.Launch
            && r.value.binding.sourceDigest == r.value.binding.preparedDigest == l.digest
            && Ok(r.value.binding.requirementsDigest) == l.requirements && Ok(r.value.uid) == l.uid)
  {
  }

  datatype BeginAnswers = BeginAnswers(
    textMatches: nat -> Result<bool, SysError>,
    requesterKind: Result<Kind, SysError>,
    presenter: Check,
    current: Check,
    session: Result<Session, SysError>,
    route: Result<InputRoute, SysError>,
    challenge: Result<Bytes32, SysError>,
    register: Result<u64, SysError>)

  datatype CommandAnswers = CommandAnswers(
    current: Check,
    observe: Result<Witness, SysError>,
    textMatches: Result<bool, SysError>,
    arm: Result<(u64, bool), SysError>,
    synchronized: Check,
    completion: Completion)

  predicate AllEmpty(slots: Slots) {
    forall i :: 0 <= i < |slots| ==> slots[i].None?
  }

  /** Apart from slot `but`, the only occupied slots hold the presented call of the active frontend. */
  predicate OnlyActive(slots: Slots, active: Option<Active>, but: int) {
    forall i :: 0 <= i < |slots| && i != but && slots[i].Some? ==>
      && slots[i].value.Ready?
      && active.Some?
      && active.value.offer == slots[i].value.entry.offer
      && active.value.presenter == slots[i].value.entry.presenter
  }

  /** A successful answer is backed by an approval of that caller's own request in the consent history. */
  ghost predicate Backed(history: seq<Entry>, from: nat, r: Reply, generation: u64, a: CommandAnswers) {
    r.error.None? ==> exists k: nat :: from <= k && ApprovedUnder(history, k, r.target, generation, a)
  }

  /** The approval also passed the last checks: same session and policy, same live process, every grant stored. */
  predicate ApprovedUnder(history: seq<Entry>, k: nat, target: u64, generation: u64, a: CommandAnswers) {
    && ApprovedAt(history, k, target)
    && a.observe.Ok? && a.observe.value.current.session.Some?
    && Authorized(history[k].response.outcome.approval, a.observe.value.current.session.value, generation, a.completion)
  }

  /** The events one command of a presenter may put to the consent machine. */
  function Commands(peer: Peer, correlation: Correlation, action: FrontendAction, now: u64, a: CommandAnswers)
    : Event -> bool
  {
    (e: Event) =>
      match e
      case Cancel(_, _) => true
      case SendFeedback(from, c, feedback, current, at) =>
        && from == peer.instance && c == correlation && feedback == Presented && at == now
        && action.ShowedPrompt? && a.observe.Ok? && a.observe.value.current == current
      case Arm(_, c, _, serial, released, at) =>
        c == correlation && at == now && action.ShowedPrompt? && a.arm == Ok((serial, released))
      case Propose(from, c, choice, current, at) =>
        && from == peer.instance && c == correlation && at == now
        && action == FrontendAction.Decide(choice) && a.observe.Ok? && a.observe.value.current == current
      case Time(at) => at == now && action.Decide?
      case _ => false
  }

  /** Closing tickets, and the clock of a decision, are among them. */
  lemma CommandsMay(h: seq<Entry>, h': seq<Entry>, peer: Peer, correlation: Correlation, action: FrontendAction,
                    now: u64, a: CommandAnswers)
    requires Adds(h, h', Closes) || (Adds(h, h', Ticks(now)) && action.Decide?)
    ensures Adds(h, h', Commands(peer, correlation, action, now, a))
  {
  }

  lemma PromptIsCommand(h: seq<Entry>, x: Entry, peer: Peer, correlation: Correlation, now: u64, a: CommandAnswers)
    requires (a.observe.Ok? && x.event == SendFeedback(peer.instance, correlation, Presented, a.observe.value.current, now))
             || (x.event.Arm? && x.event.correlation == correlation && x.event.now == now
                 && a.arm == Ok((x.event.serial, x.event.allReleased)))
    ensures Adds(h, h + [x], Commands(peer, correlation, ShowedPrompt, now, a))
  {
    AddsOne(h, x, Commands(peer, correlation, ShowedPrompt, now, a));
  }

  lemma TextStarts(up: bool)
    ensures TextEvidence.Fresh(up) == TextEvidence.After(up, [], 0)
  {
  }

  lemma ProposeIsCommand(h: seq<Entry>, x: Entry, peer: Peer, correlation: Correlation, choice: Choice, now: u64,
                         a: CommandAnswers)
    requires a.observe.Ok? && x.event == Propose(peer.instance, correlation, choice, a.observe.value.current, now)
    ensures Adds(h, h + [x], Commands(peer, correlation, FrontendAction.Decide(choice), now, a))
  {
    AddsOne(h, x, Commands(peer, correlation, FrontendAction.Decide(choice), now, a));
  }

  /** The events one authorization may put to the consent machine: its own request, with what the kernel answered. */
  function Asks(launch: Launch, requester: Peer, generation: u64, now: u64, imageLimit: nat, a: BeginAnswers)
    : Event -> bool
  {
    (e: Event) =>
      match e
      case Cancel(_, _) => true
      case BeginAt(c, binding, presenter, input, choices, at, timeout) =>
        && a.session.Ok? && a.route == Ok(input) && at == now && timeout == MAX_TIMEOUT_NS && choices == EXECUTION_CHOICES
        && var request := NewRequest(launch, requester, a.session.value, generation, imageLimit);
        request.Ok? && request.value.binding == binding
      case _ => false
  }

  /** Who waits to show a prompt: a presenter of each kind, and the terminals in the order they came. */
  datatype Desk = Desk(idle: seq<Option<Peer>>, text: seq<TextWaiter>)

  /** The chosen source has someone waiting. */
  predicate Offers(d: Desk, from: Source, peer: Peer) {
    match from
    case Terminal(i) => i < |d.text| && d.text[i].peer == peer
    case Presenting(i) => i < |d.idle| && d.idle[i] == Some(peer)
  }

  /** The one terminal that matches the requester, or else the waiting presenter of its kind. */
  ghost predicate Chosen(a: BeginAnswers, d: Desk, peer: Peer) {
    exists from :: ChosenBy(a, |d.text|, from) && Offers(d, from, peer)
  }

  /** Every answer needed before a ticket is asked for is good. */
  predicate Cleared(a: BeginAnswers) {
    && a.presenter.None? && a.current.None? && a.session.Ok? && a.route.Ok? && a.register.Ok?
    && a.challenge.Ok? && !AllZero(a.challenge.value)
  }

  /** Someone can be asked about this launch. */
  ghost predicate Preparable(active: Option<Active>, d: Desk, s: State, launch: Launch, requester: Peer, generation: u64,
                             imageLimit: nat, a: BeginAnswers)
  {
    && active.None? && (exists peer :: Chosen(a, d, peer))
    && Cleared(a) && Launchable(launch, requester, a.session.value, generation, imageLimit)
    && s.nextId.Some? && !ChallengeInUse(s, a.challenge.value)
  }

  /** A presenter and an input route that a ticket can be bound to. */
  predicate Bindable(presenter: Instance, registration: u64, route: InputRoute) {
    && presenter.Valid() && registration != 0
    && route.source.Valid() && route.generation != 0 && route.source.process != presenter.process
  }

  /** A call that gets its prompt: someone can be asked, the call is its requester's own, and the ticket is in time. */
  ghost predicate Startable(active: Option<Active>, d: Desk, s: State, target: u64, launch: Launch, requester: Peer,
                            generation: u64, now: u64, imageLimit: nat, a: BeginAnswers)
  {
    && active.None? && target == requester.instance.endpoint
    && Cleared(a) && Launchable(launch, requester, a.session.value, generation, imageLimit)
    && (exists peer :: Chosen(a, d, peer) && Bindable(peer.instance, a.register.value, a.route.value))
    && s.nextId.Some? && s.lastNow <= now && now + MAX_TIMEOUT_NS < U64_LIMIT
  }

  /** With nothing held no ticket is open. */
  lemma NothingOpen(slots: Slots, s: State, index: nat)
    requires Linked(slots, s) && OnlyActive(slots, None, index)
    requires index < |slots| && slots[index].Some? && slots[index].value.Reserved?
    ensures s.live == map[]
  {
    assert forall i: nat, id :: !ReadyAt(slots, i, id);
  }

  /** Only one presenter or terminal can be chosen. */
  lemma ChosenOnce(a: BeginAnswers, d: Desk, from: Source, peer: Peer, other: Peer)
    requires ChosenBy(a, |d.text|, from) && Offers(d, from, peer) && Chosen(a, d, other)
    ensures other == peer
  {
    var from' :| ChosenBy(a, |d.text|, from') && Offers(d, from', other);
    if from.Terminal? { assert a.textMatches(from.index) == Ok(true); }
    if from'.Terminal? { assert a.textMatches(from'.index) == Ok(true); }
  }

  lemma StartNeeds(active: Option<Active>, d: Desk, s: State, slots: Slots, index: nat, launch: Launch, requester: Peer,
                   generation: u64, now: u64, imageLimit: nat, a: BeginAnswers)
    requires Linked(slots, s) && OnlyActive(slots, active, index)
    requires index < |slots| && slots[index].Some? && slots[index].value.Reserved?
    ensures Startable(active, d, s, slots[index].value.target, launch, requester, generation, now, imageLimit, a) ==>
      Preparable(active, d, s, launch, requester, generation, imageLimit, a)
  {
    hide Chosen, Linked, OnlyActive;
    if active.None? { NothingOpen(slots, s, index); }
  }

  /** A prepared call gets its ticket exactly when it is startable. */
  lemma StartableIff(d: Desk, s: State, slot: Slot, launch: Launch, requester: Peer, generation: u64, now: u64,
                     imageLimit: nat, a: BeginAnswers, p: Prepared)
    requires s.live == map[] && slot.Reserved? && slot.bytes == launch.sourceLen
    requires Preparable(None, d, s, launch, requester, generation, imageLimit, a)
    requires ChosenBy(a, |d.text|, p.from) && Offers(d, p.from, p.peer)
    requires a.route == Ok(p.route) && p.presenter == Presenter(p.peer.instance, a.register.value)
    requires NewRequest(launch, requester, a.session.value, generation, imageLimit) == Ok(p.request)
    requires NextCorrelation(s, a.challenge.value) == Ok(p.correlation)
    ensures Startable(None, d, s, slot.target, launch, requester, generation, now, imageLimit, a) <==>
      && slot == Reserved(p.request.binding.requester.endpoint, p.request.sourceLen)
      && Issuable(s, p.correlation, p.request.binding, p.presenter, p.route, now, MAX_TIMEOUT_NS)
  {
    hide ChosenBy, Offers, Chosen, NewRequest;
    RequestIff(launch, requester, a.session.value, generation, imageLimit);
    ChosenIs(a, d, p.from, p.peer);
    forall peer | Chosen(a, d, peer) ensures peer == p.peer { ChosenOnce(a, d, p.from, p.peer, peer); }
  }

  lemma ChosenIs(a: BeginAnswers, d: Desk, from: Source, peer: Peer)
    requires ChosenBy(a, |d.text|, from) && Offers(d, from, peer)
    ensures Chosen(a, d, peer)
  {
  }

  // How the waiting presenters and terminals change.

  /** Those that are gone are forgotten. */
  function Tended(d: Desk, current: Peer -> Check): Desk {
    Desk(seq(|d.idle|, i requires 0 <= i < |d.idle| => IfThere(d.idle[i], current)), StillThere(d.text, current))
  }

  function IfThere(waiter: Option<Peer>, current: Peer -> Check): Option<Peer> {
    if waiter.Some? && current(waiter.value).Some? then None else waiter
  }

  function StillThere(text: seq<TextWaiter>, current: Peer -> Check): (r: seq<TextWaiter>)
    ensures |r| <= |text| && forall w :: w in r ==> current(w.peer).None?
  {
    if text == [] then [] else
    var w := text[|text| - 1];
    StillThere(text[..|text| - 1], current) + if current(w.peer).None? then [w] else []
  }

  /** A graphical presenter is put down when none waits and it does not show the active request. */
  function Joined(d: Desk, active: Option<Active>, peer: Peer, presenter: Check, current: Check): Desk
    requires |d.idle| == 2
  {
    if presenter.None? && current.None? && d.idle[Index(Graphical)].None?
       && !(active.Some? && active.value.peer.instance.endpoint == peer.instance.endpoint)
    then d.(idle := d.idle[Index(Graphical) := Some(peer)]) else d
  }

  predicate Shows(active: Option<Active>, peer: Peer) {
    active.Some? && active.value.peer.instance == peer.instance && active.value.terminal.Some?
  }

  /** A terminal is put last, unless it already waits, shows the active request, or there are too many. */
  function Polled(d: Desk, active: Option<Active>, peer: Peer, master: u32, presenter: Check, current: Check,
                  provider: Check): Desk
  {
    if presenter.None? && current.None? && provider.None? && !Shows(active, peer) && |d.text| != MAX_TEXT_WAITERS
       && forall i :: 0 <= i < |d.text| ==> d.text[i].peer.instance != peer.instance
    then d.(text := d.text + [TextWaiter(peer, master)]) else d
  }

  /** A terminal that shows nothing is taken off the list. */
  function Withdrawn(d: Desk, active: Option<Active>, peer: Peer, presenter: Check, activeTerminal: Result<bool, SysError>,
                     waiterTerminal: nat -> Result<bool, SysError>): Desk
  {
    if presenter.Some? || (Shows(active, peer) && activeTerminal != Ok(false)) then d
    else d.(text := WithdrawnFrom(d.text, peer, waiterTerminal, 0))
  }

  function WithdrawnFrom(text: seq<TextWaiter>, peer: Peer, waiterTerminal: nat -> Result<bool, SysError>, i: nat)
    : seq<TextWaiter>
    requires i <= |text|
    decreases |text| - i
  {
    if i == |text| then text
    else if text[i].peer.instance == peer.instance && waiterTerminal(i) != Ok(false)
    then if waiterTerminal(i).Ok? then text[..i] + text[i + 1..] else text
    else WithdrawnFrom(text, peer, waiterTerminal, i + 1)
  }

  /** Who was chosen for a prompt no longer waits. */
  function Taken(d: Desk, a: BeginAnswers): Desk {
    var at := FirstMatch(a, |d.text|);
    if at.Some? then d.(text := d.text[..at.value] + d.text[at.value + 1..])
    else if a.requesterKind.Ok? && Index(a.requesterKind.value) < |d.idle|
    then d.(idle := d.idle[Index(a.requesterKind.value) := None])
    else d
  }

  function FirstMatch(a: BeginAnswers, n: nat): (r: Option<nat>)
    ensures r.Some? ==> r.value < n && a.textMatches(r.value) == Ok(true)
    ensures r.None? ==> forall i: nat :: i < n ==> a.textMatches(i) != Ok(true)
  {
    if n == 0 then None else
    var r := FirstMatch(a, n - 1);
    if r.Some? then r else if a.textMatches(n - 1) == Ok(true) then Some(n - 1) else None
  }

  /** An armed ticket belongs to the active request, which is known to be armed. */
  ghost predicate ArmedKnown(active: Option<Active>, s: State) {
    forall id :: ArmedIn(s, id) ==> active.Some? && active.value.armed
  }

  /** The last word on a held call: the proposal is approved and the launch completes. */
  ghost predicate Granting(slots: Slots, s: State, peer: Peer, correlation: Correlation, choice: Choice, generation: u64,
                           now: u64, a: CommandAnswers)
  {
    && a.observe.Ok? && a.observe.value.current.session.Some?
    && Approvable(s, peer.instance, correlation, choice, a.observe.value.current, now)
    && forall i: nat :: i < |slots| && Matches(slots[i], correlation) ==>
         Completes(slots[i].value.entry.request, choice, a.observe.value.requester,
                   a.observe.value.current.session.value, generation, a.completion)
  }

  /** Everything the frontend itself asks of a decision. */
  predicate Decides(active: Option<Active>, peer: Peer, correlation: Correlation, action: FrontendAction, a: CommandAnswers) {
    && action.Decide? && Proposable(active, peer, correlation, action.choice)
    && a.current.None? && a.observe.Ok? && a.synchronized.None?
    && (active.value.terminal.Some? ==> a.textMatches == Ok(true))
  }

  /** The calls still held are as they were, and so is the terminal they are shown on. */
  predicate Stays(slots: Slots, active: Option<Active>, slots': Slots, active': Option<Active>) {
    && |slots'| == |slots|
    && forall i :: 0 <= i < |slots'| && slots'[i].Some? ==>
         && slots'[i] == slots[i] && active.Some? && active'.Some?
         && active'.value.terminal == active.value.terminal
  }

  lemma StaysPut(slots: Slots, active: Option<Active>)
    requires OnlyActive(slots, active, -1)
    ensures Stays(slots, active, slots, active)
  {
  }

  /** The reserved slot now holds the call of this request. */
  predicate Occupied(slots': Slots, slots: Slots, index: nat, q: Request, held: Held) {
    index < |slots| && slots' == slots[index := Some(Ready(held))] && held.request == q
  }

  predicate Grants(emitted: seq<Reply>) { |emitted| == 1 && emitted[0].error.None? }

  /** The held call of an approved proposal is in time and has the approved binding. */
  lemma ApprovedCallAgrees(slots: Slots, x: Entry, i: nat)
    requires Linked(slots, x.pre) && IsStep(x) && x.event.Propose? && x.response.Resolved? && x.response.outcome.Approved?
    requires i < |slots| && Matches(slots[i], x.event.correlation)
    ensures x.event.now < slots[i].value.entry.offer.deadline
    ensures x.response.outcome.approval.binding == slots[i].value.entry.request.binding
    ensures x.response.outcome.approval.choice == x.event.choice
  {
    hide DoPropose;
    ProposalApprovedIff(x.pre, x.event.peer, x.event.correlation, x.event.choice, x.event.current, x.event.now);
    assert ReadyAt(slots, i, x.event.correlation.ticket.id);
  }

  /** For the held call of an approved proposal, success is the completion of its launch. */
  lemma HeldCallIs(slots: Slots, x: Entry, requester: Peer, generation: u64, n: Completion)
    requires Linked(slots, x.pre) && IsStep(x) && x.event.Propose? && x.response.Resolved? && x.response.outcome.Approved?
    requires x.event.current.session.Some?
    ensures forall i: nat :: i < |slots| && Matches(slots[i], x.event.correlation) ==>
      (Succeeds(slots[i].value.entry, x.response.outcome.approval, requester, x.event.current.session.value, generation,
                x.event.now, n)
       <==> Completes(slots[i].value.entry.request, x.event.choice, requester, x.event.current.session.value, generation, n))
  {
    hide IsStep, Linked, Completes;
    forall i: nat | i < |slots| && Matches(slots[i], x.event.correlation)
      ensures Succeeds(slots[i].value.entry, x.response.outcome.approval, requester, x.event.current.session.value,
                       generation, x.event.now, n)
              <==> Completes(slots[i].value.entry.request, x.event.choice, requester, x.event.current.session.value,
                             generation, n)
    {
      ApprovedCallAgrees(slots, x, i);
    }
  }

  lemma GrantingNeedsApproval(slots: Slots, s: State, peer: Peer, correlation: Correlation, choice: Choice, generation: u64,
                              now: u64, a: CommandAnswers)
    ensures Granting(slots, s, peer, correlation, choice, generation, now, a) ==>
      a.observe.Ok? && Approvable(s, peer.instance, correlation, choice, a.observe.value.current, now)
  {
    hide Approvable, Completes;
  }

  /** An approved decision about a held call is granted exactly when that call's launch completes. */
  lemma GrantingIff(slots: Slots, s: State, peer: Peer, correlation: Correlation, choice: Choice, generation: u64, now: u64,
                    a: CommandAnswers, ok: bool)
    requires a.observe.Ok? && a.observe.value.current.session.Some?
    requires Approvable(s, peer.instance, correlation, choice, a.observe.value.current, now)
    requires exists i :: 0 <= i < |slots| && Matches(slots[i], correlation)
    requires forall i: nat :: i < |slots| && Matches(slots[i], correlation) ==>
      (ok <==> Completes(slots[i].value.entry.request, choice, a.observe.value.requester,
                         a.observe.value.current.session.value, generation, a.completion))
    ensures Granting(slots, s, peer, correlation, choice, generation, now, a) <==> ok
  {
    hide Approvable, Completes;
  }

  lemma ProposeStep(x: Entry)
    requires IsStep(x) && x.event.Propose?
    ensures x.response.Resolved? && x.response.outcome.Approved?
            <==> Approvable(x.pre, x.event.peer, x.event.correlation, x.event.choice, x.event.current, x.event.now)
  {
    hide DoPropose;
    ProposalApprovedIff(x.pre, x.event.peer, x.event.correlation, x.event.choice, x.event.current, x.event.now);
  }

  /** Without arming, what is known about armed tickets stays true. */
  lemma StillKnown(h: seq<Entry>, h': seq<Entry>, kind: Event -> bool, active: Option<Active>)
    requires Adds(h, h', kind) && IsRun(h') && forall k: nat :: |h| <= k < |h'| ==> !h'[k].event.Arm?
    requires ArmedKnown(active, StateAt(h, |h|))
    ensures ArmedKnown(active, StateAt(h', |h'|))
  {
    hide ArmedIn;
    forall id | ArmedIn(StateAt(h', |h'|), id) ensures active.Some? && active.value.armed {
      NoNewArms(h', |h|, |h'|, id);
      assert StateAt(h', |h|) == StateAt(h, |h|);
    }
  }

  lemma NothingEmitted(slots: Slots)
    ensures Waiting(slots) == Waiting(slots) + Answered([])
  {
    hide Waiting;
  }

  lemma KnownWhenArmed(active: Option<Active>, s: State)
    requires active.Some? && active.value.armed
    ensures ArmedKnown(active, s)
  {
  }

  /** Closing tickets and telling the time arm nothing. */
  lemma QuietKnown(h: seq<Entry>, h': seq<Entry>, now: u64, active: Option<Active>)
    requires (Adds(h, h', Closes) || Adds(h, h', Ticks(now))) && IsRun(h')
    requires ArmedKnown(active, StateAt(h, |h|))
    ensures ArmedKnown(active, StateAt(h', |h'|))
  {
    hide ArmedKnown, IsRun, StateAt;
    if Adds(h, h', Closes) { StillKnown(h, h', Closes, active); } else { StillKnown(h, h', Ticks(now), active); }
  }

  /** No call held, no ticket open. */
  lemma NothingArmed(slots: Slots, s: State, active: Option<Active>)
    requires Linked(slots, s) && AllEmpty(slots)
    ensures ArmedKnown(active, s)
  {
    assert forall i: nat, id :: !ReadyAt(slots, i, id);
  }

  /** The ticket is offered, in time, by its own presenter in a matching world, on the route that will be armed. */
  predicate Showable(s: State, route: InputRoute, peer: Peer, correlation: Correlation, current: Current, now: u64) {
    && s.lastNow <= now && correlation.ticket.id in s.live
    && var p := s.live[correlation.ticket.id];
    && p.offer.correlation == correlation && p.stage == Offered && now < p.offer.deadline
    && peer.instance == p.presenter.instance && p.Matches(current) && route == p.input
  }

  /** A prompt that is showable is noted; one that is noted is showable, but for its route. */
  lemma NoticeTaken(x: Entry, route: InputRoute, peer: Peer)
    requires IsStep(x) && WellKept(x.pre) && x.event.SendFeedback? && x.event.feedback == Presented
    requires peer.instance == x.event.peer
    ensures Showable(x.pre, route, peer, x.event.correlation, x.event.current, x.event.now) <==>
      && x.response == Resolved(StillPending) && x.event.correlation.ticket.id in x.pre.live
      && x.pre.live[x.event.correlation.ticket.id].input == route
  {
  }

  /** What was just noted is armed on its own route. */
  lemma ArmingTaken(x: Entry, y: Entry)
    requires IsStep(x) && IsStep(y) && WellKept(x.pre) && y.pre == x.post
    requires x.event.SendFeedback? && x.event.feedback == Presented && x.response == Resolved(StillPending)
    requires y.event.Arm? && y.event.correlation == x.event.correlation && y.event.now == x.event.now
    requires y.event.peer == y.event.route.source
    ensures x.event.correlation.ticket.id in x.pre.live
    ensures y.response == Done <==> x.pre.live[x.event.correlation.ticket.id].input == y.event.route
  {
  }

  lemma ArmedStays(slots: Slots, held: Active, armed: Active)
    requires OnlyActive(slots, Some(held), -1) && armed == held.(armed := armed.armed, text := armed.text)
    ensures OnlyActive(slots, Some(armed), -1) && Stays(slots, Some(held), slots, Some(armed))
  {
  }

  lemma NothingArmedYet(s: State, active: Option<Active>)
    requires ArmedKnown(None, s)
    ensures ArmedKnown(active, s)
  {
  }

  /** The command names the active request and comes from its presenter. */
  predicate Addressed(active: Option<Active>, peer: Peer, correlation: Correlation) {
    active.Some? && active.value.offer.correlation == correlation && active.value.peer.instance == peer.instance
  }

  /** The presenter of an armed request may propose `choice`; a terminal needs its keyboard evidence as well. */
  predicate Proposable(active: Option<Active>, peer: Peer, correlation: Correlation, choice: Choice) {
    && active.Some? && active.value.offer.correlation == correlation && active.value.armed
    && active.value.peer.instance == peer.instance && choice != Deny
    && (active.value.terminal.Some? ==> active.value.text.confirmed == Some(choice))
  }

  predicate ApprovedAt(history: seq<Entry>, k: nat, target: u64) {
    && k < |history| && history[k].response.Resolved? && history[k].response.outcome.Approved?
    && history[k].response.outcome.approval.binding.requester.endpoint == target
  }

  /** At most one call is held when every occupied slot belongs to the active frontend. */
  lemma OneCallHeld(slots: Slots, s: State, active: Option<Active>, i: nat)
    requires Linked(slots, s) && OnlyActive(slots, active, -1)
    requires i < |slots| && active.Some? && Matches(slots[i], active.value.offer.correlation)
    ensures AllEmpty(slots[i := None])
  {
    var id := active.value.offer.correlation.ticket.id;
    assert ReadyAt(slots, i, id);
    forall j: nat | j < |slots| && slots[j].Some? ensures j == i {
      assert ReadyAt(slots, j, id);
    }
  }

  /** Without a call of the active frontend nothing is held. */
  lemma NoCallHeld(slots: Slots, active: Option<Active>)
    requires OnlyActive(slots, active, -1)
    requires active.Some? ==> forall i :: 0 <= i < |slots| ==> !Matches(slots[i], active.value.offer.correlation)
    ensures AllEmpty(slots)
  {
    forall i | 0 <= i < |slots| ensures slots[i].None? {
      if active.Some? { assert !Matches(slots[i], active.value.offer.correlation); }
    }
  }

  class Frontends {
    var idle: seq<Option<Peer>>
    var active: Option<Active>
    var text: seq<TextWaiter>
    ghost var keys: seq<TextEvidence.Key>
    ghost var armedUp: bool

    /** The evidence of an armed request is that of the keys observed since it was armed. */
    ghost predicate Valid()
      reads this
    {
      && |idle| == 2 && |text| <= MAX_TEXT_WAITERS
      && (active.Some? && active.value.armed ==> active.value.text == TextEvidence.After(armedUp, keys, |keys|))
      && (active.Some? ==> active.value.presenter.instance == active.value.peer.instance)
    }

    function Waiters(): Desk
      reads this
    {
      Desk(idle, text)
    }

    /** Between messages: registry and controller agree, and only the active request is held. */
    ghost predicate Gate(registry: Registry, controller: Controller)
      reads this, registry, controller, controller.pending
    {
      Within(registry, controller) && ArmedKnown(active, controller.Table())
    }

    /** The same while a prompt is being armed. */
    ghost predicate Within(registry: Registry, controller: Controller)
      reads this, registry, controller, controller.pending
    {
      Valid() && registry.InStep(controller) && OnlyActive(registry.slots, active, -1)
    }

    constructor ()
      ensures Valid() && active.None? && Waiters() == Desk([None, None], [])
    {
      idle := [None, None];
      active := None;
      text := [];
      keys, armedUp := [], false;
    }

    /** Drop the active request, answer its caller and dismiss its display. */
    method Cancel(registry: Registry, controller: Controller, reason: NativeError) returns (emitted: seq<Reply>)
      requires Within(registry, controller)
      modifies this`active, registry, controller, controller.pending
      ensures Gate(registry, controller) && active.None?
      ensures Adds(old(controller.history), controller.history, Closes)
      ensures AllEmpty(registry.slots) && |emitted| <= 1
      ensures Waiting(old(registry.slots)) == Waiting(registry.slots) + Answered(emitted)
      ensures forall r :: r in emitted ==> r.error == Some(Native(reason))
      ensures Stays(old(registry.slots), old(active), registry.slots, active)
    {
      hide Linked, Holds, WellKept, IsRun, StateAt, DistinctTargets, Total, Waiting, ArmedKnown;
      emitted := [];
      if active.Some? {
        var correlation := active.value.offer.correlation;
        ghost var slots, table := registry.slots, controller.Table();
        var reply := registry.Cancel(controller, correlation, reason);
        if reply.Some? {
          ghost var i: nat :| TakenOut(slots, registry.slots, i, correlation, reply.value);
          OneCallHeld(slots, table, active, i);
          emitted := [reply.value];
        } else {
          NoCallHeld(slots, active);
        }
        active := None;
      } else {
        NoCallHeld(registry.slots, active);
      }
      NothingArmed(registry.slots, controller.Table(), active);
    }

    /** A graphical presenter offers to show the next prompt. */
    method Wait(peer: Peer, kind: Kind, presenter: Check, current: Check) returns (error: Check)
      requires Valid()
      modifies this`idle
      ensures Valid()
      ensures error.None? <==>
        presenter.None? && current.None? && old(idle)[Index(kind)].None?
        && !(active.Some? && active.value.peer.instance.endpoint == peer.instance.endpoint)
      ensures idle == if error.None? then old(idle)[Index(kind) := Some(peer)] else old(idle)
      ensures kind == Graphical ==> Waiters() == Joined(old(Waiters()), active, peer, presenter, current)
    {
      if presenter.Some? { return presenter; }
      if current.Some? { return current; }
      if idle[Index(kind)].Some?
         || (active.Some? && active.value.peer.instance.endpoint == peer.instance.endpoint)
      {
        return Some(NotYet());
      }
      idle := idle[Index(kind) := Some(peer)];
      error := None;
    }

    /** The active request is shown on a terminal by this peer. */
    predicate OwnsActive(peer: Peer)
      reads this`active
    {
      active.Some? && active.value.peer.instance == peer.instance && active.value.terminal.Some?
    }

    /** A terminal asks for its prompt, or joins the waiting terminals. */
    method PollText(peer: Peer, master: u32, presenter: Check, current: Check, provider: Check,
                    activeTerminal: Result<bool, SysError>, waiterTerminal: nat -> Result<bool, SysError>)
      returns (r: Result<Option<Correlation>, SysError>)
      requires Valid()
      modifies this`text
      ensures Valid()
      ensures presenter.None? && current.None? && provider.None? && OwnsActive(peer) ==>
        r == (match activeTerminal
              case Err(e) => Err(e)
              case Ok(same) => if same then Ok(Some(active.value.offer.correlation)) else Err(NotYet()))
      ensures r.Ok? && r.value.Some? ==> OwnsActive(peer) && r.value.value == active.value.offer.correlation
      ensures text == old(text) || (text == old(text) + [TextWaiter(peer, master)] && r == Ok(None)
                                    && forall w :: w in old(text) ==> w.peer.instance != peer.instance)
      ensures Waiters() == Polled(old(Waiters()), active, peer, master, presenter, current, provider)
    {
      if presenter.Some? { return Err(presenter.value); }
      if current.Some? { return Err(current.value); }
      if provider.Some? { return Err(provider.value); }
      if active.Some? && active.value.peer.instance == peer.instance && active.value.terminal.Some? {
        match activeTerminal
        case Err(e) => return Err(e);
        case Ok(true) => return Ok(Some(active.value.offer.correlation));
        case Ok(false) => return Err(NotYet());
      }
      for i := 0 to |text|
        invariant forall k :: 0 <= k < i ==> text[k].peer.instance != peer.instance
      {
        if text[i].peer.instance == peer.instance {
          match waiterTerminal(i)
          case Err(e) => return Err(e);
          case Ok(true) => return Ok(None);
          case Ok(false) => return Err(NotYet());
        }
      }
      if |text| == MAX_TEXT_WAITERS { return Err(NotYet()); }
      text := text + [TextWaiter(peer, master)];
      r := Ok(None);
    }

    /** A key of the armed terminal request is added to its evidence. */
    method ObserveTextInput(correlation: Correlation, key: TextEvidence.Key)
      requires Valid()
      modifies this`active, this`keys
      ensures Valid()
      ensures var heard := old(active).Some? && old(active).value.armed && old(active).value.terminal.Some?
                           && old(active).value.offer.correlation == correlation;
        && keys == (if heard then old(keys) + [key] else old(keys))
        && (if heard then active.Some? && active.value == old(active).value.(text := active.value.text)
            else active == old(active))
    {
      if active.Some? {
        var a := active.value;
        if a.armed && a.terminal.Some? && a.offer.correlation == correlation {
          TextEvidence.AfterExtends(armedUp, keys, key);
          active := Some(a.(text := TextEvidence.Next(a.text, key)));
          keys := keys + [key];
        }
      }
    }

    /** A terminal withdraws: cancel the request it shows, or forget it as a waiter. */
    method ReleaseText(registry: Registry, controller: Controller, peer: Peer, presenter: Check,
                       activeTerminal: Result<bool, SysError>, waiterTerminal: nat -> Result<bool, SysError>)
      returns (error: Check, emitted: seq<Reply>)
      requires Gate(registry, controller)
      modifies this, registry, controller, controller.pending
      ensures Gate(registry, controller)
      ensures Adds(old(controller.history), controller.history, Closes)
      ensures Waiting(old(registry.slots)) == Waiting(registry.slots) + Answered(emitted)
      ensures forall r :: r in emitted ==> r.error.Some?
      ensures Stays(old(registry.slots), old(active), registry.slots, active)
      ensures Waiters() == Withdrawn(old(Waiters()), old(active), peer, presenter, activeTerminal, waiterTerminal)
    {
      hide Linked, Holds, WellKept, IsRun, StateAt, DistinctTargets, Total, Waiting;
      emitted := [];
      if presenter.Some? { return presenter, []; }
      if active.Some? && active.value.peer.instance == peer.instance && active.value.terminal.Some? {
        if activeTerminal.Err? { return Some(activeTerminal.error), []; }
        if activeTerminal.value {
          emitted := Cancel(registry, controller, AccessDenied);
          return None, emitted;
        }
      }
      error := None;
      for i := 0 to |text|
        invariant text == old(text) && Gate(registry, controller) && registry.slots == old(registry.slots)
        invariant WithdrawnFrom(text, peer, waiterTerminal, 0) == WithdrawnFrom(text, peer, waiterTerminal, i)
        invariant controller.history == old(controller.history)
      {
        if text[i].peer.instance == peer.instance {
          if waiterTerminal(i).Err? { return Some(waiterTerminal(i).error), []; }
          if waiterTerminal(i).value {
            text := text[..i] + text[i + 1..];
            return None, [];
          }
        }
      }
    }

    /** Forget presenters that are gone, and drop the active request when it or its presenter is gone. */
    method Maintain(registry: Registry, controller: Controller, current: Peer -> Check) returns (emitted: seq<Reply>)
      requires Gate(registry, controller)
      modifies this, registry, controller, controller.pending
      ensures Gate(registry, controller)
      ensures Adds(old(controller.history), controller.history, Closes)
      ensures Waiting(old(registry.slots)) == Waiting(registry.slots) + Answered(emitted)
      ensures forall r :: r in emitted ==> r.error.Some?
      ensures active.Some? ==> current(active.value.peer).None? && active == old(active)
                               && exists i :: 0 <= i < |registry.slots|
                                              && Matches(registry.slots[i], active.value.offer.correlation)
      ensures forall i :: 0 <= i < 2 && idle[i].Some? ==> current(idle[i].value).None?
      ensures forall w :: w in text ==> current(w.peer).None?
      ensures Stays(old(registry.slots), old(active), registry.slots, active)
      ensures Waiters() == Tended(old(Waiters()), current)
    {
      hide Linked, Holds, WellKept, IsRun, StateAt, DistinctTargets, Total, Waiting, Tended;
      Tend(current);
      emitted := [];
      if active.Some? {
        var found := registry.Find(active.value.offer.correlation);
        if found.None? || current(active.value.peer).Some? {
          emitted := Cancel(registry, controller, PeerClosed);
        }
      }
    }

    method KeepText(current: Peer -> Check) returns (kept: seq<TextWaiter>)
      ensures kept == StillThere(text, current)
    {
      kept := [];
      for i := 0 to |text|
        invariant kept == StillThere(text[..i], current)
      {
        assert text[..i + 1][..i] == text[..i];
        if current(text[i].peer).None? { kept := kept + [text[i]]; }
      }
      assert text[..|text|] == text;
    }

    /** Forget the presenters and terminals that are gone. */
    method Tend(current: Peer -> Check)
      requires Valid()
      modifies this`idle, this`text
      ensures Valid() && Waiters() == Tended(old(Waiters()), current)
      ensures forall i :: 0 <= i < 2 && idle[i].Some? ==> current(idle[i].value).None?
      ensures forall w :: w in text ==> current(w.peer).None?
    {
      hide StillThere;
      ghost var was := idle;
      for i := 0 to 2
        modifies this`idle
        invariant |idle| == 2 && forall k :: 0 <= k < 2 ==> idle[k] == if k < i then IfThere(was[k], current) else was[k]
      {
        if idle[i].Some? && current(idle[i].value).Some? { idle := idle[i := None]; }
      }
      var kept := KeepText(current);
      text := kept;
    }

    /** The presenter of the active request reports back or proposes the user's decision. */
    method Command(registry: Registry, controller: Controller, peer: Peer, correlation: Correlation,
                   action: FrontendAction, generation: u64, now: u64, a: CommandAnswers)
      returns (error: Check, emitted: seq<Reply>)
      requires Gate(registry, controller)
      modifies this`active, this`keys, this`armedUp, registry, controller, controller.pending
      ensures Gate(registry, controller)
      ensures Adds(old(controller.history), controller.history, Commands(peer, correlation, action, now, a))
      ensures Waiting(old(registry.slots)) == Waiting(registry.slots) + Answered(emitted) && |emitted| <= 1
      ensures forall r :: r in emitted ==> Backed(controller.history, |old(controller.history)|, r, generation, a)
      ensures forall r :: r in emitted && r.error.None? ==>
        && action.Decide? && Proposable(old(active), peer, correlation, action.choice)
        && (old(active).value.terminal.Some? ==>
              TextEvidence.Confirms(old(armedUp), old(keys), |old(keys)|, action.choice))
      ensures Grants(emitted)
              <==> Decides(old(active), peer, correlation, action, a)
                   && Granting(old(registry.slots), old(controller.Table()), peer, correlation, action.choice, generation,
                               now, a)
      ensures Grants(emitted) ==>
        ApprovedUnder(controller.history, |old(controller.history)|, emitted[0].target, generation, a)
      ensures !Addressed(old(active), peer, correlation) || a.current.Some? ==>
        error.Some? && emitted == [] && active == old(active) && controller.history == old(controller.history)
      ensures Addressed(old(active), peer, correlation) && a.current.None?
              && (action == DismissedPrompt || action == FrontendAction.Decide(Deny)) ==>
        error.None? && active.None? && forall r :: r in emitted ==> r.error == Some(Native(AccessDenied))
      ensures Stays(old(registry.slots), old(active), registry.slots, active)
    {
      hide Linked, Holds, WellKept, IsRun, StateAt, DistinctTargets, Total, Waiting, IsStep, Granting, ArmedKnown, Adds,
        Commands, ApprovedUnder, TextEvidence.After, TextEvidence.Confirms, OnlyActive, Stays;
      emitted := [];
      ghost var h := controller.history;
      StaysPut(registry.slots, active);
      AddsNone(h, Commands(peer, correlation, action, now, a));
      if active.None? || active.value.offer.correlation != correlation { return Some(Refused()), []; }
      var held := active.value;
      if peer.instance != held.peer.instance { return Some(Refused()), []; }
      if a.current.Some? { return a.current, []; }
      if action == DismissedPrompt || action == Decide(Deny) {
        emitted := Cancel(registry, controller, AccessDenied);
        CommandsMay(h, controller.history, peer, correlation, action, now, a);
        return None, emitted;
      }
      error, emitted := Act(registry, controller, peer, correlation, action, generation, now, a);
    }

    /** A report or a decision other than deny of the active request's own presenter. */
    method Act(registry: Registry, controller: Controller, peer: Peer, correlation: Correlation,
               action: FrontendAction, generation: u64, now: u64, a: CommandAnswers)
      returns (error: Check, emitted: seq<Reply>)
      requires Gate(registry, controller) && Addressed(active, peer, correlation) && a.current.None?
      requires action == ShowedPrompt || (action.Decide? && action.choice != Deny)
      modifies this`active, this`keys, this`armedUp, registry, controller, controller.pending
      ensures Gate(registry, controller)
      ensures Adds(old(controller.history), controller.history, Commands(peer, correlation, action, now, a))
      ensures Waiting(old(registry.slots)) == Waiting(registry.slots) + Answered(emitted) && |emitted| <= 1
      ensures forall r :: r in emitted ==> Backed(controller.history, |old(controller.history)|, r, generation, a)
      ensures Grants(emitted)
              <==> Decides(old(active), peer, correlation, action, a)
                   && Granting(old(registry.slots), old(controller.Table()), peer, correlation, action.choice, generation,
                               now, a)
      ensures Grants(emitted) ==>
        ApprovedUnder(controller.history, |old(controller.history)|, emitted[0].target, generation, a)
      ensures Grants(emitted) && old(active).value.terminal.Some? ==>
        TextEvidence.Confirms(old(armedUp), old(keys), |old(keys)|, action.choice)
      ensures Stays(old(registry.slots), old(active), registry.slots, active)
    {
      hide Linked, Holds, WellKept, IsRun, StateAt, DistinctTargets, Total, Waiting, IsStep, Granting, ArmedKnown, Adds,
        Commands, ApprovedUnder, OnlyActive, ApprovedAt, Answered, Stays;
      emitted := [];
      ghost var h := controller.history;
      StaysPut(registry.slots, active);
      NothingEmitted(registry.slots);
      AddsNone(h, Commands(peer, correlation, action, now, a));
      var held := active.value;
      if a.observe.Err? {
        if a.observe.error == NotYet() { return Some(NotYet()), []; }
        emitted := Cancel(registry, controller, AccessDenied);
        CommandsMay(h, controller.history, peer, correlation, action, now, a);
        return Some(a.observe.error), emitted;
      }
      var seen := a.observe.value;
      if held.terminal.Some? {
        if a.textMatches.Err? { return Some(a.textMatches.error), []; }
        if !a.textMatches.value {
          emitted := Cancel(registry, controller, AccessDenied);
          CommandsMay(h, controller.history, peer, correlation, action, now, a);
          return Some(Refused()), emitted;
        }
      }
      if action == ShowedPrompt {
        error, emitted := Show(registry, controller, peer, correlation, now, a, seen);
        return;
      }
      if !held.armed { return Some(NotYet()), []; }
      if a.synchronized.Some? { return a.synchronized, []; }
      if held.terminal.Some? && held.text.confirmed != Some(action.choice) { return Some(NotYet()), []; }
      TextEvidence.AcceptsIsPattern(armedUp, keys, |keys|, action.choice);
      error, emitted := Settle(registry, controller, peer, correlation, action.choice, generation, now, a, seen);
    }

    /** First report that the prompt is on screen: note it and arm the input route; later reports change nothing. */
    method Show(registry: Registry, controller: Controller, peer: Peer, correlation: Correlation, now: u64,
                a: CommandAnswers, seen: Witness)
      returns (error: Check, emitted: seq<Reply>)
      requires Gate(registry, controller) && active.Some? && a.observe == Ok(seen)
      modifies this`active, this`keys, this`armedUp, registry, controller, controller.pending
      ensures Gate(registry, controller)
      ensures Adds(old(controller.history), controller.history, Commands(peer, correlation, ShowedPrompt, now, a))
      ensures Waiting(old(registry.slots)) == Waiting(registry.slots) + Answered(emitted) && |emitted| <= 1
      ensures forall r :: r in emitted ==> r.error.Some?
      ensures old(active).value.armed ==> active == old(active) && controller.history == old(controller.history)
      ensures !old(active).value.armed ==>
        match active
        case None => error.Some?
        case Some(shown) =>
          && error.None? && shown == old(active).value.(armed := true, text := shown.text)
          && |controller.history| == |old(controller.history)| + 2
          && controller.history[|old(controller.history)|].event
             == SendFeedback(peer.instance, correlation, Presented, seen.current, now)
          && controller.history[|old(controller.history)| + 1].event.Arm?
      ensures !old(active).value.armed ==>
        (active.Some? <==>
          Showable(old(controller.Table()), old(active).value.route, peer, correlation, seen.current, now) && a.arm.Ok?)
      ensures Stays(old(registry.slots), old(active), registry.slots, active)
    {
      hide Linked, Holds, WellKept, IsRun, StateAt, DistinctTargets, Total, Waiting, IsStep, Step, Adds, Commands,
        ArmedKnown, TextEvidence.After, Showable, OnlyActive, Stays, Answered;
      ghost var h, action := controller.history, ShowedPrompt;
      AddsNone(h, Commands(peer, correlation, action, now, a));
      NothingEmitted(registry.slots);
      ArmedStays(registry.slots, active.value, active.value);
      var held := active.value;
      if held.armed { return a.synchronized, []; }
      var shown := registry.Tell(controller, SendFeedback(peer.instance, correlation, Presented, seen.current, now));
      ghost var h1 := controller.history;
      PromptIsCommand(h, h1[|h|], peer, correlation, now, a);
      NoticeTaken(h1[|h|], held.route, peer);
      if shown != Resolved(StillPending) {
        emitted := Cancel(registry, controller, AccessDenied);
        CommandsMay(h1, controller.history, peer, correlation, action, now, a);
        AddsMore(h, h1, controller.history, Commands(peer, correlation, action, now, a));
        return Some(Refused()), emitted;
      }
      if a.arm.Err? {
        emitted := Cancel(registry, controller, AccessDenied);
        CommandsMay(h1, controller.history, peer, correlation, action, now, a);
        AddsMore(h, h1, controller.history, Commands(peer, correlation, action, now, a));
        return Some(a.arm.error), emitted;
      }
      var (serial, released) := a.arm.value;
      var armed := registry.Tell(controller, Arm(held.route.source, correlation, held.route, serial, released, now));
      ghost var h2 := controller.history;
      PromptIsCommand(h1, h2[|h1|], peer, correlation, now, a);
      ArmingTaken(h1[|h|], h2[|h1|]);
      AddsMore(h, h1, h2, Commands(peer, correlation, action, now, a));
      if armed != Done {
        emitted := Cancel(registry, controller, AccessDenied);
        CommandsMay(h2, controller.history, peer, correlation, action, now, a);
        AddsMore(h, h2, controller.history, Commands(peer, correlation, action, now, a));
        return Some(Refused()), emitted;
      }
      active := Some(held.(armed := true, text := TextEvidence.Fresh(released)));
      keys, armedUp := [], released;
      KnownWhenArmed(active, controller.Table());
      ArmedStays(registry.slots, held, active.value);
      TextStarts(armedUp);
      return None, [];
    }

    /** Put the user's choice to the controller and, once approved, finish the held call. */
    method Settle(registry: Registry, controller: Controller, peer: Peer, correlation: Correlation, choice: Choice,
                  generation: u64, now: u64, a: CommandAnswers, seen: Witness)
      returns (error: Check, emitted: seq<Reply>)
      requires Gate(registry, controller) && active.Some? && active.value.offer.correlation == correlation
      requires active.value.armed && a.observe == Ok(seen)
      modifies this`active, registry, controller, controller.pending
      ensures Gate(registry, controller)
      ensures Adds(old(controller.history), controller.history, Commands(peer, correlation, FrontendAction.Decide(choice), now, a))
      ensures Waiting(old(registry.slots)) == Waiting(registry.slots) + Answered(emitted) && |emitted| <= 1
      ensures forall r :: r in emitted ==> Backed(controller.history, |old(controller.history)|, r, generation, a)
      ensures Grants(emitted)
              <==> Granting(old(registry.slots), old(controller.Table()), peer, correlation, choice, generation, now, a)
      ensures Grants(emitted) ==>
        ApprovedUnder(controller.history, |old(controller.history)|, emitted[0].target, generation, a)
      ensures Stays(old(registry.slots), old(active), registry.slots, active)
    {
      hide Linked, Holds, WellKept, IsRun, StateAt, DistinctTargets, Total, Waiting, IsStep, Step,
        Adds, Commands, Authorized, Approvable, Completes, ArmedKnown, Succeeds, Granting, OnlyActive, Stays;
      ghost var k, start := |controller.history|, controller.history;
      ghost var action := FrontendAction.Decide(choice);
      ghost var before, slots := controller.Table(), registry.slots;
      var e := Propose(peer.instance, correlation, choice, seen.current, now);
      var answer := registry.Tell(controller, e);
      ghost var history, x := controller.history, Entry(before, e, answer, controller.Table());
      ProposeStep(x);
      GrantingNeedsApproval(slots, before, peer, correlation, choice, generation, now, a);
      StaysPut(slots, active);
      KnownWhenArmed(active, controller.Table());
      ProposeIsCommand(start, history[k], peer, correlation, choice, now, a);
      if answer == Failed(MissingPresence) { return Some(NotYet()), []; }
      if !answer.Resolved? || !answer.outcome.Approved? {
        emitted := Cancel(registry, controller, AccessDenied);
        CommandsMay(history, controller.history, peer, correlation, action, now, a);
        AddsMore(start, history, controller.history, Commands(peer, correlation, action, now, a));
        return Some(Refused()), emitted;
      }
      var approval := answer.outcome.approval;
      ApprovalIsHeld(registry.slots, x);
      HeldCallIs(slots, x, seen.requester, generation, a.completion);
      var reply := Conclude(registry, controller, correlation, approval, seen, generation, now, a.completion);
      CommandsMay(history, controller.history, peer, correlation, action, now, a);
      AddsMore(start, history, controller.history, Commands(peer, correlation, action, now, a));
      AddsKeeps(history, controller.history, Ticks(now), k);
      assert reply.error.None? ==> ApprovedUnder(controller.history, k, reply.target, generation, a);
      GrantingIff(slots, before, peer, correlation, choice, generation, now, a, reply.error.None?);
      return reply.error, [reply];
    }

    /** End the held call with what completing its launch gave. */
    method Conclude(registry: Registry, controller: Controller, correlation: Correlation, approval: Approval, seen: Witness,
                    generation: u64, now: u64, native: Completion)
      returns (reply: Reply)
      requires Within(registry, controller) && active.Some? && active.value.offer.correlation == correlation
      requires approval.correlation == correlation && correlation.ticket.id !in controller.live
      requires controller.lastNow <= now && seen.current.session.Some?
      requires exists i :: 0 <= i < |registry.slots| && Matches(registry.slots[i], correlation)
      modifies this`active, registry, controller, controller.pending
      ensures Gate(registry, controller) && Adds(old(controller.history), controller.history, Ticks(now))
      ensures Waiting(old(registry.slots)) == Waiting(registry.slots) + multiset{reply.target}
      ensures reply.error.None? ==>
        && Authorized(approval, seen.current.session.value, generation, native)
        && reply.target == approval.binding.requester.endpoint
      ensures forall i: nat :: i < |old(registry.slots)| && Matches(old(registry.slots)[i], correlation) ==>
        (reply.error.None? <==> Succeeds(old(registry.slots)[i].value.entry, approval, seen.requester,
                                         seen.current.session.value, generation, now, native))
      ensures Stays(old(registry.slots), old(active), registry.slots, active)
    {
      hide Linked, Holds, WellKept, IsRun, StateAt, DistinctTargets, Total, Waiting, Adds, Authorized, Succeeds, ArmedKnown;
      ghost var slots, table := registry.slots, controller.Table();
      var r := registry.Finish(controller, correlation, approval, seen.requester, seen.current.session.value, generation,
                               now, native);
      reply := r.value;
      ghost var i: nat :| TakenOut(slots, registry.slots, i, correlation, reply) && FinishedBy(slots, i, reply, approval);
      OneCallHeld(slots, table, active, i);
      active := None;
      NothingArmed(registry.slots, controller.Table(), active);
    }

    /** Choose the presenter and bind the request; nothing changes yet. */
    method Prepare(controller: Controller, launch: Launch, requester: Peer, generation: u64, imageLimit: nat,
                   a: BeginAnswers)
      returns (r: Result<Prepared, SysError>)
      requires Valid() && controller.Valid()
      ensures r.Ok? ==> active.None? && ChosenBy(a, |text|, r.value.from)
      ensures r.Ok? ==> Offers(Waiters(), r.value.from, r.value.peer)
      ensures r.Ok? ==> a.presenter.None? && a.current.None? && a.session.Ok? && a.route == Ok(r.value.route)
                        && NewRequest(launch, requester, a.session.value, generation, imageLimit) == Ok(r.value.request)
                        && a.register.Ok? && r.value.presenter == Presenter(r.value.peer.instance, a.register.value)
                        && a.challenge.Ok?
                        && NextCorrelation(controller.Table(), a.challenge.value) == Ok(r.value.correlation)
      ensures r.Ok? <==>
        Preparable(active, Waiters(), controller.Table(), launch, requester, generation, imageLimit, a)
    {
      hide Holds, WellKept, NewRequest;
      if active.Some? { return Err(NotYet()); }
      var matching: Option<nat> := None;
      for i := 0 to |text|
        invariant matching.Some? ==> matching.value < i && a.textMatches(matching.value) == Ok(true)
        invariant forall j: nat :: j < i && matching != Some(j) ==> a.textMatches(j) == Ok(false)
      {
        var same := a.textMatches(i);
        if same.Err? { return Err(same.error); }
        if same.value {
          if matching.Some? { return Err(Refused()); }
          matching := Some(i);
        }
      }
      var from, peer;
      if matching.Some? {
        from, peer := Terminal(matching.value), text[matching.value].peer;
      } else {
        if a.requesterKind.Err? { return Err(a.requesterKind.error); }
        var slot := Index(a.requesterKind.value);
        if idle[slot].None? { return Err(NotYet()); }
        from, peer := Presenting(slot), idle[slot].value;
      }
      ChosenIs(a, Waiters(), from, peer);
      if a.presenter.Some? { return Err(a.presenter.value); }
      if a.current.Some? { return Err(a.current.value); }
      if a.session.Err? { return Err(a.session.error); }
      if a.route.Err? { return Err(a.route.error); }
      var request := NewRequest(launch, requester, a.session.value, generation, imageLimit);
      RequestIff(launch, requester, a.session.value, generation, imageLimit);
      if request.Err? { return Err(request.error); }
      if a.challenge.Err? { return Err(a.challenge.error); }
      var correlation := controller.NextCorrelation(a.challenge.value);
      if correlation.Err? { return Err(Refused()); }
      if a.register.Err? { return Err(a.register.error); }
      r := Ok(Prepared(from, peer, request.value, correlation.value,
                       Presenter(peer.instance, a.register.value), a.route.value));
    }

    /** The active request is shown by the presenter or terminal chosen, which no longer waits; the others do. */
    predicate TakenFrom(from: Source, wasIdle: seq<Option<Peer>>, wasText: seq<TextWaiter>)
      reads this
    {
      active.Some? && match from
      case Terminal(i) =>
        && i < |wasText| && text == wasText[..i] + wasText[i + 1..] && idle == wasIdle
        && active.value.peer == wasText[i].peer && active.value.terminal == Some(wasText[i].master)
      case Presenting(i) =>
        && i < |wasIdle| && idle == wasIdle[i := None] && text == wasText
        && wasIdle[i] == Some(active.value.peer) && active.value.terminal.None?
    }

    /** Take the chosen presenter or terminal off the list and make the request active on it. */
    method Enlist(p: Prepared, offer: Offer, ghost a: BeginAnswers)
      requires Valid() && ChosenBy(a, |text|, p.from) && Offers(Waiters(), p.from, p.peer)
      requires p.presenter.instance == p.peer.instance
      modifies this`idle, this`text, this`active
      ensures Valid() && TakenFrom(p.from, old(idle), old(text)) && Waiters() == Taken(old(Waiters()), a)
      ensures active.value == Active(p.peer, p.request.binding.requester, p.presenter, p.route, offer, false,
                                     active.value.terminal, TextEvidence.Fresh(false))
      ensures active.value.terminal.Some? ==> exists i: nat :: a.textMatches(i) == Ok(true)
    {
      var terminal: Option<u32> := None;
      match p.from {
        case Terminal(i) =>
          assert a.textMatches(i) == Ok(true);
          terminal := Some(text[i].master);
          text := text[..i] + text[i + 1..];
        case Presenting(i) => idle := idle[i := None];
      }
      active := Some(Active(p.peer, p.request.binding.requester, p.presenter, p.route, offer, false, terminal,
                            TextEvidence.Fresh(false)));
    }

    /** Turn a reserved call into the active request, or answer why not and roll the reservation back. */
    method Begin(registry: Registry, index: nat, controller: Controller, launch: Launch, requester: Peer,
                 generation: u64, now: u64, imageLimit: nat, a: BeginAnswers)
      returns (r: Result<Option<u64>, SysError>)
      requires Valid() && registry.InStep(controller) && OnlyActive(registry.slots, active, index)
      requires ArmedKnown(active, controller.Table())
      requires index < |registry.slots| && registry.slots[index].Some? && registry.slots[index].value.Reserved?
      modifies this, registry, controller, controller.pending
      ensures Gate(registry, controller)
      ensures Adds(old(controller.history), controller.history, Asks(launch, requester, generation, now, imageLimit, a))
      ensures r.Err? ==>
        Waiting(old(registry.slots)) == Waiting(registry.slots) + multiset{old(registry.slots)[index].value.target}
      ensures r.Ok? ==> Waiting(registry.slots) == Waiting(old(registry.slots))
                        && old(active).None? && active.Some? && !active.value.armed
      ensures r.Ok? ==> (exists from :: ChosenBy(a, |old(text)|, from) && TakenFrom(from, old(idle), old(text)))
      ensures r.Ok? ==> r.value == if active.value.terminal.None? then Some(active.value.peer.instance.endpoint) else None
      ensures r.Err? ==> registry.slots == old(registry.slots)[index := None] && active == old(active)
      ensures r.Ok? ==> (exists q, held :: a.session.Ok? && Occupied(registry.slots, old(registry.slots), index, q, held)
                                           && NewRequest(launch, requester, a.session.value, generation, imageLimit) == Ok(q))
      ensures r.Ok? && active.value.terminal.Some? ==> exists i: nat :: a.textMatches(i) == Ok(true)
      ensures old(registry.slots)[index].value.bytes == launch.sourceLen ==>
        (r.Ok? <==> Startable(old(active), old(Waiters()), old(controller.Table()), old(registry.slots)[index].value.target,
                              launch, requester, generation, now, imageLimit, a))
      ensures Waiters() == if r.Ok? then Taken(old(Waiters()), a) else old(Waiters())
    {
      hide Linked, Holds, WellKept, IsRun, StateAt, DistinctTargets, Total, Waiting, Startable, Preparable, Issuable,
        ChosenBy, Offers, NewRequest, Taken, ArmedKnown, NextCorrelation, OnlyActive;
      ghost var h, d, s, slot := controller.history, Waiters(), controller.Table(), registry.slots[index].value;
      var prepared := Prepare(controller, launch, requester, generation, imageLimit, a);
      StartNeeds(active, d, s, registry.slots, index, launch, requester, generation, now, imageLimit, a);
      DropKeepsActive(registry.slots, index, active);
      if prepared.Err? {
        registry.DropReservation(index, controller);
        return Err(prepared.error);
      }
      var p := prepared.value;
      NothingOpen(registry.slots, s, index);
      if slot.bytes == launch.sourceLen {
        StartableIff(d, s, slot, launch, requester, generation, now, imageLimit, a, p);
      }
      var offer := registry.Begin(index, controller, p.request, p.correlation, p.presenter, p.route, now, MAX_TIMEOUT_NS);
      StillKnown(h, controller.history, Begins(p.request.binding, p.presenter, p.route, now, MAX_TIMEOUT_NS), active);
      if offer.Err? { return Err(offer.error); }
      Enlist(p, offer.value, a);
      NothingArmedYet(controller.Table(), active);
      HeldIsActive(old(registry.slots), index, Held(offer.value, p.request, p.presenter), active.value);
      assert Occupied(registry.slots, old(registry.slots), index, p.request, Held(offer.value, p.request, p.presenter));
      r := Ok(if active.value.terminal.None? then Some(p.peer.instance.endpoint) else None);
    }
  }

  function Index(kind: Kind): (i: nat)
    ensures i < 2
  {
    match kind
    case Text => 0
    case Graphical => 1
  }

  /** A cleared reservation leaves only the active request. */
  lemma DropKeepsActive(slots: Slots, i: nat, active: Option<Active>)
    requires i < |slots| && OnlyActive(slots, active, i)
    ensures OnlyActive(slots[i := None], active, -1)
  {
  }

  /** A reservation turned into a held call is the active request. */
  lemma HeldIsActive(slots: Slots, i: nat, h: Held, active: Active)
    requires i < |slots| && OnlyActive(slots, None, i) && active.offer == h.offer && active.presenter == h.presenter
    ensures OnlyActive(slots[i := Some(Ready(h))], Some(active), -1)
  {
  }

  /** An approved proposal names a ticket that is still held, was bound to a session, and is now settled. */
  lemma ApprovalIsHeld(slots: Slots, x: Entry)
    requires Linked(slots, x.pre) && WellKept(x.pre) && IsStep(x)
    requires x.event.Propose? && x.response.Resolved? && x.response.outcome.Approved?
    ensures x.response.outcome.approval.correlation == x.event.correlation
    ensures x.event.current.session.Some? && x.post.lastNow == x.event.now
    ensures x.event.correlation.ticket.id !in x.post.live
    ensures exists i :: 0 <= i < |slots| && Matches(slots[i], x.event.correlation)
  {
    ApprovalIsArmed(x);
    AnswersSettle(x, x.event.correlation.ticket.id);
    ProposalIsBound(x);
    var i: nat :| ReadyAt(slots, i, x.event.correlation.ticket.id);
    assert Matches(slots[i], x.event.correlation);
  }

  lemma ProposalIsBound(x: Entry)
    requires IsStep(x) && Keyed(x.pre)
    requires x.event.Propose? && x.response.Resolved? && x.response.outcome.Approved?
    ensures x.event.current.session.Some? && x.post.lastNow == x.event.now
    ensures x.event.correlation.ticket.id in x.pre.live
    ensures x.pre.live[x.event.correlation.ticket.id].offer.correlation == x.event.correlation
    ensures x.response.outcome.approval.correlation == x.event.correlation
  {
    var Propose(peer, c, choice, current, now) := x.event;
    var (s1, found) := Enter(x.pre, c, now);
    assert found.Ok? && found.value.Matches(current);
  }

  datatype Source = Terminal(index: nat) | Presenting(index: nat)

  /** The one terminal that matches the requester, or else the presenter of the requester's kind. */
  ghost predicate ChosenBy(a: BeginAnswers, waiting: nat, from: Source) {
    match from
    case Terminal(i) =>
      i < waiting && a.textMatches(i) == Ok(true) && forall j: nat :: j < waiting && j != i ==> a.textMatches(j) == Ok(false)
    case Presenting(i) =>
      && (forall j: nat :: j < waiting ==> a.textMatches(j) == Ok(false))
      && a.requesterKind.Ok? && i == Index(a.requesterKind.value)
  }

  datatype Prepared = Prepared(from: Source, peer: Peer, request: Request, correlation: Correlation,
                               presenter: Presenter, route: InputRoute)
}
