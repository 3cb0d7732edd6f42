/**
What holds over every run of the consent protocol: an approval is always
preceded, in order, by its own offer, display, arming, release and press, and
a ticket that leaves the table never comes back.
*/
module ConsentRuns {
  import opened Base
  import opened ConsentModel

  /** One transition of a run with the states around it. */
  datatype Entry = Entry(pre: State, event: Event, response: Response, post: State)

  ghost function StateAt(t: seq<Entry>, n: nat): State
    requires n <= |t|
  {
    if n == 0 then INITIAL else t[n - 1].post
  }

  ghost predicate Legal(t: seq<Entry>, k: nat)
    requires k < |t|
  {
    t[k].pre == StateAt(t, k) && (t[k].post, t[k].response) == Step(t[k].pre, t[k].event)
  }

  ghost predicate IsRun(t: seq<Entry>) {
    forall k: nat :: k < |t| ==> Legal(t, k)
  }

  lemma RunExtends(t: seq<Entry>, x: Entry)
    requires IsRun(t) && x.pre == StateAt(t, |t|) && (x.post, x.response) == Step(x.pre, x.event)
    ensures IsRun(t + [x]) && StateAt(t + [x], |t| + 1) == x.post
  {
    hide Step;
    forall k: nat | k < |t| + 1 ensures Legal(t + [x], k) {
      if k < |t| { assert Legal(t, k); }
    }
  }

  /** Identifiers below the counter have been handed out; the counter stops instead of wrapping. */
  ghost predicate BelowCounter(s: State, id: u64) {
    s.nextId.None? || id < s.nextId.value
  }

  /** Every entry sits under its own identifier, which is also its display number. */
  ghost predicate Keyed(s: State) {
    forall id :: id in s.live ==> s.live[id].Id() == id && s.live[id].offer.correlation.display == id
  }

  ghost predicate WellKept(s: State) {
    && |s.live| <= MAX_PENDING
    && Keyed(s)
    && (forall id :: id in s.live ==> BelowCounter(s, id))
  }

  /** A renderer endpoint has at most one open question. */
  ghost predicate OneQuestionEach(s: State) {
    forall a, b :: a in s.live && b in s.live && a != b ==>
      s.live[a].presenter.instance.endpoint != s.live[b].presenter.instance.endpoint
  }

  /** The fixed part of a transaction: everything except its stage. */
  predicate SameTransaction(p: Pending, q: Pending) {
    p == q.(stage := p.stage)
  }

  /** The table only loses entries or moves the stage of the ones it keeps. */
  ghost predicate Narrows(s: State, s2: State) {
    && s2.live.Keys <= s.live.Keys
    && (forall id :: id in s2.live ==> SameTransaction(s.live[id], s2.live[id]))
    && s2.nextId == s.nextId
    && s.lastNow <= s2.lastNow
  }

  /** The table gains exactly the ticket numbered by the counter. */
  ghost predicate Issues(s: State, s2: State, offer: Offer) {
    && s.nextId.Some? && offer.correlation.ticket.id == s.nextId.value && offer.correlation.display == s.nextId.value
    && s2.live.Keys == s.live.Keys + {s.nextId.value}
    && (forall id :: id in s.live && id != s.nextId.value ==> s2.live[id] == s.live[id])
    && s2.live[s.nextId.value].offer == offer
    && s2.nextId == CheckedAdd(s.nextId.value, 1)
    && s.lastNow <= s2.lastNow
    && |s.live| < MAX_PENDING
  }

  lemma FeedbackNarrows(s: State, peer: Instance, c: Correlation, f: Feedback, current: Current, now: u64)
    ensures Narrows(s, DoFeedback(s, peer, c, f, current, now).0)
    ensures !DoFeedback(s, peer, c, f, current, now).1.Issued?
  {
  }

  lemma ArmNarrows(s: State, e: Event)
    requires e.Arm?
    ensures Narrows(s, Step(s, e).0) && !Step(s, e).1.Issued?
  {
  }

  lemma InputNarrows(s: State, e: Event)
    requires e.Input?
    ensures Narrows(s, Step(s, e).0) && !Step(s, e).1.Issued?
  {
  }

  lemma ProposeNarrows(s: State, peer: Instance, c: Correlation, choice: Choice, current: Current, now: u64)
    ensures Narrows(s, DoPropose(s, peer, c, choice, current, now).0)
    ensures !DoPropose(s, peer, c, choice, current, now).1.Issued?
  {
    var (s1, found) := Enter(s, c, now);
    FeedbackNarrows(s1, peer, c, Decision(Deny, 0), current, now);
    if found.Ok? && found.value.stage.Armed? && found.value.stage.presence.gesture.Some? {
      FeedbackNarrows(s1, peer, c, Decision(choice, found.value.stage.presence.gesture.value), current, now);
    }
  }

  lemma BeginIssues(s: State, b: Binding, p: Presenter, i: InputRoute, ch: set<Choice>, now: u64, timeout: u64,
                    challenge: Bytes32)
    ensures var r := DoBegin(s, b, p, i, ch, now, timeout, challenge);
      if r.1.Issued? then Issues(s, r.0, r.1.offer) && r.0.live[r.1.offer.correlation.ticket.id].stage == Offered
                          && BegunAt(Entry(s, Begin(b, p, i, ch, now, timeout, challenge), r.1, r.0),
                                     r.0.live[r.1.offer.correlation.ticket.id])
      else Narrows(s, r.0)
  {
  }

  lemma BeginAtIssues(s: State, e: Event)
    requires e.BeginAt?
    ensures var r := Step(s, e);
      if r.1.Issued? then Issues(s, r.0, r.1.offer) && r.0.live[r.1.offer.correlation.ticket.id].stage == Offered
                          && BegunAt(Entry(s, e, r.1, r.0), r.0.live[r.1.offer.correlation.ticket.id])
      else Narrows(s, r.0)
  {
    hide DoBegin, BegunAt;
    BeginIssues(s, e.binding, e.presenter, e.input, e.choices, e.now, e.timeout, e.correlation.ticket.challenge);
    BeginAtBegins(s, e);
  }

  lemma BeginAtBegins(s: State, e: Event)
    requires e.BeginAt?
    ensures var r := Step(s, e);
      r.1.Issued? ==> r.1.offer.correlation.ticket.id in r.0.live
                      && BegunAt(Entry(s, e, r.1, r.0), r.0.live[r.1.offer.correlation.ticket.id])
  {
  }

  lemma StepNarrowsOrIssues(s: State, e: Event)
    ensures var r := Step(s, e);
      if r.1.Issued? then Issues(s, r.0, r.1.offer) && r.0.live[r.1.offer.correlation.ticket.id].stage == Offered
                          && BegunAt(Entry(s, e, r.1, r.0), r.0.live[r.1.offer.correlation.ticket.id])
      else Narrows(s, r.0)
  {
    match e
    case Begin(b, p, i, ch, now, timeout, challenge) =>
      BeginIssues(s, b, p, i, ch, now, timeout, challenge);
      hide DoBegin;
    case BeginAt(_, _, _, _, _, _, _) => BeginAtIssues(s, e);
    case SendFeedback(peer, c, f, current, now) =>
      FeedbackNarrows(s, peer, c, f, current, now);
      hide DoFeedback;
    case Propose(peer, c, choice, current, now) =>
      ProposeNarrows(s, peer, c, choice, current, now);
      hide DoPropose;
    case Arm(_, _, _, _, _, _) => ArmNarrows(s, e);
    case Input(_, _, _, _, _, _) => InputNarrows(s, e);
    case _ =>
  }

  /** The clock of a run never goes back. */
  lemma {:induction false} ClockNeverGoesBack(t: seq<Entry>, i: nat, j: nat)
    requires IsRun(t) && i <= j <= |t|
    ensures StateAt(t, i).lastNow <= StateAt(t, j).lastNow
    decreases j
  {
    hide Step;
    if i < j {
      ClockNeverGoesBack(t, i, j - 1);
      assert Legal(t, j - 1);
      StepNarrowsOrIssues(t[j - 1].pre, t[j - 1].event);
    }
  }

  lemma StepKeepsTable(s: State, e: Event)
    requires WellKept(s)
    ensures var s2 := Step(s, e).0;
      && WellKept(s2)
      && (forall id :: BelowCounter(s, id) ==> BelowCounter(s2, id))
      && (forall id :: id in s2.live && id !in s.live ==> s.nextId == Some(id) && Step(s, e).1.Issued?)
  {
    hide Step;
    StepNarrowsOrIssues(s, e);
    var s2 := Step(s, e).0;
    if Step(s, e).1.Issued? {
      TableGrows(s, s2, Step(s, e).1.offer);
    } else {
      Shrinks(s2.live.Keys, s.live.Keys);
    }
  }

  lemma TableGrows(s: State, s2: State, offer: Offer)
    requires WellKept(s) && Issues(s, s2, offer)
    ensures WellKept(s2)
    ensures forall id :: BelowCounter(s, id) ==> BelowCounter(s2, id)
  {
  }

  lemma Shrinks(a: set<u64>, b: set<u64>)
    requires a <= b
    ensures |a| <= |b|
  {
    assert |b| == |a| + |b - a|;
  }

  lemma {:induction false} RunsKeepTable(t: seq<Entry>, n: nat)
    requires IsRun(t) && n <= |t|
    ensures WellKept(StateAt(t, n))
  {
    if n > 0 {
      RunsKeepTable(t, n - 1);
      assert Legal(t, n - 1);
      StepKeepsTable(t[n - 1].pre, t[n - 1].event);
    }
  }

  // The moments a transaction passes through, as entries of a run.

  predicate BegunAt(x: Entry, p: Pending) {
    && x.response == Issued(p.offer)
    && match x.event
       case Begin(binding, presenter, input, choices, now, timeout, challenge) =>
         && binding == p.binding && presenter == p.presenter && input == p.input
         && choices == p.offer.choices && p.offer.deadline == now + timeout && timeout <= MAX_TIMEOUT_NS
       case BeginAt(correlation, binding, presenter, input, choices, now, timeout) =>
         && binding == p.binding && presenter == p.presenter && input == p.input
         && choices == p.offer.choices && p.offer.deadline == now + timeout && timeout <= MAX_TIMEOUT_NS
         && correlation == p.offer.correlation
       case _ => false
  }

  predicate ShownAt(x: Entry, p: Pending) {
    && x.response == Resolved(StillPending)
    && x.event.SendFeedback?
    && x.event.peer == p.presenter.instance
    && x.event.correlation == p.offer.correlation
    && x.event.feedback == Presented
    && p.Matches(x.event.current)
  }

  predicate ArmedAt(x: Entry, p: Pending) {
    && x.response == Done
    && x.event.Arm?
    && x.event.peer == p.input.source
    && x.event.correlation == p.offer.correlation
    && x.event.route == p.input
  }

  predicate InputAt(x: Entry, p: Pending, transition: Transition) {
    && x.response == Done
    && x.event.Input?
    && x.event.peer == p.input.source
    && x.event.correlation == p.offer.correlation
    && x.event.route == p.input
    && x.event.transition == transition
  }

  /** Entry `k` is a moment at which the authority saw every key released, no earlier than arming. */
  predicate ReleasedAt(t: seq<Entry>, armed: nat, k: nat, p: Pending)
    requires armed <= k < |t|
  {
    if k == armed then t[k].event.Arm? && t[k].event.allReleased else InputAt(t[k], p, AllReleased)
  }

  predicate NoPressBetween(t: seq<Entry>, from: nat, to: nat, p: Pending)
    requires to <= |t|
  {
    forall k :: from < k < to ==> !InputAt(t[k], p, PhysicalPress)
  }

  /** Positions in a run that explain the present stage of a transaction. */
  datatype Chronicle = Chronicle(begun: nat, shown: nat, armed: nat, quiet: nat, calm: nat, pressed: nat)

  /** A release with no press after it, then a press newer than the arming snapshot. */
  predicate FreshPress(t: seq<Entry>, n: nat, c: Chronicle, p: Pending, gesture: u64)
    requires n <= |t|
  {
    && c.armed <= c.calm < c.pressed < n
    && ReleasedAt(t, c.armed, c.calm, p)
    && NoPressBetween(t, c.calm, c.pressed, p)
    && InputAt(t[c.pressed], p, PhysicalPress)
    && t[c.pressed].event.serial == gesture
    && t[c.armed].event.Arm?
    && t[c.armed].event.serial < gesture
  }

  predicate Explains(t: seq<Entry>, n: nat, c: Chronicle, p: Pending)
    requires n <= |t|
  {
    && c.begun < n && BegunAt(t[c.begun], p)
    && (p.stage != Offered ==> c.begun < c.shown < n && ShownAt(t[c.shown], p))
    && (p.stage.Armed? ==>
          && c.shown < c.armed < n && ArmedAt(t[c.armed], p)
          && t[c.armed].event.serial <= p.stage.presence.serial
          && (p.stage.presence.released ==>
                c.armed <= c.quiet < n && ReleasedAt(t, c.armed, c.quiet, p) && NoPressBetween(t, c.quiet, n, p))
          && (p.stage.presence.gesture.Some? ==> FreshPress(t, n, c, p, p.stage.presence.gesture.value)))
  }

  ghost predicate IsStep(x: Entry) {
    (x.post, x.response) == Step(x.pre, x.event)
  }

  /** An entry that accepts a press for `p` leaves its presence unreleased. */
  lemma PressClearsRelease(x: Entry, p: Pending)
    requires IsStep(x) && Keyed(x.pre) && InputAt(x, p, PhysicalPress)
    ensures p.Id() in x.post.live
    ensures x.post.live[p.Id()].stage.Armed? && !x.post.live[p.Id()].stage.presence.released
  {
  }

  /** The ways entry `x` may take a surviving transaction from `p` to `q`. */
  predicate Moves(x: Entry, p: Pending, q: Pending) {
    || q == p
    || (p.stage == Offered && q == p.(stage := Shown) && ShownAt(x, p))
    || (p.stage == Shown && ArmedAt(x, p) && q == p.(stage := Armed(Presence(x.event.serial, x.event.allReleased, None))))
    || (p.stage.Armed? && x.event.Input? && InputAt(x, p, x.event.transition)
        && p.stage.presence.serial < x.event.serial
        && q == p.(stage := Armed(Observed(p.stage.presence, x.event.serial, x.event.transition))))
  }

  lemma DecisionKeepsOthers(s: State, peer: Instance, c: Correlation, choice: Choice, gesture: u64, current: Current,
                            now: u64, id: u64)
    requires id in DoFeedback(s, peer, c, Decision(choice, gesture), current, now).0.live
    ensures id in s.live && DoFeedback(s, peer, c, Decision(choice, gesture), current, now).0.live[id] == s.live[id]
  {
  }

  lemma ProposeKeepsOthers(x: Entry, id: u64)
    requires IsStep(x) && x.event.Propose? && id in x.post.live
    ensures id in x.pre.live && x.post.live[id] == x.pre.live[id]
  {
    var Propose(peer, c, choice, current, now) := x.event;
    var (s1, found) := Enter(x.pre, c, now);
    var gesture := if choice != Deny && found.Ok? && found.value.stage.Armed? && found.value.stage.presence.gesture.Some?
                   then found.value.stage.presence.gesture.value else 0;
    if id in DoFeedback(s1, peer, c, Decision(choice, gesture), current, now).0.live {
      DecisionKeepsOthers(s1, peer, c, choice, gesture, current, now, id);
    }
    hide DoFeedback;
  }

  lemma FeedbackMoves(x: Entry, id: u64)
    requires IsStep(x) && Keyed(x.pre) && x.event.SendFeedback? && id in x.post.live
    ensures id in x.pre.live && Moves(x, x.pre.live[id], x.post.live[id])
  {
  }

  lemma ArmMoves(x: Entry, id: u64)
    requires IsStep(x) && Keyed(x.pre) && x.event.Arm? && id in x.post.live
    ensures id in x.pre.live && Moves(x, x.pre.live[id], x.post.live[id])
  {
  }

  lemma InputMoves(x: Entry, id: u64)
    requires IsStep(x) && Keyed(x.pre) && x.event.Input? && id in x.post.live
    ensures id in x.pre.live && Moves(x, x.pre.live[id], x.post.live[id])
  {
  }

  lemma BeginMoves(x: Entry, id: u64)
    requires IsStep(x) && WellKept(x.pre) && (x.event.Begin? || x.event.BeginAt?)
    requires id in x.pre.live && id in x.post.live
    ensures Moves(x, x.pre.live[id], x.post.live[id])
  {
  }

  lemma QuietMoves(x: Entry, id: u64)
    requires IsStep(x) && (x.event.Cancel? || x.event.Expire? || x.event.Observe? || x.event.Time?)
    requires id in x.post.live
    ensures id in x.pre.live && Moves(x, x.pre.live[id], x.post.live[id])
  {
  }

  lemma StageMoves(x: Entry, id: u64)
    requires IsStep(x) && WellKept(x.pre) && id in x.pre.live && id in x.post.live
    ensures Moves(x, x.pre.live[id], x.post.live[id])
  {
    hide Step;
    match x.event
    case SendFeedback(_, _, _, _, _) => FeedbackMoves(x, id);
    case Propose(_, _, _, _, _) => ProposeKeepsOthers(x, id);
    case Arm(_, _, _, _, _, _) => ArmMoves(x, id);
    case Input(_, _, _, _, _, _) => InputMoves(x, id);
    case Begin(_, _, _, _, _, _, _) => BeginMoves(x, id);
    case BeginAt(_, _, _, _, _, _, _) => BeginMoves(x, id);
    case _ => QuietMoves(x, id);
  }

  predicate ArmedIn(s: State, id: u64) { id in s.live && s.live[id].stage.Armed? }

  /** Only arming makes a ticket armed. */
  lemma OnlyArmingArms(x: Entry, id: u64)
    requires IsStep(x) && WellKept(x.pre) && !x.event.Arm? && ArmedIn(x.post, id)
    ensures ArmedIn(x.pre, id)
  {
    hide Step, IsStep;
    if id in x.pre.live { StageMoves(x, id); } else { StepAdds(x, id); }
  }

  /** A ticket that was not open before a step is offered after it. */
  lemma StepAdds(x: Entry, id: u64)
    requires IsStep(x) && WellKept(x.pre) && id in x.post.live && id !in x.pre.live
    ensures x.post.live[id].stage == Offered
  {
    hide Step;
    StepNarrowsOrIssues(x.pre, x.event);
  }

  lemma {:induction false} NoNewArms(t: seq<Entry>, i: nat, j: nat, id: u64)
    requires IsRun(t) && i <= j <= |t| && forall k: nat :: i <= k < j ==> !t[k].event.Arm?
    requires ArmedIn(StateAt(t, j), id)
    ensures ArmedIn(StateAt(t, i), id)
    decreases j
  {
    hide Step, ArmedIn, WellKept;
    if i < j {
      assert Legal(t, j - 1);
      RunsKeepTable(t, j - 1);
      OnlyArmingArms(t[j - 1], id);
      NoNewArms(t, i, j - 1, id);
    }
  }

  lemma {:induction false} EveryStageIsExplained(t: seq<Entry>, n: nat, id: u64) returns (c: Chronicle)
    requires IsRun(t) && n <= |t|
    requires id in StateAt(t, n).live
    ensures Explains(t, n, c, StateAt(t, n).live[id])
  {
    hide Step;
    var k := n - 1;
    var x := t[k];
    assert Legal(t, k);
    RunsKeepTable(t, k);
    StepNarrowsOrIssues(x.pre, x.event);
    if id !in x.pre.live {
      c := Chronicle(k, 0, 0, 0, 0, 0);
      assert BegunAt(x, x.post.live[id]);
    } else {
      var before := EveryStageIsExplained(t, k, id);
      StageMoves(x, id);
      c := Advance(t, k, before, x.pre.live[id], x.post.live[id]);
    }
  }

  /** One more entry: the positions that explain `p` before it become positions that explain `q` after it. */
  lemma Advance(t: seq<Entry>, k: nat, before: Chronicle, p: Pending, q: Pending) returns (c: Chronicle)
    requires k < |t| && Explains(t, k, before, p)
    requires IsStep(t[k]) && Keyed(t[k].pre)
    requires p.Id() in t[k].post.live && t[k].post.live[p.Id()] == q
    requires Moves(t[k], p, q)
    ensures Explains(t, k + 1, c, q)
  {
    hide Step;
    if q == p {
      c := before;
      if InputAt(t[k], p, PhysicalPress) { PressClearsRelease(t[k], p); }
    } else if p.stage == Offered {
      c := before.(shown := k);
    } else if p.stage == Shown {
      c := before.(armed := k, quiet := k);
    } else {
      c := AfterInput(t, k, before, p);
    }
  }

  lemma AfterInput(t: seq<Entry>, k: nat, c: Chronicle, p: Pending) returns (c': Chronicle)
    requires k < |t| && p.stage.Armed? && Explains(t, k, c, p)
    requires t[k].event.Input? && InputAt(t[k], p, t[k].event.transition)
    requires p.stage.presence.serial < t[k].event.serial
    ensures Explains(t, k + 1, c',
              p.(stage := Armed(Observed(p.stage.presence, t[k].event.serial, t[k].event.transition))))
  {
    match t[k].event.transition
    case AllReleased => c' := c.(quiet := k);
    case PhysicalPress =>
      c' := if p.stage.presence.released then c.(calm := c.quiet, pressed := k) else c;
    case _ => c' := c;
  }

  /** The whole causal order behind an approval answered at entry `k`. */
  predicate Witnessed(t: seq<Entry>, k: nat, c: Chronicle, p: Pending, a: Approval)
    requires k < |t|
  {
    && c.begun < c.shown < c.armed < c.pressed < k
    && BegunAt(t[c.begun], p)
    && ShownAt(t[c.shown], p)
    && ArmedAt(t[c.armed], p)
    && p.stage.Armed? && p.stage.presence.gesture.Some?
    && FreshPress(t, k, c, p, p.stage.presence.gesture.value)
    && a == Approval(p.binding, a.choice, p.offer.correlation)
    && a.choice in p.offer.choices && a.choice != Deny
    && t[k].post.lastNow < p.offer.deadline
    && DecidedBy(t[k].event, p, a.choice)
  }

  /** The bound presenter decides, and what it observes still matches the request. */
  predicate DecidedBy(e: Event, p: Pending, choice: Choice) {
    match e
    case Propose(peer, c, proposed, current, _) =>
      peer == p.presenter.instance && c == p.offer.correlation && p.Matches(current) && proposed == choice
    case SendFeedback(peer, c, f, current, _) =>
      && peer == p.presenter.instance && c == p.offer.correlation && p.Matches(current)
      && f.Decision? && f.choice == choice
    case _ => false
  }

  lemma ApprovalIsArmed(x: Entry)
    requires IsStep(x) && Keyed(x.pre)
    requires x.response.Resolved? && x.response.outcome.Approved?
    ensures var a := x.response.outcome.approval;
      && a.correlation.ticket.id in x.pre.live
      && var p := x.pre.live[a.correlation.ticket.id];
      && p.stage.Armed? && p.stage.presence.gesture.Some?
      && a == Approval(p.binding, a.choice, p.offer.correlation)
      && a.choice in p.offer.choices && a.choice != Deny
      && x.post.lastNow < p.offer.deadline
      && DecidedBy(x.event, p, a.choice)
  {
    hide DoFeedback, DoPropose;
    match x.event
    case SendFeedback(peer, c, f, current, now) => DecisionIsArmed(x.pre, peer, c, f, current, now);
    case Propose(peer, c, choice, current, now) => ProposalIsArmed(x.pre, peer, c, choice, current, now);
    case _ =>
  }

  lemma ProposalIsArmed(s: State, peer: Instance, c: Correlation, choice: Choice, current: Current, now: u64)
    requires Keyed(s)
    requires var r := DoPropose(s, peer, c, choice, current, now).1; r.Resolved? && r.outcome.Approved?
    ensures var (s2, r) := DoPropose(s, peer, c, choice, current, now);
      ArmedDecision(s, s2, peer, c, current, choice, r.outcome.approval)
  {
    hide DoFeedback;
    var (s1, found) := Enter(s, c, now);
    var gesture := if choice != Deny && found.Ok? && found.value.stage.Armed? && found.value.stage.presence.gesture.Some?
                   then found.value.stage.presence.gesture.value else 0;
    DecisionIsArmed(s1, peer, c, Decision(choice, gesture), current, now);
  }

  /** The approval answers the armed ticket that `c` names, before its deadline, on the word of its presenter. */
  predicate ArmedDecision(s: State, s2: State, peer: Instance, c: Correlation, current: Current, choice: Choice,
                          a: Approval)
  {
    && a.correlation == c && c.ticket.id in s.live
    && var p := s.live[c.ticket.id];
    && p.stage.Armed? && p.stage.presence.gesture.Some?
    && a == Approval(p.binding, choice, p.offer.correlation)
    && choice in p.offer.choices && choice != Deny
    && s2.lastNow < p.offer.deadline
    && peer == p.presenter.instance && p.Matches(current)
  }

  /** When a proposal is approved: in time, by the bound presenter, in the bound world, armed and freshly confirmed. */
  predicate Approvable(s: State, peer: Instance, c: Correlation, choice: Choice, current: Current, now: u64) {
    && s.lastNow <= now && Locate(s, c).Ok?
    && var p := s.live[c.ticket.id];
    && now < p.offer.deadline && peer == p.presenter.instance && p.Matches(current)
    && choice != Deny && choice in p.offer.choices
    && p.stage.Armed? && p.stage.presence.gesture.Some? && p.stage.presence.gesture.value != 0
  }

  /** Nothing else decides it. */
  lemma ProposalApprovedIff(s: State, peer: Instance, c: Correlation, choice: Choice, current: Current, now: u64)
    ensures var r := DoPropose(s, peer, c, choice, current, now).1;
      r.Resolved? && r.outcome.Approved? <==> Approvable(s, peer, c, choice, current, now)
    ensures Approvable(s, peer, c, choice, current, now) ==>
      var p := s.live[c.ticket.id];
      DoPropose(s, peer, c, choice, current, now).1 == Resolved(Approved(Approval(p.binding, choice, p.offer.correlation)))
  {
  }

  lemma DecisionIsArmed(s: State, peer: Instance, c: Correlation, f: Feedback, current: Current, now: u64)
    requires Keyed(s)
    requires var r := DoFeedback(s, peer, c, f, current, now).1; r.Resolved? && r.outcome.Approved?
    ensures var (s2, r) := DoFeedback(s, peer, c, f, current, now);
      f.Decision? && ArmedDecision(s, s2, peer, c, current, f.choice, r.outcome.approval)
  {
  }

  /** Main result: no approval without its complete, ordered evidence of human presence. */
  lemma ApprovalIsWitnessed(t: seq<Entry>, k: nat)
    requires IsRun(t) && k < |t|
    requires t[k].response.Resolved? && t[k].response.outcome.Approved?
    ensures exists c, p :: Witnessed(t, k, c, p, t[k].response.outcome.approval)
  {
    hide Step;
    assert Legal(t, k);
    RunsKeepTable(t, k);
    var a := t[k].response.outcome.approval;
    var id := a.correlation.ticket.id;
    ApprovalIsArmed(t[k]);
    var p := t[k].pre.live[id];
    var c := EveryStageIsExplained(t, k, id);
    assert Witnessed(t, k, c, p, a);
  }

  /** A ticket absent from the table although its number was handed out stays absent. */
  lemma {:induction false} GoneStaysGone(t: seq<Entry>, i: nat, j: nat, id: u64)
    requires IsRun(t) && i <= j <= |t|
    requires BelowCounter(StateAt(t, i), id) && id !in StateAt(t, i).live
    ensures id !in StateAt(t, j).live && BelowCounter(StateAt(t, j), id)
    decreases j - i
  {
    hide Step, WellKept;
    if i < j {
      RunsKeepTable(t, i);
      assert Legal(t, i);
      StepKeepsTable(t[i].pre, t[i].event);
      GoneStaysGone(t, i + 1, j, id);
    }
  }

  /** The ticket that entry `x` takes out of the table, whatever the reason. */
  predicate Settles(x: Entry, id: u64) {
    id in x.pre.live && id !in x.post.live
  }

  /** The event is about the ticket with this number. */
  predicate Names(e: Event, id: u64) {
    match e
    case SendFeedback(_, c, _, _, _) => c.ticket.id == id
    case Propose(_, c, _, _, _) => c.ticket.id == id
    case Arm(_, c, _, _, _, _) => c.ticket.id == id
    case Input(_, c, _, _, _, _) => c.ticket.id == id
    case Cancel(_, c) => c.ticket.id == id
    case _ => false
  }

  /** The answer says that ticket `id` is over: decided, dismissed, cancelled, expired, changed or swept. */
  predicate Ends(e: Event, r: Response, id: u64) {
    match r
    case Swept(gone) => id in gone
    case Cancelled(_) => Names(e, id)
    case Resolved(outcome) => outcome != StillPending && Names(e, id)
    case Failed(error) => (error == Expired || error == Changed) && Names(e, id)
    case _ => false
  }

  lemma FeedbackSettles(s: State, peer: Instance, c: Correlation, f: Feedback, current: Current, now: u64, id: u64)
    requires id in s.live
    ensures var (s2, r) := DoFeedback(s, peer, c, f, current, now);
      !r.Swept? && (id !in s2.live <==> Ends(SendFeedback(peer, c, f, current, now), r, id))
  {
  }

  lemma ProposeSettles(s: State, peer: Instance, c: Correlation, choice: Choice, current: Current, now: u64, id: u64)
    requires id in s.live
    ensures var (s2, r) := DoPropose(s, peer, c, choice, current, now);
      id !in s2.live <==> Ends(Propose(peer, c, choice, current, now), r, id)
  {
    hide DoFeedback;
    var (s1, found) := Enter(s, c, now);
    if found.Ok? {
      var gesture := if choice != Deny && found.value.stage.Armed? && found.value.stage.presence.gesture.Some?
                     then found.value.stage.presence.gesture.value else 0;
      FeedbackSettles(s1, peer, c, Decision(choice, gesture), current, now, id);
    }
  }

  lemma InputSettles(s: State, peer: Instance, c: Correlation, route: InputRoute, serial: u64, transition: Transition,
                     released: bool, now: u64, id: u64)
    requires id in s.live
    ensures var (s2, r) := DoInput(s, peer, c, route, serial, transition, now);
      id !in s2.live <==> Ends(Input(peer, c, route, serial, transition, now), r, id)
    ensures var (s2, r) := DoArm(s, peer, c, route, serial, released, now);
      id !in s2.live <==> Ends(Arm(peer, c, route, serial, released, now), r, id)
  {
  }

  lemma BeginSettlesNone(s: State, e: Event, id: u64)
    requires (e.Begin? || e.BeginAt?) && id in s.live && s.nextId != Some(id)
    ensures var (s2, r) := Step(s, e); id in s2.live && !Ends(e, r, id)
  {
  }

  /** A ticket leaves the table exactly in the step whose answer says that it is over. */
  lemma AnswersSettle(x: Entry, id: u64)
    requires IsStep(x) && WellKept(x.pre)
    ensures Settles(x, id) <==> id in x.pre.live && Ends(x.event, x.response, id)
  {
    hide DoFeedback, DoPropose, DoArm, DoInput, DoBegin, DoBeginAt;
    if id in x.pre.live {
      match x.event
      case SendFeedback(peer, c, f, current, now) => FeedbackSettles(x.pre, peer, c, f, current, now, id);
      case Propose(peer, c, choice, current, now) => ProposeSettles(x.pre, peer, c, choice, current, now, id);
      case Arm(peer, c, route, serial, released, now) =>
        InputSettles(x.pre, peer, c, route, serial, AllReleased, released, now, id);
      case Input(peer, c, route, serial, transition, now) =>
        InputSettles(x.pre, peer, c, route, serial, transition, false, now, id);
      case Begin(_, _, _, _, _, _, _) => BeginSettlesNone(x.pre, x.event, id);
      case BeginAt(_, _, _, _, _, _, _) => BeginSettlesNone(x.pre, x.event, id);
      case _ =>
    }
  }

  /** No ticket is settled twice. */
  lemma TicketsSettleOnce(t: seq<Entry>, i: nat, j: nat, id: u64)
    requires IsRun(t) && i < j < |t|
    requires Settles(t[i], id)
    ensures !Settles(t[j], id)
  {
    hide Step;
    assert Legal(t, i) && Legal(t, j);
    RunsKeepTable(t, i);
    StepKeepsTable(t[i].pre, t[i].event);
    GoneStaysGone(t, i + 1, j, id);
  }

  /** No identifier is issued twice. */
  lemma IdentifiersAreFresh(t: seq<Entry>, i: nat, j: nat)
    requires IsRun(t) && i < j < |t|
    requires t[i].response.Issued? && t[j].response.Issued?
    ensures t[i].response.offer.correlation.ticket.id != t[j].response.offer.correlation.ticket.id
  {
    hide Step, Narrows;
    assert Legal(t, i) && Legal(t, j);
    StepNarrowsOrIssues(t[i].pre, t[i].event);
    StepNarrowsOrIssues(t[j].pre, t[j].event);
    CounterOnlyGrows(t, i + 1, j, t[i].response.offer.correlation.ticket.id);
  }

  lemma {:induction false} CounterOnlyGrows(t: seq<Entry>, i: nat, j: nat, id: u64)
    requires IsRun(t) && i <= j <= |t| && BelowCounter(StateAt(t, i), id)
    ensures BelowCounter(StateAt(t, j), id)
    decreases j - i
  {
    hide Step, WellKept;
    if i < j {
      RunsKeepTable(t, i);
      assert Legal(t, i);
      StepKeepsTable(t[i].pre, t[i].event);
      CounterOnlyGrows(t, i + 1, j, id);
    }
  }

  lemma StepAsksOneQuestionEach(s: State, e: Event)
    requires WellKept(s) && OneQuestionEach(s)
    ensures OneQuestionEach(Step(s, e).0)
  {
    hide Step;
    StepNarrowsOrIssues(s, e);
    if Step(s, e).1.Issued? { NewQuestionIsApart(s, e); }
  }

  lemma NewQuestionIsApart(s: State, e: Event)
    requires Step(s, e).1.Issued?
    ensures s.nextId.Some? && s.nextId.value in Step(s, e).0.live
    ensures forall id :: id in s.live ==>
      s.live[id].presenter.instance.endpoint != Step(s, e).0.live[s.nextId.value].presenter.instance.endpoint
  {
    StepNarrowsOrIssues(s, e);
  }

  /** In every reachable state each renderer endpoint has at most one open question. */
  lemma {:induction false} RunsAskOneQuestionEach(t: seq<Entry>, n: nat)
    requires IsRun(t) && n <= |t|
    ensures OneQuestionEach(StateAt(t, n))
  {
    hide Step;
    if n > 0 {
      RunsAskOneQuestionEach(t, n - 1);
      RunsKeepTable(t, n - 1);
      assert Legal(t, n - 1);
      StepAsksOneQuestionEach(t[n - 1].pre, t[n - 1].event);
    }
  }
}
