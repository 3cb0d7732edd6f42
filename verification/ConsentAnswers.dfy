/**
What a run obliges the consent controller to answer. `ConsentRuns` shows that
an approval has its evidence in the run; here the evidence is shown to be
enough: whoever displayed, armed and pressed in order is answered.
*/
module ConsentAnswers {
  import opened Base
  import opened ConsentModel
  import opened ConsentRuns

  /** The ticket of `p` is open after the first `n` entries. */
  predicate OpenAt(t: seq<Entry>, n: nat, p: Pending)
    requires n <= |t|
  {
    var live := if n == 0 then INITIAL.live else t[n - 1].post.live;
    p.Id() in live && SameTransaction(p, live[p.Id()])
  }

  /** The display notice, arming, release and press of an open ticket, accepted in this order before entry `k`. */
  predicate Attested(t: seq<Entry>, k: nat, c: Chronicle, p: Pending)
    requires k <= |t|
  {
    && OpenAt(t, k, p)
    && c.begun < c.shown < c.armed < k
    && BegunAt(t[c.begun], p) && ShownAt(t[c.shown], p) && ArmedAt(t[c.armed], p)
    && exists gesture: u64 :: FreshPress(t, k, c, p, gesture)
  }

  // How far a ticket has come.

  function Rank(stage: Stage): nat {
    match stage
    case Offered => 0
    case Shown => 1
    case Armed(presence) => if presence.gesture.None? then 2 else 3
  }

  predicate Further(a: Stage, b: Stage) {
    && Rank(a) <= Rank(b)
    && (a.Armed? ==> b.Armed? && a.presence.serial <= b.presence.serial)
    && (a.Armed? && a.presence.gesture.Some? && a.presence.gesture.value != 0 ==>
          b.presence.gesture.Some? && b.presence.gesture.value != 0)
  }

  lemma MovesFurther(x: Entry, p: Pending, q: Pending)
    requires Moves(x, p, q)
    ensures Further(p.stage, q.stage)
  {
  }

  /** A ticket open early and late was open in between. */
  lemma OpenBetween(t: seq<Entry>, i: nat, j: nat, n: nat, id: u64)
    requires IsRun(t) && i <= j <= n <= |t| && id in StateAt(t, i).live && id in StateAt(t, n).live
    ensures id in StateAt(t, j).live
  {
    hide Step;
    RunsKeepTable(t, i);
    CounterOnlyGrows(t, i, j, id);
    if id !in StateAt(t, j).live { GoneStaysGone(t, j, n, id); }
  }

  lemma {:induction false} StagesAdvance(t: seq<Entry>, i: nat, n: nat, id: u64)
    requires IsRun(t) && i <= n <= |t| && id in StateAt(t, i).live && id in StateAt(t, n).live
    ensures Further(StateAt(t, i).live[id].stage, StateAt(t, n).live[id].stage)
    ensures SameTransaction(StateAt(t, i).live[id], StateAt(t, n).live[id])
  {
    hide Step, Moves, WellKept;
    if i < n {
      OpenBetween(t, i, n - 1, n, id);
      StagesAdvance(t, i, n - 1, id);
      StageAdvances(t, n - 1, id);
    }
  }

  lemma StageAdvances(t: seq<Entry>, k: nat, id: u64)
    requires IsRun(t) && k < |t| && id in StateAt(t, k).live && id in StateAt(t, k + 1).live
    ensures Moves(t[k], StateAt(t, k).live[id], StateAt(t, k + 1).live[id])
    ensures Further(StateAt(t, k).live[id].stage, StateAt(t, k + 1).live[id].stage)
    ensures SameTransaction(StateAt(t, k).live[id], StateAt(t, k + 1).live[id])
  {
    hide Step, Further;
    assert Legal(t, k);
    RunsKeepTable(t, k);
    StageMoves(t[k], id);
    MovesFurther(t[k], StateAt(t, k).live[id], StateAt(t, k + 1).live[id]);
  }

  // What the accepted entries of a ticket leave behind.

  lemma ShownLeaves(x: Entry, p: Pending)
    requires IsStep(x) && Keyed(x.pre) && ShownAt(x, p)
    ensures p.Id() in x.post.live && x.post.live[p.Id()].stage == Shown
  {
  }

  lemma ArmedLeaves(x: Entry, p: Pending)
    requires IsStep(x) && Keyed(x.pre) && ArmedAt(x, p)
    ensures p.Id() in x.post.live
    ensures x.post.live[p.Id()].stage == Armed(Presence(x.event.serial, x.event.allReleased, None))
  {
  }

  lemma InputLeaves(x: Entry, p: Pending, transition: Transition)
    requires IsStep(x) && Keyed(x.pre) && InputAt(x, p, transition)
    ensures p.Id() in x.pre.live && p.Id() in x.post.live
    ensures x.pre.live[p.Id()].stage.Armed? && x.post.live[p.Id()].stage.Armed?
    ensures var before, after := x.pre.live[p.Id()].stage.presence, x.post.live[p.Id()].stage.presence;
      && before.serial < x.event.serial == after.serial
      && (transition == AllReleased ==> after.released)
      && (transition == PhysicalPress && before.released ==> after.gesture == Some(x.event.serial))
  {
  }

  /** Released keys stay released until the next accepted press. */
  lemma {:induction false} StaysReleased(t: seq<Entry>, i: nat, n: nat, p: Pending)
    requires IsRun(t) && i <= n <= |t| && p.Id() in StateAt(t, i).live && OpenAt(t, n, p)
    requires forall k :: i <= k < n ==> !InputAt(t[k], p, PhysicalPress)
    requires var stage := StateAt(t, i).live[p.Id()].stage; stage.Armed? && stage.presence.released
    ensures var stage := StateAt(t, n).live[p.Id()].stage; stage.Armed? && stage.presence.released
  {
    hide Step, WellKept;
    if i < n {
      OpenBetween(t, i, n - 1, n, p.Id());
      StageAdvances(t, n - 1, p.Id());
      StaysReleased(t, i, n - 1, p);
    }
  }

  /** A fresh press of a ticket that is still open has been recorded, under a serial that is not zero. */
  lemma PressIsRecorded(t: seq<Entry>, k: nat, c: Chronicle, p: Pending, gesture: u64)
    requires IsRun(t) && k <= |t| && OpenAt(t, k, p) && c.armed < k && ArmedAt(t[c.armed], p)
    requires FreshPress(t, k, c, p, gesture)
    ensures var stage := StateAt(t, k).live[p.Id()].stage;
      stage.Armed? && stage.presence.gesture.Some? && stage.presence.gesture.value != 0
  {
    hide Step, WellKept, Moves;
    var id := p.Id();
    assert Legal(t, c.armed) && Legal(t, c.calm) && Legal(t, c.pressed);
    RunsKeepKeys(t, c.armed);
    RunsKeepKeys(t, c.calm);
    RunsKeepKeys(t, c.pressed);
    ArmedLeaves(t[c.armed], p);
    if c.calm > c.armed { InputLeaves(t[c.calm], p, AllReleased); }
    InputLeaves(t[c.pressed], p, PhysicalPress);
    StagesAdvance(t, c.pressed, k, id);
    StaysReleased(t, c.calm + 1, c.pressed, p);
    StagesAdvance(t, c.pressed + 1, k, id);
  }

  lemma RunsKeepKeys(t: seq<Entry>, n: nat)
    requires IsRun(t) && n <= |t|
    ensures Keyed(StateAt(t, n))
  {
    RunsKeepTable(t, n);
  }

  /** The proposal of the bound presenter: in time, an offered choice, and a world that still matches. */
  predicate Proposes(t: seq<Entry>, k: nat, p: Pending)
    requires k < |t|
  {
    && t[k].event.Propose? && t[k].event.peer == p.presenter.instance && t[k].event.correlation == p.offer.correlation
    && p.Matches(t[k].event.current)
    && t[k].event.choice != Deny && t[k].event.choice in p.offer.choices
    && t[k].pre.lastNow <= t[k].event.now < p.offer.deadline
  }

  /** Main result: complete evidence is enough. The bound presenter's proper proposal is approved. */
  lemma AttestedIsApproved(t: seq<Entry>, k: nat, c: Chronicle, p: Pending)
    requires IsRun(t) && k < |t| && Attested(t, k, c, p) && Proposes(t, k, p)
    ensures t[k].response == Resolved(Approved(Approval(p.binding, t[k].event.choice, p.offer.correlation)))
  {
    hide DoPropose, FreshPress, WellKept;
    assert Legal(t, k);
    RunsKeepKeys(t, k);
    var gesture: u64 :| FreshPress(t, k, c, p, gesture);
    PressIsRecorded(t, k, c, p, gesture);
    var Propose(peer, correlation, choice, current, now) := t[k].event;
    ProposalApprovedIff(t[k].pre, peer, correlation, choice, current, now);
  }

  /** A proposal is approved if and only if the run attests the ticket and the proposal is proper. */
  lemma ApprovedIffAttested(t: seq<Entry>, k: nat)
    requires IsRun(t) && k < |t| && t[k].event.Propose?
    ensures (t[k].response.Resolved? && t[k].response.outcome.Approved?)
            <==> exists c, p :: Attested(t, k, c, p) && Proposes(t, k, p)
  {
    hide Step, WellKept;
    if t[k].response.Resolved? && t[k].response.outcome.Approved? {
      assert Legal(t, k);
      RunsKeepKeys(t, k);
      var a := t[k].response.outcome.approval;
      ApprovalIsArmed(t[k]);
      var p := t[k].pre.live[a.correlation.ticket.id];
      var c := EveryStageIsExplained(t, k, a.correlation.ticket.id);
      assert FreshPress(t, k, c, p, p.stage.presence.gesture.value);
      ProposedInTime(t[k]);
      assert Attested(t, k, c, p) && Proposes(t, k, p);
    } else if c, p :| Attested(t, k, c, p) && Proposes(t, k, p) {
      AttestedIsApproved(t, k, c, p);
    }
  }

  lemma ProposedInTime(x: Entry)
    requires IsStep(x) && x.event.Propose? && x.response.Resolved?
    ensures x.pre.lastNow <= x.event.now == x.post.lastNow
  {
  }

  // When the display notice, the arming and the input of an open ticket are accepted.

  predicate InTime(x: Entry, now: u64, p: Pending) { x.pre.lastNow <= now < p.offer.deadline }

  ghost predicate HasShown(t: seq<Entry>, n: nat, p: Pending)
    requires n <= |t|
  {
    exists k :: 0 <= k < n && ShownAt(t[k], p)
  }

  ghost predicate HasArmed(t: seq<Entry>, n: nat, p: Pending)
    requires n <= |t|
  {
    exists k :: 0 <= k < n && ArmedAt(t[k], p)
  }

  /** An accepted message of the input authority. */
  predicate Heard(x: Entry, p: Pending) {
    ArmedAt(x, p) || (x.event.Input? && InputAt(x, p, x.event.transition))
  }

  predicate Older(x: Entry, p: Pending, serial: u64) {
    Heard(x, p) ==> x.event.serial < serial
  }

  /** How far an open ticket has come is decided by its accepted entries. */
  lemma StageIsDecided(t: seq<Entry>, n: nat, p: Pending)
    requires IsRun(t) && n <= |t| && OpenAt(t, n, p)
    ensures StateAt(t, n).live[p.Id()].stage == Offered <==> !HasShown(t, n, p)
    ensures StateAt(t, n).live[p.Id()].stage.Armed? <==> HasArmed(t, n, p)
  {
    hide Step, WellKept;
    var c := EveryStageIsExplained(t, n, p.Id());
    forall k | 0 <= k < n && (ShownAt(t[k], p) || ArmedAt(t[k], p))
      ensures StateAt(t, n).live[p.Id()].stage != Offered
      ensures ArmedAt(t[k], p) ==> StateAt(t, n).live[p.Id()].stage.Armed?
    {
      assert Legal(t, k);
      RunsKeepKeys(t, k);
      if ShownAt(t[k], p) { ShownLeaves(t[k], p); } else { ArmedLeaves(t[k], p); }
      StagesAdvance(t, k + 1, n, p.Id());
    }
  }

  /** The serial an armed ticket remembers is the newest one heard. */
  lemma {:induction false} SerialIsNewest(t: seq<Entry>, n: nat, p: Pending)
    requires IsRun(t) && n <= |t| && OpenAt(t, n, p) && StateAt(t, n).live[p.Id()].stage.Armed?
    ensures forall k :: 0 <= k < n && Heard(t[k], p) ==>
      t[k].event.serial <= StateAt(t, n).live[p.Id()].stage.presence.serial
    ensures exists k :: 0 <= k < n && Heard(t[k], p)
                        && t[k].event.serial == StateAt(t, n).live[p.Id()].stage.presence.serial
  {
    hide Step, WellKept;
    forall k | 0 <= k < n && Heard(t[k], p)
      ensures t[k].event.serial <= StateAt(t, n).live[p.Id()].stage.presence.serial
    {
      assert Legal(t, k);
      RunsKeepKeys(t, k);
      if ArmedAt(t[k], p) { ArmedLeaves(t[k], p); } else { InputLeaves(t[k], p, t[k].event.transition); }
      StagesAdvance(t, k + 1, n, p.Id());
    }
    SerialHasSource(t, n, p);
  }

  lemma {:induction false} SerialHasSource(t: seq<Entry>, n: nat, p: Pending)
    requires IsRun(t) && n <= |t| && OpenAt(t, n, p) && StateAt(t, n).live[p.Id()].stage.Armed?
    ensures exists k :: 0 <= k < n && Heard(t[k], p)
                        && t[k].event.serial == StateAt(t, n).live[p.Id()].stage.presence.serial
  {
    hide Step, WellKept;
    var c := EveryStageIsExplained(t, n, p.Id());
    var id := p.Id();
    assert Legal(t, c.armed) && Legal(t, n - 1);
    RunsKeepKeys(t, c.armed);
    ArmedLeaves(t[c.armed], p);
    if c.armed == n - 1 {
      assert Heard(t[n - 1], p);
    } else {
      OpenBetween(t, c.armed + 1, n - 1, n, id);
      StageAdvances(t, n - 1, id);
      StagesAdvance(t, c.armed + 1, n - 1, id);
      if StateAt(t, n).live[id] == StateAt(t, n - 1).live[id] {
        SerialHasSource(t, n - 1, p);
      } else {
        assert Heard(t[n - 1], p);
      }
    }
  }

  /** A display notice is accepted exactly once, in time, from the bound presenter in a matching world. */
  lemma NoticeAcceptedIff(t: seq<Entry>, k: nat, p: Pending)
    requires IsRun(t) && k < |t| && OpenAt(t, k, p)
    requires t[k].event.SendFeedback? && t[k].event.feedback == Presented && t[k].event.correlation == p.offer.correlation
    ensures t[k].response == Resolved(StillPending) <==>
      && InTime(t[k], t[k].event.now, p) && t[k].event.peer == p.presenter.instance && p.Matches(t[k].event.current)
      && !HasShown(t, k, p)
  {
    hide HasShown;
    StageIsDecided(t, k, p);
    assert Legal(t, k);
    RunsKeepKeys(t, k);
  }

  /** Arming is accepted exactly once, in time, after the display notice, from the bound input authority. */
  lemma ArmingAcceptedIff(t: seq<Entry>, k: nat, p: Pending)
    requires IsRun(t) && k < |t| && OpenAt(t, k, p) && t[k].event.Arm? && t[k].event.correlation == p.offer.correlation
    ensures t[k].response == Done <==>
      && InTime(t[k], t[k].event.now, p) && t[k].event.peer == p.input.source && t[k].event.route == p.input
      && HasShown(t, k, p) && !HasArmed(t, k, p)
  {
    hide HasShown, HasArmed;
    StageIsDecided(t, k, p);
    assert Legal(t, k);
    RunsKeepKeys(t, k);
  }

  /** Input is accepted exactly when armed, in time, from the bound authority and newer than all that was heard. */
  lemma InputAcceptedIff(t: seq<Entry>, k: nat, p: Pending)
    requires IsRun(t) && k < |t| && OpenAt(t, k, p) && t[k].event.Input? && t[k].event.correlation == p.offer.correlation
    ensures t[k].response == Done <==>
      && InTime(t[k], t[k].event.now, p) && t[k].event.peer == p.input.source && t[k].event.route == p.input
      && HasArmed(t, k, p) && forall j :: 0 <= j < k ==> Older(t[j], p, t[k].event.serial)
  {
    hide HasArmed, Heard;
    StageIsDecided(t, k, p);
    assert Legal(t, k);
    RunsKeepKeys(t, k);
    if StateAt(t, k).live[p.Id()].stage.Armed? { SerialIsNewest(t, k, p); }
  }
}
