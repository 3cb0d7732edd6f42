/**
The consent controller as the service runs it: a fixed array of slots searched
linearly. Every method behaves exactly like the corresponding transition of the
ticket table in `ConsentModel`.
*/
module ConsentController {
  import opened Base
  import opened ConsentModel
  import opened ConsentRuns

  /** Compare two challenges without stopping at the first difference. */
  method SameBytes(a: Bytes32, b: Bytes32) returns (same: bool)
    ensures same <==> a == b
  {
    var diff: bv8 := 0;
    for i := 0 to 32
      invariant diff == 0 <==> a[..i] == b[..i]
    {
      DiffersOrNot(diff, a[i], b[i]);
      diff := diff | (a[i] ^ b[i]);
      assert a[..i + 1] == a[..i] + [a[i]] && b[..i + 1] == b[..i] + [b[i]];
    }
    assert a[..32] == a && b[..32] == b;
    same := diff == 0;
  }

  lemma DiffersOrNot(diff: bv8, x: bv8, y: bv8)
    ensures diff | (x ^ y) == 0 <==> diff == 0 && x == y
  {
  }

  /** Slot `i` is occupied by ticket `id`. */
  predicate Occupies(slots: seq<Option<Pending>>, i: nat, id: u64) {
    i < |slots| && slots[i].Some? && slots[i].value.Id() == id
  }

  /** The occupied slots are exactly the live table, each ticket in one slot. */
  ghost predicate Holds(slots: seq<Option<Pending>>, live: map<u64, Pending>) {
    && (forall i: nat, id :: Occupies(slots, i, id) ==> id in live && live[id] == slots[i].value)
    && (forall id :: id in live ==> exists i: nat :: Occupies(slots, i, id))
    && (forall i: nat, j: nat, id :: Occupies(slots, i, id) && Occupies(slots, j, id) ==> i == j)
  }

  lemma HoldsDrop(slots: seq<Option<Pending>>, live: map<u64, Pending>, i: nat)
    requires Holds(slots, live) && i < |slots| && slots[i].Some?
    ensures Holds(slots[i := None], live - {slots[i].value.Id()})
  {
    var gone := slots[i].value.Id();
    assert Occupies(slots, i, gone);
    var slots', live' := slots[i := None], live - {gone};
    assert forall k: nat, id :: Occupies(slots', k, id) <==> Occupies(slots, k, id) && k != i;
    forall id | id in live' ensures exists k: nat :: Occupies(slots', k, id) {
      var k: nat :| Occupies(slots, k, id);
      assert Occupies(slots', k, id);
    }
  }

  lemma HoldsPut(slots: seq<Option<Pending>>, live: map<u64, Pending>, i: nat, p: Pending)
    requires Holds(slots, live) && i < |slots|
    requires if slots[i].Some? then slots[i].value.Id() == p.Id() else p.Id() !in live
    ensures Holds(slots[i := Some(p)], live[p.Id() := p])
  {
    var slots', live' := slots[i := Some(p)], live[p.Id() := p];
    assert slots[i].Some? ==> Occupies(slots, i, p.Id());
    assert forall k: nat, id :: k != i ==> (Occupies(slots', k, id) <==> Occupies(slots, k, id));
    assert Occupies(slots', i, p.Id());
    forall id | id in live' ensures exists k: nat :: Occupies(slots', k, id) {
      if id != p.Id() {
        var k: nat :| Occupies(slots, k, id);
        assert Occupies(slots', k, id);
      }
    }
  }

  lemma HoldsTake(slots: seq<Option<Pending>>, live: map<u64, Pending>)
    requires Holds(slots, live) && |slots| > 0 && slots[|slots| - 1].None?
    ensures Holds(slots[..|slots| - 1], live)
  {
    var rest := slots[..|slots| - 1];
    assert forall k: nat, id :: Occupies(rest, k, id) <==> Occupies(slots, k, id);
    forall id | id in live ensures exists k: nat :: Occupies(rest, k, id) {
      var k: nat :| Occupies(slots, k, id);
      assert Occupies(rest, k, id);
    }
  }

  lemma DropLast(slots: seq<Option<Pending>>, live: map<u64, Pending>) returns (rest: map<u64, Pending>)
    requires Holds(slots, live) && |slots| > 0
    ensures Holds(slots[..|slots| - 1], rest)
    ensures |rest| == if slots[|slots| - 1].Some? then |live| - 1 else |live|
  {
    var n := |slots| - 1;
    if slots[n].Some? {
      var id := slots[n].value.Id();
      assert Occupies(slots, n, id);
      HoldsDrop(slots, live, n);
      rest := live - {id};
      assert rest.Keys == live.Keys - {id};
      assert slots[n := None][..n] == slots[..n];
      HoldsTake(slots[n := None], rest);
    } else {
      rest := live;
      HoldsTake(slots, live);
    }
  }

  lemma HoldsNothing(slots: seq<Option<Pending>>, live: map<u64, Pending>)
    requires Holds(slots, live) && |slots| == 0
    ensures |live| == 0
  {
    assert live.Keys == {};
  }

  /** The number of occupied slots is the size of the table. */
  lemma {:induction false} HoldsSize(slots: seq<Option<Pending>>, live: map<u64, Pending>)
    requires Holds(slots, live)
    ensures |live| <= |slots|
    ensures |live| == |slots| <==> forall i :: 0 <= i < |slots| ==> slots[i].Some?
  {
    hide Holds;
    if |slots| == 0 {
      HoldsNothing(slots, live);
    } else {
      var n := |slots| - 1;
      var rest := DropLast(slots, live);
      HoldsSize(slots[..n], rest);
      assert forall i :: 0 <= i < n ==> slots[..n][i] == slots[i];
    }
  }

  lemma DropKeeps(s: State, id: u64)
    requires WellKept(s)
    ensures WellKept(Drop(s, id))
  {
    Shrinks(Drop(s, id).live.Keys, s.live.Keys);
  }

  lemma InsertKeeps(s: State, s2: State, p: Pending)
    requires WellKept(s) && s.nextId == Some(p.Id()) && p.offer.correlation.display == p.Id()
    requires |s.live| < MAX_PENDING
    requires s2.live == s.live[p.Id() := p] && s2.nextId == CheckedAdd(p.Id(), 1)
    ensures WellKept(s2)
  {
    CounterIsFree(s);
    assert s2.live.Keys == s.live.Keys + {p.Id()};
    forall id | id in s2.live ensures s2.live[id].Id() == id && BelowCounter(s2, id) {
      if id != p.Id() { assert id in s.live; }
    }
  }

  lemma CounterIsFree(s: State)
    requires WellKept(s) && s.nextId.Some?
    ensures s.nextId.value !in s.live
  {
  }

  lemma UpdateKeeps(s: State, id: u64, p: Pending)
    requires WellKept(s) && id in s.live && SameTransaction(s.live[id], p)
    ensures WellKept(Update(s, id, p))
  {
    assert Update(s, id, p).live.Keys == s.live.Keys;
  }

  class Controller {
    const pending: array<Option<Pending>>
    var nextId: Option<u64>
    var lastNow: u64
    ghost var live: map<u64, Pending>
    /** Every message handled so far, with its answer and the tables around it. */
    ghost var history: seq<Entry>

    ghost function Table(): State
      reads this
    {
      State(live, nextId, lastNow)
    }

    ghost predicate Valid()
      reads this, pending
    {
      pending.Length == MAX_PENDING && Holds(pending[..], live) && WellKept(Table())
    }

    /** The history is a run of the ticket table that ends in the present table. */
    ghost predicate Recorded()
      reads this, pending
    {
      Valid() && IsRun(history) && StateAt(history, |history|) == Table()
    }

    constructor ()
      ensures Recorded() && fresh(pending) && Table() == INITIAL && history == []
    {
      history := [];
      pending := new Option<Pending>[MAX_PENDING](_ => None);
      nextId := Some(1);
      lastNow := 0;
      live := map[];
    }

    /** Take slot `index` out of the table. */
    method Remove(index: nat)
      requires Valid() && index < pending.Length && pending[index].Some?
      modifies this`live, pending
      ensures Valid() && Table() == Drop(old(Table()), old(pending[index].value.Id()))
      ensures pending[..] == old(pending[..])[index := None]
    {
      HoldsDrop(pending[..], live, index);
      assert Occupies(pending[..], index, pending[index].value.Id());
      DropKeeps(Table(), pending[index].value.Id());
      hide Holds, WellKept;
      live := live - {pending[index].value.Id()};
      pending[index] := None;
      assert pending[..] == old(pending[..])[index := None];
    }

    /** Store the next stage of the transaction in slot `index`. */
    method Store(index: nat, p: Pending)
      requires Valid() && index < pending.Length
      requires pending[index].Some? && SameTransaction(pending[index].value, p)
      modifies this`live, pending
      ensures Valid() && Table() == Update(old(Table()), p.Id(), p)
    {
      assert Occupies(pending[..], index, p.Id());
      HoldsPut(pending[..], live, index, p);
      UpdateKeeps(Table(), p.Id(), p);
      hide Holds, WellKept;
      live := live[p.Id() := p];
      pending[index] := Some(p);
      assert pending[..] == old(pending[..])[index := Some(p)];
    }

    method ObserveTime(now: u64) returns (ok: bool)
      requires Valid()
      modifies this`lastNow
      ensures Valid()
      ensures (Table(), if ok then Done else Failed(ClockWentBack)) == DoTime(old(Table()), now)
    {
      ok := now >= lastNow;
      if ok { lastNow := now; }
    }

    method Overlapping(endpoint: u64, challenge: Bytes32) returns (found: bool)
      requires Valid()
      ensures found <==> Overlaps(Table(), endpoint, challenge)
    {
      found := false;
      for i := 0 to pending.Length
        invariant !found ==> forall k :: 0 <= k < i && pending[k].Some? ==>
          pending[k].value.presenter.instance.endpoint != endpoint
          && pending[k].value.offer.correlation.ticket.challenge != challenge
        invariant found ==> Overlaps(Table(), endpoint, challenge)
      {
        if pending[i].Some? && (pending[i].value.presenter.instance.endpoint == endpoint
                                || pending[i].value.offer.correlation.ticket.challenge == challenge)
        {
          assert Occupies(pending[..], i, pending[i].value.Id());
          found := true;
        }
      }
    }

    /** The first unused slot, if there is one. */
    method FreeSlot() returns (slot: Option<nat>)
      requires Valid()
      ensures slot.Some? ==> slot.value < pending.Length && pending[slot.value].None? && |live| < MAX_PENDING
      ensures slot.None? ==> |live| >= MAX_PENDING
    {
      HoldsSize(pending[..], live);
      slot := None;
      for i := 0 to pending.Length
        invariant slot.None? ==> forall k :: 0 <= k < i ==> pending[k].Some?
        invariant slot.Some? ==> slot.value < i && pending[slot.value].None?
      {
        if slot.None? && pending[i].None? { slot := Some(i); }
      }
      if slot.Some? { assert pending[..][slot.value].None?; }
    }

    method Begin(binding: Binding, presenter: Presenter, input: InputRoute, choices: set<Choice>,
                 now: u64, timeout: u64, challenge: Bytes32)
      returns (r: Result<Offer, Error>)
      requires Valid()
      modifies this`live, this`nextId, this`lastNow, pending
      ensures Valid()
      ensures (Table(), if r.Ok? then Issued(r.value) else Failed(r.error))
              == DoBegin(old(Table()), binding, presenter, input, choices, now, timeout, challenge)
    {
      hide Holds, WellKept, WellFormed;
      ghost var before := Table();
      var ok := ObserveTime(now);
      if !ok { return Err(ClockWentBack); }
      if !WellFormed(binding, presenter, input, choices, timeout, challenge) { return Err(Invalid); }
      if now + timeout >= U64_LIMIT { return Err(Exhausted); }
      var busy := Overlapping(presenter.instance.endpoint, challenge);
      assert busy <==> Overlaps(before, presenter.instance.endpoint, challenge);
      if busy { return Err(Busy); }
      var slot := FreeSlot();
      if slot.None? { return Err(Full); }
      if nextId.None? { return Err(Exhausted); }
      var id := nextId.value;
      var offer := Offer(Correlation(Ticket(id, challenge), id), now + timeout, choices);
      assert id !in live by { CounterIsFree(Table()); }
      Insert(slot.value, Pending(offer, binding, presenter, input, Offered));
      nextId := CheckedAdd(id, 1);
      InsertKeeps(before, Table(), live[id]);
      return Ok(offer);
    }

    /** Occupy a free slot with a transaction whose number is not in the table. */
    method Insert(slot: nat, p: Pending)
      requires pending.Length == MAX_PENDING && Holds(pending[..], live)
      requires slot < pending.Length && pending[slot].None? && p.Id() !in live
      modifies this`live, pending
      ensures Holds(pending[..], live) && live == old(live)[p.Id() := p]
    {
      HoldsPut(pending[..], live, slot, p);
      hide Holds;
      pending[slot] := Some(p);
      live := live[p.Id() := p];
      assert pending[..] == old(pending[..])[slot := Some(p)];
    }

    method NextCorrelation(challenge: Bytes32) returns (r: Result<Correlation, Error>)
      requires Valid()
      ensures r == ConsentModel.NextCorrelation(Table(), challenge)
    {
      if AllZero(challenge) { return Err(Invalid); }
      var found := false;
      for i := 0 to pending.Length
        invariant !found ==> forall k :: 0 <= k < i && pending[k].Some? ==>
          pending[k].value.offer.correlation.ticket.challenge != challenge
        invariant found ==> ChallengeInUse(Table(), challenge)
      {
        if pending[i].Some? && pending[i].value.offer.correlation.ticket.challenge == challenge {
          assert Occupies(pending[..], i, pending[i].value.Id());
          found := true;
        }
      }
      if found { return Err(Busy); }
      if nextId.None? { return Err(Exhausted); }
      return Ok(Correlation(Ticket(nextId.value, challenge), nextId.value));
    }

    method BeginAt(correlation: Correlation, binding: Binding, presenter: Presenter, input: InputRoute,
                   choices: set<Choice>, now: u64, timeout: u64)
      returns (r: Result<Offer, Error>)
      requires Valid()
      modifies this`live, this`nextId, this`lastNow, pending
      ensures Valid()
      ensures (Table(), if r.Ok? then Issued(r.value) else Failed(r.error))
              == DoBeginAt(old(Table()), correlation, binding, presenter, input, choices, now, timeout)
    {
      hide DoBegin, WellKept, Holds;
      var next := NextCorrelation(correlation.ticket.challenge);
      if next.Err? { return Err(next.error); }
      if next.value != correlation { return Err(Changed); }
      r := Begin(binding, presenter, input, choices, now, timeout, correlation.ticket.challenge);
    }

    /** Linear search by identifier and challenge, then the display check. */
    method FindSlot(c: Correlation) returns (r: Result<nat, Error>)
      requires Valid()
      ensures r.Ok? ==> r.value < pending.Length && Locate(Table(), c) == Ok(c.ticket.id)
                        && pending[r.value] == Some(live[c.ticket.id])
      ensures r.Err? ==> Locate(Table(), c) == Err(r.error)
    {
      for i := 0 to pending.Length
        invariant forall k :: 0 <= k < i && pending[k].Some? ==>
          pending[k].value.Id() != c.ticket.id || pending[k].value.offer.correlation.ticket.challenge != c.ticket.challenge
      {
        if pending[i].Some? && pending[i].value.Id() == c.ticket.id {
          var same := SameBytes(pending[i].value.offer.correlation.ticket.challenge, c.ticket.challenge);
          if same {
            assert Occupies(pending[..], i, c.ticket.id);
            return if pending[i].value.offer.correlation.display != c.display then Err(WrongDisplay) else Ok(i);
          }
        }
      }
      return Err(Unknown);
    }

    /** Clock, lookup and deadline; an expired transaction is dropped on the way. */
    method Open(c: Correlation, now: u64) returns (index: nat, r: Result<Pending, Error>)
      requires Valid()
      modifies this`lastNow, this`live, pending
      ensures Valid() && (Table(), r) == Enter(old(Table()), c, now)
      ensures r.Ok? ==> index < pending.Length && pending[index] == Some(r.value)
    {
      index := 0;
      var ok := ObserveTime(now);
      if !ok { return 0, Err(ClockWentBack); }
      var found := FindSlot(c);
      hide Holds, WellKept;
      if found.Err? { return 0, Err(found.error); }
      index := found.value;
      var p := pending[index].value;
      if now >= p.offer.deadline {
        assert p.Id() == c.ticket.id by { LocatedId(Table(), c); }
        Remove(index);
        return index, Err(Expired);
      }
      r := Ok(p);
    }

    method Feedback(peer: Instance, c: Correlation, feedback: Feedback, current: Current, now: u64)
      returns (r: Result<Outcome, Error>)
      requires Valid()
      modifies this`lastNow, this`live, pending
      ensures Valid()
      ensures (Table(), if r.Ok? then Resolved(r.value) else Failed(r.error))
              == DoFeedback(old(Table()), peer, c, feedback, current, now)
    {
      OpenedId(Table(), c, now);
      hide Holds, WellKept, Enter;
      var index, found := Open(c, now);
      if found.Err? { return Err(found.error); }
      var p := found.value;
      if peer != p.presenter.instance { return Err(WrongPeer); }
      if !p.Matches(current) {
        Remove(index);
        return Err(Changed);
      }
      match feedback
      case Presented =>
        if p.stage != Offered { return Err(InvalidState); }
        Store(index, p.(stage := Shown));
        return Ok(StillPending);
      case Dismissed =>
        Remove(index);
        return Ok(Denied(p.binding));
      case Decision(choice, gesture) =>
        if choice == Deny && gesture == 0 {
          Remove(index);
          return Ok(Denied(p.binding));
        }
        if choice == Deny || choice !in p.offer.choices { return Err(UnofferedChoice); }
        if !p.stage.Armed? { return Err(MissingPresence); }
        if gesture == 0 || p.stage.presence.gesture != Some(gesture) { return Err(MissingPresence); }
        // Consumed before any grant: a failed action cannot replay consent.
        Remove(index);
        return Ok(Approved(Approval(p.binding, choice, p.offer.correlation)));
    }

    method Propose(peer: Instance, c: Correlation, choice: Choice, current: Current, now: u64)
      returns (r: Result<Outcome, Error>)
      requires Valid()
      modifies this`lastNow, this`live, pending
      ensures Valid()
      ensures (Table(), if r.Ok? then Resolved(r.value) else Failed(r.error))
              == DoPropose(old(Table()), peer, c, choice, current, now)
    {
      OpenedId(Table(), c, now);
      hide Holds, WellKept, Enter, DoFeedback;
      var index, found := Open(c, now);
      if found.Err? { return Err(found.error); }
      var p := found.value;
      if peer != p.presenter.instance { return Err(WrongPeer); }
      if !p.Matches(current) {
        Remove(index);
        return Err(Changed);
      }
      var gesture := 0;
      if choice != Deny {
        if !p.stage.Armed? { return Err(MissingPresence); }
        if p.stage.presence.gesture.None? { return Err(MissingPresence); }
        gesture := p.stage.presence.gesture.value;
      }
      r := Feedback(peer, c, Decision(choice, gesture), current, now);
    }

    method Arm(peer: Instance, c: Correlation, route: InputRoute, serial: u64, allReleased: bool, now: u64)
      returns (r: Option<Error>)
      requires Valid()
      modifies this`lastNow, this`live, pending
      ensures Valid()
      ensures (Table(), if r.None? then Done else Failed(r.value))
              == DoArm(old(Table()), peer, c, route, serial, allReleased, now)
    {
      OpenedId(Table(), c, now);
      hide Holds, WellKept, Enter;
      var index, found := Open(c, now);
      if found.Err? { return Some(found.error); }
      var p := found.value;
      if peer != p.input.source || route != p.input { return Some(WrongPeer); }
      if p.stage != Shown { return Some(InvalidState); }
      Store(index, p.(stage := Armed(Presence(serial, allReleased, None))));
      r := None;
    }

    method Input(peer: Instance, c: Correlation, route: InputRoute, serial: u64, transition: Transition, now: u64)
      returns (r: Option<Error>)
      requires Valid()
      modifies this`lastNow, this`live, pending
      ensures Valid()
      ensures (Table(), if r.None? then Done else Failed(r.value))
              == DoInput(old(Table()), peer, c, route, serial, transition, now)
    {
      OpenedId(Table(), c, now);
      hide Holds, WellKept, Enter;
      var index, found := Open(c, now);
      if found.Err? { return Some(found.error); }
      var p := found.value;
      if peer != p.input.source || route != p.input { return Some(WrongPeer); }
      if !p.stage.Armed? { return Some(InvalidState); }
      var presence := p.stage.presence;
      if serial <= presence.serial { return Some(StaleInput); }
      presence := presence.(serial := serial);
      match transition {
        case AllReleased => presence := presence.(released := true);
        case PhysicalPress =>
          if presence.released { presence := presence.(gesture := Some(serial)); }
          presence := presence.(released := false);
        case _ =>
      }
      Store(index, p.(stage := Armed(presence)));
      r := None;
    }

    method Cancel(peer: Instance, c: Correlation) returns (r: Result<Binding, Error>)
      requires Valid()
      modifies this`live, pending
      ensures Valid()
      ensures (Table(), if r.Ok? then Cancelled(r.value) else Failed(r.error)) == DoCancel(old(Table()), peer, c)
    {
      var found := FindSlot(c);
      if found.Err? { return Err(found.error); }
      LocatedId(Table(), c);
      hide Holds, WellKept;
      var p := pending[found.value].value;
      if peer != p.binding.requester && peer != p.presenter.instance && peer != p.input.source {
        return Err(WrongPeer);
      }
      Remove(found.value);
      r := Ok(p.binding);
    }

    /** Drop slot `i` and add it to the report of dropped transactions. */
    method Collect(i: nat, gone: seq<(Ticket, Binding)>, ghost all: map<u64, Pending>)
      returns (more: seq<(Ticket, Binding)>)
      requires Valid() && i < pending.Length && pending[i].Some?
      requires Reported(gone, all) && live == all - Ids(gone)
      modifies this`live, pending
      ensures Valid() && pending[..] == old(pending[..])[i := None]
      ensures Reported(more, all) && live == all - Ids(more)
      ensures Ids(more) == Ids(gone) + {old(pending[i].value.Id())} && old(pending[i].value.Id()) in all
      ensures all[old(pending[i].value.Id())] == old(pending[i].value)
    {
      var p := pending[i].value;
      assert Occupies(pending[..], i, p.Id());
      ReportOne(gone, (p.offer.correlation.ticket, p.binding), all);
      hide Holds, WellKept;
      Remove(i);
      more := gone + [(p.offer.correlation.ticket, p.binding)];
    }

    /** Visit every slot once and drop the transactions that are due. */
    method Sweep(due: Pending -> bool) returns (gone: seq<(Ticket, Binding)>)
      requires Valid()
      modifies this`live, pending
      ensures Valid()
      ensures Ids(gone) == set id | id in old(live) && due(old(live)[id])
      ensures live == old(live) - Ids(gone) && Reported(gone, old(live))
    {
      hide Holds, WellKept, Ids, Reported;
      gone := [];
      NothingReported(live);
      for i := 0 to pending.Length
        invariant Valid() && Reported(gone, old(live)) && live == old(live) - Ids(gone)
        invariant forall id :: id in Ids(gone) ==> id in old(live) && due(old(live)[id])
        invariant forall k :: 0 <= k < i && pending[k].Some? ==> !due(pending[k].value)
      {
        if pending[i].Some? && due(pending[i].value) {
          gone := Collect(i, gone, old(live));
        }
      }
      AllSwept(pending[..], live, old(live), Ids(gone), due);
    }

    /** Drop every transaction whose deadline has passed and report each of them once. */
    method Expire(now: u64) returns (r: Result<seq<(Ticket, Binding)>, Error>)
      requires Valid()
      modifies this`lastNow, this`live, pending
      ensures Valid()
      ensures r.Err? ==> (Table(), Failed(r.error)) == DoExpire(old(Table()), now)
      ensures r.Ok? ==> (Table(), Swept(Ids(r.value))) == DoExpire(old(Table()), now)
                        && Reported(r.value, old(live))
    {
      hide Holds, WellKept, Ids, Reported;
      var ok := ObserveTime(now);
      if !ok { return Err(ClockWentBack); }
      var gone := Sweep((p: Pending) => now >= p.offer.deadline);
      assert Ids(gone) == ExpiredIds(old(Table()), now);
      r := Ok(gone);
    }

    /** Drop every transaction whose fresh observations no longer match. */
    method Observe(seen: u64 -> Current) returns (gone: seq<(Ticket, Binding)>)
      requires Valid()
      modifies this`live, pending
      ensures Valid()
      ensures (Table(), Swept(Ids(gone))) == DoObserve(old(Table()), seen)
      ensures Reported(gone, old(live))
    {
      hide Holds, WellKept, Ids, Reported;
      ghost var before := Table();
      gone := Sweep((p: Pending) => !p.Matches(seen(p.Id())));
      ChangedById(before, seen);
      assert Ids(gone) == ChangedIds(before, seen);
    }

    /** Handle one message and append it to the history. */
    method Handle(e: Event) returns (resp: Response)
      requires Recorded()
      modifies this, pending
      ensures Recorded()
      ensures (Table(), resp) == Step(old(Table()), e)
      ensures history == old(history) + [Entry(old(Table()), e, resp, Table())]
    {
      hide Holds, WellKept, Ids, Reported, DoBegin, DoBeginAt, DoFeedback, DoPropose, DoArm, DoInput, DoCancel, DoExpire,
        DoObserve, DoTime, IsRun;
      match e {
        case Begin(b, p, i, ch, now, timeout, challenge) =>
          var r := Begin(b, p, i, ch, now, timeout, challenge);
          resp := if r.Ok? then Issued(r.value) else Failed(r.error);
        case BeginAt(c, b, p, i, ch, now, timeout) =>
          var r := BeginAt(c, b, p, i, ch, now, timeout);
          resp := if r.Ok? then Issued(r.value) else Failed(r.error);
        case SendFeedback(peer, c, f, current, now) =>
          var r := Feedback(peer, c, f, current, now);
          resp := if r.Ok? then Resolved(r.value) else Failed(r.error);
        case Propose(peer, c, choice, current, now) =>
          var r := Propose(peer, c, choice, current, now);
          resp := if r.Ok? then Resolved(r.value) else Failed(r.error);
        case Arm(peer, c, route, serial, released, now) =>
          var r := Arm(peer, c, route, serial, released, now);
          resp := if r.None? then Done else Failed(r.value);
        case Input(peer, c, route, serial, transition, now) =>
          var r := Input(peer, c, route, serial, transition, now);
          resp := if r.None? then Done else Failed(r.value);
        case Cancel(peer, c) =>
          var r := Cancel(peer, c);
          resp := if r.Ok? then Cancelled(r.value) else Failed(r.error);
        case Expire(now) =>
          var r := Expire(now);
          resp := if r.Ok? then Swept(Ids(r.value)) else Failed(r.error);
        case Observe(seen) =>
          var gone := Observe(seen);
          resp := Swept(Ids(gone));
        case Time(now) =>
          var ok := ObserveTime(now);
          resp := if ok then Done else Failed(ClockWentBack);
      }
      RunExtends(history, Entry(old(Table()), e, resp, Table()));
      history := history + [Entry(old(Table()), e, resp, Table())];
    }

    /** The earliest deadline of any live transaction. */
    method NextDeadline() returns (r: Option<u64>)
      requires Valid()
      ensures r.None? <==> live == map[]
      ensures r.Some? ==> (exists id :: id in live && live[id].offer.deadline == r.value)
                          && forall id :: id in live ==> r.value <= live[id].offer.deadline
    {
      r := None;
      for i := 0 to pending.Length
        invariant r.None? ==> forall k :: 0 <= k < i ==> pending[k].None?
        invariant r.Some? ==> exists id :: id in live && live[id].offer.deadline == r.value
        invariant r.Some? ==> forall k :: 0 <= k < i && pending[k].Some? ==> r.value <= pending[k].value.offer.deadline
      {
        if pending[i].Some? && (r.None? || pending[i].value.offer.deadline < r.value) {
          assert Occupies(pending[..], i, pending[i].value.Id());
          r := Some(pending[i].value.offer.deadline);
        }
      }
      forall id | id in live ensures r.Some? && r.value <= live[id].offer.deadline {
        var k: nat :| Occupies(pending[..], k, id);
        assert pending[..][k] == pending[k];
      }
    }
  }

  /** A report names transactions of the table, each at most once, with their own binding. */
  ghost predicate Reported(gone: seq<(Ticket, Binding)>, live: map<u64, Pending>) {
    && (forall x :: x in gone ==>
          x.0.id in live && live[x.0.id].offer.correlation.ticket == x.0 && live[x.0.id].binding == x.1)
    && (forall i, j :: 0 <= i < j < |gone| ==> gone[i].0.id != gone[j].0.id)
  }

  function Ids(gone: seq<(Ticket, Binding)>): set<u64> {
    set x | x in gone :: x.0.id
  }

  /** Once no occupied slot meets the condition, what was taken out is all of the table that met it. */
  lemma AllSwept(slots: seq<Option<Pending>>, live: map<u64, Pending>, all: map<u64, Pending>, gone: set<u64>,
                 due: Pending -> bool)
    requires Holds(slots, live) && live == all - gone
    requires forall k :: 0 <= k < |slots| && slots[k].Some? ==> !due(slots[k].value)
    requires forall id :: id in gone ==> id in all && due(all[id])
    ensures gone == set id | id in all && due(all[id])
  {
    forall id | id in live ensures !due(all[id]) {
      var k: nat :| Occupies(slots, k, id);
    }
    assert forall id :: id in all ==> id in gone || id in live;
  }

  lemma ChangedById(s: State, seen: u64 -> Current)
    requires WellKept(s)
    ensures ChangedIds(s, seen) == set id | id in s.live && !s.live[id].Matches(seen(s.live[id].Id()))
  {
  }

  lemma NothingReported(live: map<u64, Pending>)
    ensures Reported([], live) && Ids([]) == {} && live == live - Ids([])
  {
  }

  lemma ReportOne(gone: seq<(Ticket, Binding)>, x: (Ticket, Binding), live: map<u64, Pending>)
    requires Reported(gone, live)
    requires x.0.id in live && live[x.0.id].offer.correlation.ticket == x.0 && live[x.0.id].binding == x.1
    requires x.0.id !in Ids(gone)
    ensures Reported(gone + [x], live)
    ensures Ids(gone + [x]) == Ids(gone) + {x.0.id}
  {
    assert forall i :: 0 <= i < |gone| ==> gone[i] in gone;
  }

  lemma OpenedId(s: State, c: Correlation, now: u64)
    requires WellKept(s)
    ensures Enter(s, c, now).1.Ok? ==> Enter(s, c, now).1.value.Id() == c.ticket.id
    ensures Enter(s, c, now).1.Ok? ==> Enter(s, c, now).0 == s.(lastNow := now)
  {
  }

  lemma LocatedId(s: State, c: Correlation)
    requires WellKept(s) && Locate(s, c).Ok?
    ensures s.live[c.ticket.id].Id() == c.ticket.id
  {
  }
}
