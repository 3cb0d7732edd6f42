/**
Calls held while their execution consent is open. The registry charges the bytes
of each held call, never answers a call twice, and keeps in step with the ticket
table of the consent controller.
*/
module ExecutionRequests {
  import opened Base
  import opened ConsentModel
  import opened ConsentRuns
  import opened ConsentController

  datatype NativeError =
    | InvalidArgument | ResourceUnavailable | AlreadyExists | NotFound | AccessDenied | LimitExceeded
    | BackingFailure | PeerClosed | NotReady

  datatype SysError = Native(error: NativeError) | Raw(code: int)

  datatype Peer = Peer(instance: Instance, process: u32)

  /** The authenticated launch that a held call owns: its bytes, requester and consent binding. */
  datatype Request = Request(sourceLen: nat, requester: Peer, binding: Binding, uid: u32)

  const EXECUTION_CHOICES: set<Choice> := {AllowOnce, AllowPersistently}

  /** Answers of the kernel and the grant store while an approved launch completes. */
  datatype Completion = Completion(
    sameProcess: Result<bool, SysError>,
    uid: Result<u32, SysError>,
    remember: Option<SysError>,
    authorize: Option<SysError>)

  /** `Pending::complete`: the error of the first failing step, if any. */
  function Complete(q: Request, a: Approval, current: Peer, session: Session, generation: u64, n: Completion)
    : (e: Option<SysError>)
  {
    if a.choice !in {AllowOnce, AllowPersistently}
       || a.binding != q.binding
       || current.instance != q.requester.instance
       || session != q.binding.session
       || generation != q.binding.policyGeneration
    then Some(Native(AccessDenied))
    else if n.sameProcess.Err? then Some(n.sameProcess.error)
    else if !n.sameProcess.value then Some(Native(AccessDenied))
    else if n.uid.Err? then Some(n.uid.error)
    else if n.uid.value != q.uid then Some(Native(AccessDenied))
    else if a.choice == AllowPersistently && n.remember.Some? then n.remember
    else n.authorize
  }

  /** When an approved launch completes: the same requester, session, policy, live process and user, and grants stored. */
  predicate Completes(q: Request, choice: Choice, current: Peer, session: Session, generation: u64, n: Completion) {
    && choice in EXECUTION_CHOICES && current.instance == q.requester.instance
    && session == q.binding.session && generation == q.binding.policyGeneration
    && n.sameProcess == Ok(true) && n.uid == Ok(q.uid)
    && (choice == AllowPersistently ==> n.remember.None?) && n.authorize.None?
  }

  datatype Held = Held(offer: Offer, request: Request, presenter: Presenter)

  datatype Slot = Reserved(target: u64, bytes: nat) | Ready(entry: Held) {
    function Target(): u64 {
      match this
      case Reserved(target, _) => target
      case Ready(entry) => entry.request.binding.requester.endpoint
    }

    function Bytes(): nat {
      match this
      case Reserved(_, bytes) => bytes
      case Ready(entry) => entry.request.sourceLen
    }
  }

  /** The answer to a held call; `error.None?` is success. */
  datatype Reply = Reply(target: u64, error: Option<SysError>)

  type Slots = seq<Option<Slot>>

  function SizeOf(s: Option<Slot>): nat { if s.Some? then s.value.Bytes() else 0 }

  function TargetOf(s: Option<Slot>): multiset<u64> {
    if s.Some? then multiset{s.value.Target()} else multiset{}
  }

  /** Bytes retained by all slots. */
  function Total(slots: Slots): nat {
    if slots == [] then 0 else SizeOf(slots[0]) + Total(slots[1..])
  }

  /** The callers waiting in the slots, with multiplicity. */
  function Waiting(slots: Slots): multiset<u64> {
    if slots == [] then multiset{} else TargetOf(slots[0]) + Waiting(slots[1..])
  }

  function Answered(replies: seq<Reply>): multiset<u64> {
    if replies == [] then multiset{} else multiset{replies[0].target} + Answered(replies[1..])
  }

  lemma {:induction false} AnsweredAppend(a: seq<Reply>, b: seq<Reply>)
    ensures Answered(a + b) == Answered(a) + Answered(b)
  {
    if a == [] {
      assert a + b == b;
    } else {
      assert (a + b)[1..] == a[1..] + b;
      AnsweredAppend(a[1..], b);
    }
  }

  lemma {:induction false} TotalChanges(slots: Slots, i: nat, s: Option<Slot>)
    requires i < |slots|
    ensures Total(slots[i := s]) == Total(slots) - SizeOf(slots[i]) + SizeOf(s)
    ensures SizeOf(slots[i]) <= Total(slots)
  {
    hide SizeOf;
    if i == 0 {
      assert slots[i := s][1..] == slots[1..];
    } else {
      assert slots[i := s][1..] == slots[1..][i - 1 := s];
      TotalChanges(slots[1..], i - 1, s);
    }
  }

  lemma {:induction false} WaitingChanges(slots: Slots, i: nat, s: Option<Slot>)
    requires i < |slots|
    ensures Waiting(slots[i := s]) + TargetOf(slots[i]) == Waiting(slots) + TargetOf(s)
  {
    hide TargetOf;
    if i == 0 {
      assert slots[i := s][1..] == slots[1..];
    } else {
      assert slots[i := s][1..] == slots[1..][i - 1 := s];
      WaitingChanges(slots[1..], i - 1, s);
      var first, rest, rest' := TargetOf(slots[0]), Waiting(slots[1..]), Waiting(slots[1..][i - 1 := s]);
      assert (first + rest') + TargetOf(slots[i]) == first + (rest' + TargetOf(slots[i]));
      assert (first + rest) + TargetOf(s) == first + (rest + TargetOf(s));
    }
  }

  /** Replacing a slot by one for the same caller and size changes neither sum. */
  lemma SlotKeepsCharge(slots: Slots, i: nat, s: Slot)
    requires i < |slots| && slots[i].Some?
    requires slots[i].value.Target() == s.Target() && slots[i].value.Bytes() == s.Bytes()
    ensures Total(slots[i := Some(s)]) == Total(slots) && Waiting(slots[i := Some(s)]) == Waiting(slots)
    ensures DistinctTargets(slots) ==> DistinctTargets(slots[i := Some(s)])
  {
    hide Total, Waiting;
    TotalChanges(slots, i, Some(s));
    WaitingChanges(slots, i, Some(s));
    var w, w', x := Waiting(slots), Waiting(slots[i := Some(s)]), multiset{s.Target()};
    assert w' == (w' + x) - x && w == (w + x) - x;
  }

  lemma {:induction false} NothingWaits(slots: Slots)
    requires forall i :: 0 <= i < |slots| ==> slots[i].None?
    ensures Total(slots) == 0 && Waiting(slots) == multiset{}
  {
    if slots != [] { NothingWaits(slots[1..]); }
  }

  ghost predicate DistinctTargets(slots: Slots) {
    forall i, j :: 0 <= i < j < |slots| && slots[i].Some? && slots[j].Some? ==>
      slots[i].value.Target() != slots[j].value.Target()
  }

  /** Slot `i` holds a presented call for ticket `id`. */
  predicate ReadyAt(slots: Slots, i: nat, id: u64) {
    i < |slots| && slots[i].Some? && slots[i].value.Ready? && slots[i].value.entry.offer.correlation.ticket.id == id
  }

  predicate SameHeld(h: Held, p: Pending) {
    h.offer == p.offer && h.request.binding == p.binding && h.presenter == p.presenter
  }

  /** Held calls were issued their tickets; a ticket doubles as its display number. */
  ghost predicate TicketsIssued(slots: Slots, s: State) {
    forall i: nat, id :: ReadyAt(slots, i, id) ==>
      BelowCounter(s, id) && slots[i].value.entry.offer.correlation.display == id
  }

  ghost predicate TicketsDistinct(slots: Slots) {
    forall i: nat, j: nat, id :: ReadyAt(slots, i, id) && ReadyAt(slots, j, id) ==> i == j
  }

  ghost predicate LiveIsHeld(slots: Slots, s: State) {
    forall id :: id in s.live ==> exists i: nat :: ReadyAt(slots, i, id)
  }

  ghost predicate HeldAgrees(slots: Slots, s: State) {
    forall i: nat, id :: ReadyAt(slots, i, id) && id in s.live ==> SameHeld(slots[i].value.entry, s.live[id])
  }

  /** Every open ticket belongs to exactly one held call and agrees with it. */
  ghost predicate Linked(slots: Slots, s: State) {
    TicketsIssued(slots, s) && TicketsDistinct(slots) && LiveIsHeld(slots, s) && HeldAgrees(slots, s)
  }

  lemma LinkedNarrows(slots: Slots, s: State, s2: State)
    requires Linked(slots, s) && Narrows(s, s2)
    ensures Linked(slots, s2)
  {
  }

  /** Clearing a slot together with its ticket, or a slot that holds no ticket. */
  lemma LinkedClear(slots: Slots, s: State, i: nat)
    requires Linked(slots, s) && i < |slots|
    requires slots[i].Some? && slots[i].value.Ready? ==>
               slots[i].value.entry.offer.correlation.ticket.id !in s.live
    ensures Linked(slots[i := None], s)
  {
    var slots' := slots[i := None];
    assert forall k: nat, id :: ReadyAt(slots', k, id) <==> ReadyAt(slots, k, id) && k != i;
    forall id | id in s.live ensures exists k: nat :: ReadyAt(slots', k, id) {
      var k: nat :| ReadyAt(slots, k, id);
      assert ReadyAt(slots', k, id);
    }
  }

  lemma LinkedReserve(slots: Slots, s: State, i: nat, target: u64, bytes: nat)
    requires Linked(slots, s) && i < |slots| && slots[i].None?
    ensures Linked(slots[i := Some(Reserved(target, bytes))], s)
  {
    var slots' := slots[i := Some(Reserved(target, bytes))];
    assert forall k: nat, id :: ReadyAt(slots', k, id) <==> ReadyAt(slots, k, id);
    forall id | id in s.live ensures exists k: nat :: ReadyAt(slots', k, id) {
      var k: nat :| ReadyAt(slots, k, id);
      assert ReadyAt(slots', k, id);
    }
  }

  /** The presented calls after putting `h` in a slot that held none. */
  lemma PutReady(slots: Slots, slots': Slots, i: nat, h: Held)
    requires i < |slots| && slots' == slots[i := Some(Ready(h))] && forall id :: !ReadyAt(slots, i, id)
    ensures forall k: nat, id :: ReadyAt(slots', k, id) <==>
      ReadyAt(slots, k, id) || (k == i && id == h.offer.correlation.ticket.id)
  {
  }

  lemma IssueIsHeld(slots: Slots, slots': Slots, s: State, s2: State, i: nat, offer: Offer)
    requires LiveIsHeld(slots, s) && Issues(s, s2, offer)
    requires forall k: nat, id :: ReadyAt(slots', k, id) <==> ReadyAt(slots, k, id) || (k == i && id == s.nextId.value)
    ensures LiveIsHeld(slots', s2)
  {
    forall id | id in s2.live ensures exists k: nat :: ReadyAt(slots', k, id) {
      if id == s.nextId.value {
        assert ReadyAt(slots', i, id);
      } else {
        assert id in s.live;
        var k: nat :| ReadyAt(slots, k, id);
        assert ReadyAt(slots', k, id);
      }
    }
  }

  /** A newly issued ticket and its held call enter together. */
  lemma LinkedIssue(slots: Slots, slots': Slots, s: State, s2: State, i: nat, h: Held)
    requires Linked(slots, s) && i < |slots| && slots[i].Some? && slots[i].value.Reserved?
    requires slots' == slots[i := Some(Ready(h))]
    requires Issues(s, s2, h.offer) && SameHeld(h, s2.live[s.nextId.value]) && s.nextId.value !in s.live
    ensures Linked(slots', s2)
  {
    hide LiveIsHeld, HeldAgrees, SameHeld, TicketsIssued, TicketsDistinct;
    PutReady(slots, slots', i, h);
    IssueIsHeld(slots, slots', s, s2, i, h.offer);
    IssueIsNew(slots, slots', s, s2, i, h);
    IssueAgrees(slots, slots', s, s2, i, h);
  }

  /** The new ticket is above every ticket held so far. */
  lemma IssueIsNew(slots: Slots, slots': Slots, s: State, s2: State, i: nat, h: Held)
    requires TicketsIssued(slots, s) && TicketsDistinct(slots) && i < |slots| && slots' == slots[i := Some(Ready(h))]
    requires Issues(s, s2, h.offer)
    requires forall k: nat, id :: ReadyAt(slots', k, id) <==> ReadyAt(slots, k, id) || (k == i && id == s.nextId.value)
    ensures forall k: nat :: !ReadyAt(slots, k, s.nextId.value)
    ensures TicketsIssued(slots', s2) && TicketsDistinct(slots')
  {
  }

  lemma IssueAgrees(slots: Slots, slots': Slots, s: State, s2: State, i: nat, h: Held)
    requires HeldAgrees(slots, s) && i < |slots| && slots' == slots[i := Some(Ready(h))]
    requires Issues(s, s2, h.offer) && SameHeld(h, s2.live[s.nextId.value]) && s.nextId.value !in s.live
    requires forall k: nat, id :: ReadyAt(slots', k, id) <==> ReadyAt(slots, k, id) || (k == i && id == s.nextId.value)
    requires forall k: nat :: !ReadyAt(slots, k, s.nextId.value)
    ensures HeldAgrees(slots', s2)
  {
    hide SameHeld;
  }

  function ConsentError(e: Error): SysError {
    Native(match e
           case Full => ResourceUnavailable
           case Busy => ResourceUnavailable
           case Exhausted => LimitExceeded
           case ClockWentBack => BackingFailure
           case Invalid => InvalidArgument
           case _ => AccessDenied)
  }

  /** The slots left after retiring every slot that is due, with the index passed to `due`. */
  ghost predicate RetiredWhere(slots: Slots, slots': Slots, n: nat, due: (nat, Slot) -> Option<SysError>) {
    && |slots'| == |slots|
    && (forall i: nat :: i < |slots| ==>
          slots'[i] == if i < n && slots[i].Some? && due(i, slots[i].value).Some? then None else slots[i])
  }

  /** A run grew, by events of one kind only. */
  ghost predicate Adds(before: seq<Entry>, after: seq<Entry>, kind: Event -> bool) {
    before <= after && forall k: nat :: |before| <= k < |after| ==> kind(after[k].event)
  }

  lemma AddsNone(h: seq<Entry>, kind: Event -> bool)
    ensures Adds(h, h, kind)
  {
  }

  lemma AddsMore(a: seq<Entry>, b: seq<Entry>, c: seq<Entry>, kind: Event -> bool)
    requires Adds(a, b, kind) && Adds(b, c, kind)
    ensures Adds(a, c, kind)
  {
  }

  lemma AddsOne(h: seq<Entry>, x: Entry, kind: Event -> bool)
    requires kind(x.event)
    ensures Adds(h, h + [x], kind)
  {
  }

  lemma AddsKeeps(a: seq<Entry>, b: seq<Entry>, kind: Event -> bool, k: nat)
    requires Adds(a, b, kind) && k < |a|
    ensures |a| <= |b| && b[k] == a[k]
  {
  }

  predicate Closes(e: Event) {
    e.Cancel?
  }

  function Ticks(now: u64): Event -> bool {
    (e: Event) => e.Cancel? || (e.Time? && e.now == now)
  }

  function Begins(binding: Binding, presenter: Presenter, input: InputRoute, now: u64, timeout: u64): Event -> bool {
    (e: Event) => e.BeginAt? && e.binding == binding && e.presenter == presenter && e.input == input
             && e.choices == EXECUTION_CHOICES && e.now == now && e.timeout == timeout
  }

  /** Why a call is not given a slot, in the order of the checks. */
  function Refusal(slots: Slots, bytes: nat, byteLimit: nat, imageLimit: nat, target: u64, size: nat): Option<NativeError> {
    if size == 0 || size > imageLimit || target == 0 then Some(InvalidArgument)
    else if target in Waiting(slots) then Some(AlreadyExists)
    else if bytes + size > byteLimit || (forall i :: 0 <= i < |slots| ==> slots[i].Some?) then Some(ResourceUnavailable)
    else None
  }

  class Registry {
    var slots: Slots
    var bytes: nat
    const byteLimit: nat

    ghost predicate Valid()
      reads this
    {
      && 0 < |slots| <= MAX_PENDING
      && bytes == Total(slots)
      && bytes <= byteLimit
      && DistinctTargets(slots)
    }

    /** The registry and the controller's ticket table agree. */
    ghost predicate InStep(controller: Controller)
      reads this, controller, controller.pending
    {
      Valid() && controller.Recorded() && Linked(slots, controller.Table())
    }

    /** An empty registry; `WithLimits` checks the limits first. */
    constructor (count: nat, limit: nat)
      requires 0 < count <= MAX_PENDING && 0 < limit
      ensures Valid() && byteLimit == limit && |slots| == count && bytes == 0
      ensures forall i :: 0 <= i < count ==> slots[i].None?
    {
      slots := seq(count, _ => None);
      bytes := 0;
      byteLimit := limit;
      new;
      NothingWaits(slots);
    }

    /** Charge the bytes of a call and keep a slot for it. */
    method Reserve(target: u64, size: nat) returns (r: Result<nat, SysError>)
      requires Valid()
      modifies this
      ensures Valid()
      ensures r.Ok? ==> r.value < |old(slots)| && old(slots)[r.value].None?
                        && slots == old(slots)[r.value := Some(Reserved(target, size))]
                        && target != 0 && size != 0
      ensures r.Err? ==> slots == old(slots) && bytes == old(bytes)
                         && r.error in {Native(InvalidArgument), Native(AlreadyExists), Native(ResourceUnavailable)}
      ensures r == Err(Native(InvalidArgument)) <==> target == 0 || size == 0
      ensures r == Err(Native(AlreadyExists)) <==>
                target != 0 && size != 0 && target in Waiting(old(slots))
      ensures r == Err(Native(ResourceUnavailable)) <==>
                target != 0 && size != 0 && target !in Waiting(old(slots))
                && (old(bytes) + size > byteLimit || forall i :: 0 <= i < |old(slots)| ==> old(slots)[i].Some?)
    {
      if target == 0 || size == 0 { return Err(Native(InvalidArgument)); }
      var free: Option<nat> := None;
      var taken := false;
      for i := 0 to |slots|
        invariant taken <==> exists k :: 0 <= k < i && slots[k].Some? && slots[k].value.Target() == target
        invariant free.None? ==> forall k :: 0 <= k < i ==> slots[k].Some?
        invariant free.Some? ==> free.value < i && slots[free.value].None?
      {
        if slots[i].Some? && slots[i].value.Target() == target { taken := true; }
        if free.None? && slots[i].None? { free := Some(i); }
      }
      WaitingMeans(slots, target);
      if taken { return Err(Native(AlreadyExists)); }
      if bytes + size > byteLimit { return Err(Native(ResourceUnavailable)); }
      if free.None? { return Err(Native(ResourceUnavailable)); }
      TotalChanges(slots, free.value, Some(Reserved(target, size)));
      slots := slots[free.value := Some(Reserved(target, size))];
      bytes := bytes + size;
      r := Ok(free.value);
    }

    /** Release the charge of a slot that has just been emptied; the subtraction cannot underflow. */
    method Release(index: nat)
      requires index < |slots| && slots[index].Some?
      requires Valid()
      modifies this
      ensures Valid() && slots == old(slots)[index := None]
      ensures bytes == old(bytes) - old(slots)[index].value.Bytes()
      ensures Waiting(old(slots)) == Waiting(slots) + multiset{old(slots)[index].value.Target()}
    {
      TotalChanges(slots, index, None);
      WaitingChanges(slots, index, None);
      assert slots[index].value.Bytes() <= bytes;
      bytes := bytes - slots[index].value.Bytes();
      slots := slots[index := None];
    }

    /** Reserve for a captured image, whose length is bounded on its own. */
    method ReserveImage(target: u64, length: nat, imageLimit: nat) returns (r: Result<nat, SysError>)
      requires Valid()
      modifies this
      ensures Valid()
      ensures match Refusal(old(slots), old(bytes), byteLimit, imageLimit, target, length)
              case Some(why) => r == Err(Native(why)) && slots == old(slots) && bytes == old(bytes)
              case None =>
                && r.Ok? && r.value < |old(slots)| && old(slots)[r.value].None?
                && slots == old(slots)[r.value := Some(Reserved(target, length))]
    {
      hide Waiting, Total, DistinctTargets;
      if length == 0 || length > imageLimit { return Err(Native(InvalidArgument)); }
      r := Reserve(target, length);
    }

    /** Any consent event that issues no ticket keeps registry and controller in step. */
    method Tell(controller: Controller, e: Event) returns (resp: Response)
      requires InStep(controller) && !e.Begin? && !e.BeginAt?
      modifies controller, controller.pending
      ensures InStep(controller)
      ensures controller.history == old(controller.history) + [Entry(old(controller.Table()), e, resp, controller.Table())]
      ensures IsStep(Entry(old(controller.Table()), e, resp, controller.Table()))
      ensures WellKept(old(controller.Table()))
    {
      hide Step, Linked, WellKept, Holds, IsRun, StateAt, DistinctTargets, Total, Waiting, Issues, Narrows, BegunAt, Legal;
      ghost var before := controller.Table();
      resp := controller.Handle(e);
      OnlyBeginIssues(before, e);
      LinkedNarrows(slots, before, controller.Table());
    }

    /** Roll a reservation back. */
    method DropReservation(index: nat, controller: Controller)
      requires InStep(controller) && index < |slots| && slots[index].Some? && slots[index].value.Reserved?
      modifies this
      ensures InStep(controller) && slots == old(slots)[index := None]
      ensures Waiting(old(slots)) == Waiting(slots) + multiset{old(slots)[index].value.target}
    {
      hide Linked, WellKept, Holds, IsRun, StateAt, DistinctTargets, Total, Waiting;
      LinkedClear(slots, controller.Table(), index);
      Release(index);
    }

    /** Turn a reservation into a held call with an open ticket, or roll it back. */
    method Begin(index: nat, controller: Controller, request: Request, correlation: Correlation,
                 presenter: Presenter, input: InputRoute, now: u64, timeout: u64)
      returns (r: Result<Offer, SysError>)
      requires InStep(controller) && index < |slots| && slots[index].Some? && slots[index].value.Reserved?
      modifies this, controller, controller.pending
      ensures InStep(controller)
      ensures Adds(old(controller.history), controller.history,
                   Begins(request.binding, presenter, input, now, timeout))
      ensures r.Err? ==> slots == old(slots)[index := None]
                         && Waiting(old(slots)) == Waiting(slots) + multiset{old(slots)[index].value.target}
      ensures old(controller.Table()).live == map[] ==>
        (r.Ok? <==> && old(slots)[index].value == Reserved(request.binding.requester.endpoint, request.sourceLen)
                    && Issuable(old(controller.Table()), correlation, request.binding, presenter, input, now, timeout))
      ensures r.Ok? ==> slots == old(slots)[index := Some(Ready(Held(r.value, request, presenter)))]
                        && r.value.correlation == correlation
                        && request.binding.requester.endpoint == old(slots)[index].value.target
                        && Waiting(slots) == Waiting(old(slots))
    {
      hide Step, Linked, WellKept, Holds, IsRun, StateAt, DistinctTargets, Total, Waiting, Issues, Narrows, BegunAt,
        Legal, ConsentError, Issuable;
      var Reserved(target, size) := slots[index].value;
      if target != request.binding.requester.endpoint || size != request.sourceLen {
        DropReservation(index, controller);
        return Err(Native(InvalidArgument));
      }
      var e := BeginAt(correlation, request.binding, presenter, input, EXECUTION_CHOICES, now, timeout);
      ghost var before := controller.Table();
      if before.live == map[] { IssuedIff(before, e); }
      var answer := controller.Handle(e);
      BeginLinks(slots, index, Entry(before, e, answer, controller.Table()), request);
      if !answer.Issued? {
        Release(index);
        return Err(if answer.Failed? then ConsentError(answer.error) else Native(AccessDenied));
      }
      var held := Held(answer.offer, request, presenter);
      SlotKeepsCharge(slots, index, Ready(held));
      slots := slots[index := Some(Ready(held))];
      r := Ok(answer.offer);
    }

    /** Nothing is held. */
    method Empty() returns (empty: bool)
      ensures empty <==> forall i :: 0 <= i < |slots| ==> slots[i].None?
    {
      for i := 0 to |slots|
        invariant forall k :: 0 <= k < i ==> slots[k].None?
      {
        if slots[i].Some? { return false; }
      }
      empty := true;
    }

    /** The slot of the held call with this correlation, if any. */
    method Find(correlation: Correlation) returns (r: Option<nat>)
      ensures r.Some? ==> r.value < |slots| && Matches(slots[r.value], correlation)
      ensures r.None? ==> forall i :: 0 <= i < |slots| ==> !Matches(slots[i], correlation)
    {
      for i := 0 to |slots|
        invariant forall k :: 0 <= k < i ==> !Matches(slots[k], correlation)
      {
        if Matches(slots[i], correlation) { return Some(i); }
      }
      r := None;
    }

    /** Empty a slot, close its ticket and answer its caller with an error. */
    method Retire(index: nat, controller: Controller, reason: SysError) returns (reply: Reply)
      requires InStep(controller) && index < |slots| && slots[index].Some?
      modifies this, controller, controller.pending
      ensures InStep(controller) && Adds(old(controller.history), controller.history, Closes)
      ensures slots == old(slots)[index := None]
      ensures reply == Reply(old(slots)[index].value.Target(), Some(reason))
      ensures Waiting(old(slots)) == Waiting(slots) + multiset{reply.target}
    {
      hide Step, Linked, WellKept, Holds, IsRun, StateAt, DistinctTargets, Total, Waiting;
      var slot := slots[index].value;
      ghost var before := controller.Table();
      if slot.Ready? {
        var e := ConsentModel.Cancel(slot.entry.request.binding.requester, slot.entry.offer.correlation);
        var answer := controller.Handle(e);
        RetireUnlinks(slots, index, Entry(before, e, answer, controller.Table()));
      } else {
        LinkedClear(slots, before, index);
      }
      Release(index);
      reply := Reply(slot.Target(), Some(reason));
    }

    /** Retire every slot that is due, in slot order. */
    method RetireWhere(controller: Controller, due: (nat, Slot) -> Option<SysError>) returns (replies: seq<Reply>)
      requires InStep(controller)
      modifies this, controller, controller.pending
      ensures InStep(controller) && Adds(old(controller.history), controller.history, Closes)
      ensures RetiredWhere(old(slots), slots, |slots|, due)
      ensures Waiting(old(slots)) == Waiting(slots) + Answered(replies)
      ensures forall r :: r in replies ==> r.error.Some?
    {
      hide Linked, WellKept, Holds, IsRun, StateAt, DistinctTargets, Total, Waiting, Answered, RetiredWhere;
      replies := [];
      ghost var start := slots;
      RetiringStarts(start, due);
      for i := 0 to |slots|
        invariant |slots| == |old(slots)|
        invariant InStep(controller) && Adds(old(controller.history), controller.history, Closes)
        invariant RetiredWhere(old(slots), slots, i, due)
        invariant Waiting(old(slots)) == Waiting(slots) + Answered(replies)
        invariant forall r :: r in replies ==> r.error.Some?
      {
        RetiringStep(start, slots, i, due);
        if slots[i].Some? && due(i, slots[i].value).Some? {
          var reply := Retire(i, controller, due(i, slots[i].value).value);
          AnswersOne(replies, reply);
          replies := replies + [reply];
        }
      }
    }

    method Cancel(controller: Controller, correlation: Correlation, reason: NativeError)
      returns (r: Option<Reply>)
      requires InStep(controller)
      modifies this, controller, controller.pending
      ensures InStep(controller) && Adds(old(controller.history), controller.history, Closes)
      ensures r.None? ==> slots == old(slots) && forall i :: 0 <= i < |slots| ==> !Matches(slots[i], correlation)
      ensures r.Some? ==> (exists i: nat :: TakenOut(old(slots), slots, i, correlation, r.value))
      ensures r.Some? ==> r.value.error == Some(Native(reason))
      ensures r.Some? ==> Waiting(old(slots)) == Waiting(slots) + multiset{r.value.target}
    {
      hide Linked, WellKept, Holds, IsRun, StateAt, DistinctTargets, Total, Waiting;
      var index := Find(correlation);
      if index.None? { return None; }
      var reply := Retire(index.value, controller, Native(reason));
      assert TakenOut(old(slots), slots, index.value, correlation, reply);
      r := Some(reply);
    }

    /** Answer every held call with the same error and leave nothing behind. */
    method Abort(controller: Controller, reason: SysError) returns (replies: seq<Reply>)
      requires InStep(controller)
      modifies this, controller, controller.pending
      ensures InStep(controller) && Adds(old(controller.history), controller.history, Closes)
      ensures |slots| == |old(slots)| && forall i :: 0 <= i < |slots| ==> slots[i].None?
      ensures bytes == 0 && Answered(replies) == Waiting(old(slots))
      ensures forall r :: r in replies ==> r.error.Some?
    {
      hide Linked, WellKept, Holds, IsRun, StateAt, DistinctTargets, Total, Waiting;
      replies := RetireWhere(controller, (_, _) => Some(reason));
      NothingWaits(slots);
    }

    /** Answer the calls bound to another policy generation. */
    method InvalidatePolicy(controller: Controller, generation: u64) returns (replies: seq<Reply>)
      requires InStep(controller)
      modifies this, controller, controller.pending
      ensures InStep(controller) && Adds(old(controller.history), controller.history, Closes)
      ensures RetiredWhere(old(slots), slots, |slots|, OtherPolicy(generation))
      ensures Waiting(old(slots)) == Waiting(slots) + Answered(replies)
      ensures forall r :: r in replies ==> r.error.Some?
    {
      replies := RetireWhere(controller, OtherPolicy(generation));
    }

    /** Answer the calls whose deadline has passed. */
    method Expire(controller: Controller, now: u64) returns (ok: bool, replies: seq<Reply>)
      requires InStep(controller)
      modifies this, controller, controller.pending
      ensures InStep(controller) && Adds(old(controller.history), controller.history, Ticks(now))
      ensures ok <==> now >= old(controller.lastNow)
      ensures !ok ==> slots == old(slots) && replies == []
      ensures ok ==> RetiredWhere(old(slots), slots, |slots|, PastDeadline(now))
      ensures Waiting(old(slots)) == Waiting(slots) + Answered(replies)
      ensures forall r :: r in replies ==> r.error.Some?
    {
      hide Linked, WellKept, Holds, IsRun, StateAt, DistinctTargets, Total, Waiting, RetiredWhere;
      ghost var before := controller.Table();
      var answer := controller.Handle(Time(now));
      LinkedNarrows(slots, before, controller.Table());
      if answer != Done { return false, []; }
      ok := true;
      replies := RetireWhere(controller, PastDeadline(now));
    }

    /** Answer the calls whose process has exited or cannot be observed. */
    method Reap(controller: Controller, exited: nat -> Result<bool, SysError>) returns (replies: seq<Reply>)
      requires InStep(controller)
      modifies this, controller, controller.pending
      ensures InStep(controller) && Adds(old(controller.history), controller.history, Closes)
      ensures RetiredWhere(old(slots), slots, |slots|, Exited(exited))
      ensures Waiting(old(slots)) == Waiting(slots) + Answered(replies)
      ensures forall r :: r in replies ==> r.error.Some?
    {
      replies := RetireWhere(controller, Exited(exited));
    }

    /**
    Complete an approved call. The approval is the only copy, so its ticket is no longer open.
    The caller is answered with success only before the deadline and after every binding check.
    */
    method Finish(controller: Controller, correlation: Correlation, approval: Approval, current: Peer,
                  session: Session, generation: u64, now: u64, native: Completion)
      returns (r: Result<Reply, SysError>)
      requires InStep(controller) && approval.correlation.ticket.id !in controller.live
      modifies this, controller, controller.pending
      ensures InStep(controller) && Adds(old(controller.history), controller.history, Ticks(now))
      ensures r.Err? ==> slots == old(slots)
      ensures r.Ok? ==> (exists i: nat :: TakenOut(old(slots), slots, i, correlation, r.value)
                                          && FinishedBy(old(slots), i, r.value, approval))
      ensures r.Ok? && r.value.error.None? ==>
                Authorized(approval, session, generation, native)
      ensures r.Ok? ==> forall i: nat :: i < |old(slots)| && Matches(old(slots)[i], correlation) ==>
        (r.value.error.None? <==> Succeeds(old(slots)[i].value.entry, approval, current, session, generation, now, native))
      ensures r.Ok? ==> Waiting(old(slots)) == Waiting(slots) + multiset{r.value.target}
      ensures r.Err? <==> now < old(controller.lastNow) || approval.correlation != correlation
                          || forall i :: 0 <= i < |old(slots)| ==> !Matches(old(slots)[i], correlation)
    {
      hide Linked, WellKept, Holds, IsRun, StateAt, DistinctTargets, Total, Waiting, Complete, Completes;
      ghost var before := controller.Table();
      var answer := controller.Handle(Time(now));
      LinkedNarrows(slots, before, controller.Table());
      if answer != Done { return Err(Native(BackingFailure)); }
      var index := Find(correlation);
      if index.None? { return Err(Native(NotFound)); }
      if approval.correlation != correlation { return Err(Native(AccessDenied)); }
      var entry := slots[index.value].value.entry;
      var error := if now >= entry.offer.deadline then Some(Native(AccessDenied))
                   else Complete(entry.request, approval, current, session, generation, native);
      OneMatch(slots, controller.Table(), correlation, index.value);
      CompletesIff(entry.request, approval, current, session, generation, native);
      LinkedClear(slots, controller.Table(), index.value);
      Release(index.value);
      var reply := Reply(entry.request.binding.requester.endpoint, error);
      assert TakenOut(old(slots), slots, index.value, correlation, reply);
      assert FinishedBy(old(slots), index.value, reply, approval);
      r := Ok(reply);
    }
  }

  /** A registry of at most `count` calls and `limit` bytes, within what the kernel can wait for and load. */
  method WithLimits(count: nat, limit: nat, waitItems: nat, imageBytes: nat) returns (r: Result<Registry, SysError>)
    ensures r.Err? <==> count == 0 || count > MAX_PENDING || count >= waitItems || limit == 0 || limit > imageBytes
    ensures r.Err? ==> r.error == Native(InvalidArgument)
    ensures r.Ok? ==> fresh(r.value) && r.value.Valid() && |r.value.slots| == count && r.value.byteLimit == limit
                      && r.value.bytes == 0 && Waiting(r.value.slots) == multiset{}
  {
    if count == 0 || count > MAX_PENDING || count >= waitItems || limit == 0 || limit > imageBytes {
      return Err(Native(InvalidArgument));
    }
    var registry := new Registry(count, limit);
    NothingWaits(registry.slots);
    r := Ok(registry);
  }

  predicate Matches(s: Option<Slot>, c: Correlation) {
    s.Some? && s.value.Ready? && s.value.entry.offer.correlation == c
  }

  /** What must have held for a completed launch: same session and policy, same live process, every grant stored. */
  predicate Authorized(a: Approval, session: Session, generation: u64, n: Completion) {
    && a.binding.session == session && a.binding.policyGeneration == generation
    && n.sameProcess == Ok(true) && n.uid.Ok? && n.authorize.None?
    && (a.choice == AllowPersistently ==> n.remember.None?)
  }

  lemma CompletesIff(q: Request, a: Approval, current: Peer, session: Session, generation: u64, n: Completion)
    ensures Complete(q, a, current, session, generation, n).None?
            <==> a.binding == q.binding && Completes(q, a.choice, current, session, generation, n)
    ensures Complete(q, a, current, session, generation, n).None? ==>
      Authorized(a, session, generation, n) && a.choice in EXECUTION_CHOICES && a.binding == q.binding
  {
  }

  /** A correlation names at most one held call. */
  lemma OneMatch(slots: Slots, s: State, c: Correlation, i: nat)
    requires Linked(slots, s) && i < |slots| && Matches(slots[i], c)
    ensures forall k: nat :: k < |slots| && Matches(slots[k], c) ==> k == i
  {
    forall k: nat | k < |slots| && Matches(slots[k], c) ensures k == i {
      assert ReadyAt(slots, k, c.ticket.id) && ReadyAt(slots, i, c.ticket.id);
    }
  }

  /** A held call ends with success: in time, for its own binding, and with every check at the end passed. */
  predicate Succeeds(h: Held, a: Approval, current: Peer, session: Session, generation: u64, now: u64, n: Completion) {
    now < h.offer.deadline && a.binding == h.request.binding
    && Completes(h.request, a.choice, current, session, generation, n)
  }

  /** A successful answer ends the held call that the approval was given for. */
  predicate FinishedBy(slots: Slots, i: nat, reply: Reply, approval: Approval)
    requires i < |slots| && slots[i].Some? && slots[i].value.Ready?
  {
    var held := slots[i].value.entry;
    reply.target == held.request.binding.requester.endpoint
    && (reply.error.None? ==> approval.binding == held.request.binding && approval.choice in EXECUTION_CHOICES)
  }

  /** Slot `i` held the call of this correlation, is the only slot that changed, and `reply` answers it. */
  predicate TakenOut(slots: Slots, slots': Slots, i: nat, c: Correlation, reply: Reply) {
    i < |slots| && Matches(slots[i], c) && slots' == slots[i := None] && reply.target == slots[i].value.Target()
  }

  function OtherPolicy(generation: u64): (nat, Slot) -> Option<SysError> {
    (i: nat, s: Slot) => if s.Ready? && s.entry.request.binding.policyGeneration != generation
                    then Some(Native(AccessDenied)) else None
  }

  function PastDeadline(now: u64): (nat, Slot) -> Option<SysError> {
    (i: nat, s: Slot) => if s.Ready? && now >= s.entry.offer.deadline then Some(Native(AccessDenied)) else None
  }

  function Exited(exited: nat -> Result<bool, SysError>): (nat, Slot) -> Option<SysError> {
    (i: nat, s: Slot) => if !s.Ready? then None
                    else match exited(i)
                         case Ok(false) => None
                         case Ok(true) => Some(Native(PeerClosed))
                         case Err(reason) => Some(reason)
  }

  lemma RetiringStarts(slots: Slots, due: (nat, Slot) -> Option<SysError>)
    ensures RetiredWhere(slots, slots, 0, due) && Answered([]) == multiset{}
  {
  }

  /** The next slot goes when it is due and stays otherwise. */
  lemma RetiringStep(start: Slots, slots: Slots, i: nat, due: (nat, Slot) -> Option<SysError>)
    requires RetiredWhere(start, slots, i, due) && i < |slots|
    ensures slots[i] == start[i]
    ensures if slots[i].Some? && due(i, slots[i].value).Some? then RetiredWhere(start, slots[i := None], i + 1, due)
            else RetiredWhere(start, slots, i + 1, due)
  {
  }

  lemma AnswersOne(replies: seq<Reply>, reply: Reply)
    ensures Answered(replies + [reply]) == Answered(replies) + multiset{reply.target}
  {
    AnsweredAppend(replies, [reply]);
    assert Answered([reply]) == multiset{reply.target};
  }

  lemma OnlyBeginIssues(s: State, e: Event)
    requires !e.Begin? && !e.BeginAt?
    ensures Narrows(s, Step(s, e).0)
  {
    hide Narrows, Issues, BegunAt, Enter;
    StepNarrowsOrIssues(s, e);
  }

  /** Cancelling as the requester closes the ticket of a held call if it is still open. */
  lemma RetireUnlinks(slots: Slots, i: nat, x: Entry)
    requires Linked(slots, x.pre) && WellKept(x.pre) && i < |slots| && slots[i].Some? && slots[i].value.Ready?
    requires IsStep(x)
    requires var h := slots[i].value.entry; x.event == ConsentModel.Cancel(h.request.binding.requester, h.offer.correlation)
    ensures Linked(slots[i := None], x.post)
  {
    var id := slots[i].value.entry.offer.correlation.ticket.id;
    assert ReadyAt(slots, i, id);
    LinkedNarrows(slots, x.pre, x.post);
    LinkedClear(slots, x.post, i);
  }

  /** While no ticket is open: the announced one is issued to a sound request, in time, until the counter is used up. */
  predicate Issuable(s: State, c: Correlation, binding: Binding, presenter: Presenter, input: InputRoute, now: u64,
                     timeout: u64)
  {
    && s.nextId.Some? && c.ticket.id == c.display == s.nextId.value
    && s.lastNow <= now && now + timeout < U64_LIMIT
    && WellFormed(binding, presenter, input, EXECUTION_CHOICES, timeout, c.ticket.challenge)
  }

  lemma IssuedIff(s: State, e: Event)
    requires s.live == map[] && e.BeginAt? && e.choices == EXECUTION_CHOICES
    ensures Step(s, e).1.Issued? <==> Issuable(s, e.correlation, e.binding, e.presenter, e.input, e.now, e.timeout)
  {
  }

  lemma BeginLinks(slots: Slots, i: nat, x: Entry, request: Request)
    requires Linked(slots, x.pre) && WellKept(x.pre) && i < |slots| && slots[i].Some? && slots[i].value.Reserved?
    requires IsStep(x) && x.event.BeginAt? && x.event.binding == request.binding
    ensures x.response.Issued? ==>
      && x.response.offer.correlation == x.event.correlation
      && Linked(slots[i := Some(Ready(Held(x.response.offer, request, x.event.presenter)))], x.post)
    ensures !x.response.Issued? ==> Linked(slots[i := None], x.post)
  {
    hide Step, Linked;
    StepNarrowsOrIssues(x.pre, x.event);
    if x.response.Issued? {
      var h := Held(x.response.offer, request, x.event.presenter);
      CounterIsFree(x.pre);
      LinkedIssue(slots, slots[i := Some(Ready(h))], x.pre, x.post, i, h);
    } else {
      LinkedNarrows(slots, x.pre, x.post);
      LinkedClear(slots, x.post, i);
    }
  }

  lemma {:induction false} WaitingMeans(slots: Slots, target: u64)
    ensures target in Waiting(slots) <==> exists k :: 0 <= k < |slots| && slots[k].Some? && slots[k].value.Target() == target
  {
    if slots != [] {
      WaitingMeans(slots[1..], target);
      if k :| 0 <= k < |slots| && slots[k].Some? && slots[k].value.Target() == target {
        if k > 0 { assert slots[1..][k - 1] == slots[k]; }
      }
    }
  }
}
