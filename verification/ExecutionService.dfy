/**
The message loop of the capability service, as far as it holds execution calls:
housekeeping before every receive, then one message. Whole runs are stated over
any sequence of turns, with every answer of the kernel and of peers arbitrary.
*/
module ExecutionService {
  import opened Base
  import opened ConsentModel
  import opened ConsentRuns
  import opened ConsentController
  import opened ExecutionRequests
  import opened ExecutionFrontend
  import TextEvidence

  /** An image authorization request and the answers met while it is handled. */
  datatype Call = Call(
    sender: u64,
    launch: ExecutionFrontend.Launch,
    captured: Check,
    needsConsent: bool,
    granted: Check,
    requester: Result<Peer, SysError>,
    remembered: Result<bool, SysError>,
    now: Result<u64, SysError>,
    begin: BeginAnswers,
    delivered: bool)

  datatype Message =
    | Authorize(call: Call)
    | SessionChange
    | KeyEvent(source: Instance, correlation: Correlation, route: InputRoute, serial: u64, key: TextEvidence.Key,
               now: u64)
    | TextPoll(peer: Peer, master: u32, presenter: Check, current: Check, provider: Check,
               activeTerminal: Result<bool, SysError>, waiterTerminal: nat -> Result<bool, SysError>)
    | TextRelease(peer: Peer, presenter: Check, activeTerminal: Result<bool, SysError>,
                  waiterTerminal: nat -> Result<bool, SysError>)
    | WaitForPrompt(peer: Peer, presenter: Check, current: Check)
    | FrontendCommand(peer: Peer, correlation: Correlation, action: FrontendAction, now: u64, answers: CommandAnswers)
    | Nothing

  /** One trip around the loop; `message.Err?` is a receive failure, which ends the service. */
  datatype Turn = Turn(
    generation: u64,
    now: Result<u64, SysError>,
    exited: nat -> Result<bool, SysError>,
    current: Peer -> Check,
    message: Result<Message, SysError>)

  /** The events a message may put to the consent machine, with what it carries. */
  ghost function Sends(m: Message, generation: u64, limit: nat): Event -> bool {
    (e: Event) =>
      match m
      case Authorize(c) =>
        || e.Cancel?
        || (Settled(c).None? && Asks(c.launch, c.requester.value, generation, c.now.value, limit, c.begin)(e))
      case SessionChange => e.Cancel? || e.Observe?
      case KeyEvent(source, correlation, route, serial, key, now) =>
        e == Input(source, correlation, route, serial, key.transition, now)
      case TextRelease(_, _, _, _) => e.Cancel?
      case FrontendCommand(peer, correlation, action, now, answers) =>
        Commands(peer, correlation, action, now, answers)(e)
      case _ => false
  }

  /** The events a turn may put to the consent machine: closed tickets, its own clock, and those of its message. */
  ghost function Causes(turn: Turn, limit: nat): Event -> bool {
    (e: Event) =>
      || e.Cancel?
      || (turn.now.Ok? && e.Time? && e.now == turn.now.value)
      || (turn.message.Ok? && Sends(turn.message.value, turn.generation, limit)(e))
  }

  /** What housekeeping puts to the consent machine: closed tickets and the time. */
  function Housekeeping(turn: Turn): Event -> bool {
    (e: Event) => e.Cancel? || (turn.now.Ok? && e.Time? && e.now == turn.now.value)
  }

  lemma QuietHousekeeping(h: seq<Entry>, h': seq<Entry>, turn: Turn)
    requires Adds(h, h', Closes) || (turn.now.Ok? && Adds(h, h', Ticks(turn.now.value)))
    ensures Adds(h, h', Housekeeping(turn))
  {
  }

  /** The history at the mark is the one housekeeping left. */
  lemma MarkIs(h: seq<Entry>, h1: seq<Entry>, h2: seq<Entry>, turn: Turn, limit: nat)
    requires Adds(h, h1, Housekeeping(turn)) && Adds(h, h2, Causes(turn, limit))
    requires h2 == h1 || Adds(h1, h2, Closes)
             || (turn.message.Ok? && Adds(h1, h2, Sends(turn.message.value, turn.generation, limit)))
    ensures |h| <= |h1| <= |h2| && StateAt(h2, |h1|) == StateAt(h1, |h1|)
    ensures forall k: nat :: |h| <= k < |h1| ==> Housekeeping(turn)(h2[k].event)
  {
    hide Causes, Sends, Housekeeping;
    assert h1 <= h2;
    forall k: nat | |h| <= k < |h1| ensures Housekeeping(turn)(h2[k].event) {
      assert h2[k] == h1[k];
    }
  }

  /** Housekeeping and then a message, or nothing more. */
  lemma TurnCauses(h: seq<Entry>, h1: seq<Entry>, h2: seq<Entry>, turn: Turn, limit: nat)
    requires Adds(h, h1, Housekeeping(turn))
    requires h2 == h1 || Adds(h1, h2, Closes)
             || (turn.message.Ok? && Adds(h1, h2, Sends(turn.message.value, turn.generation, limit)))
    ensures Adds(h, h2, Causes(turn, limit))
  {
  }

  /** What a command or a released terminal adds, seen as its message. */
  lemma MessageSends(h: seq<Entry>, h': seq<Entry>, m: Message, generation: u64, limit: nat)
    requires match m
             case FrontendCommand(peer, correlation, action, now, answers) =>
               Adds(h, h', Commands(peer, correlation, action, now, answers))
             case TextRelease(_, _, _, _) => Adds(h, h', Closes)
             case _ => h == h'
    ensures Adds(h, h', Sends(m, generation, limit))
  {
  }

  /** What a held call adds, and then closes again where its prompt could not be delivered, seen as its message. */
  lemma AskingSends(h: seq<Entry>, h': seq<Entry>, h'': seq<Entry>, c: Call, generation: u64, limit: nat)
    requires Settled(c).None?
    requires Adds(h, h', Asks(c.launch, c.requester.value, generation, c.now.value, limit, c.begin))
    requires h'' == h' || Adds(h', h'', Closes)
    ensures Adds(h, h'', Sends(Authorize(c), generation, limit))
  {
  }

  /** The first time on the clock of a run is not after the last. */
  lemma ClockKeeps(h: seq<Entry>, h': seq<Entry>, kind: Event -> bool)
    requires Adds(h, h', kind) && IsRun(h')
    ensures StateAt(h, |h|).lastNow <= StateAt(h', |h'|).lastNow
  {
    ClockNeverGoesBack(h', |h|, |h'|);
    assert StateAt(h, |h|) == StateAt(h', |h|);
  }

  /** The callers that were answered with success, in order. */
  function Granted(replies: seq<Reply>): seq<u64> {
    if replies == [] then []
    else (if replies[0].error.None? then [replies[0].target] else []) + Granted(replies[1..])
  }

  lemma {:induction false} GrantedAppend(a: seq<Reply>, b: seq<Reply>)
    ensures Granted(a + b) == Granted(a) + Granted(b)
  {
    if a == [] {
      assert a + b == b;
    } else {
      assert (a + b)[1..] == a[1..] + b && (a + b)[0] == a[0];
      GrantedAppend(a[1..], b);
      var first := if a[0].error.None? then [a[0].target] else [];
      assert first + (Granted(a[1..]) + Granted(b)) == (first + Granted(a[1..])) + Granted(b);
    }
  }

  lemma {:induction false} ErrorsGrantNothing(replies: seq<Reply>)
    requires forall r :: r in replies ==> r.error.Some?
    ensures Granted(replies) == []
  {
    if replies != [] { ErrorsGrantNothing(replies[1..]); }
  }

  /** The caller of an authorization. */
  function CallOf(m: Message): seq<u64> {
    if m.Authorize? then [m.call.sender] else []
  }

  /** An immediate reply goes to the caller of its own message; success means that nobody had to be asked. */
  predicate Responds(m: Message, r: Reply) {
    m.Authorize? && r.target == m.call.sender && (r.error.None? ==> Settled(m.call) == Some(None))
  }

  /** The reply to a call that finds nobody waiting: its own fault, else what was found out; asking can only fail. */
  predicate AnsweredFirst(c: Call, limit: nat, answered: seq<Reply>) {
    if c.sender == 0 || c.launch.sourceLen == 0 || c.launch.sourceLen > limit
    then answered == [Reply(c.sender, Some(Native(InvalidArgument)))]
    else if Settled(c).Some? then answered == [Reply(c.sender, Settled(c).value)]
    else forall r :: r in answered ==> r.error.Some?
  }

  /** A call that is held: free of faults, it needs a question, and someone can be asked. */
  ghost predicate Holdable(active: Option<Active>, d: Desk, s: State, c: Call, generation: u64, limit: nat) {
    && c.sender != 0 && 0 < c.launch.sourceLen <= limit && Settled(c).None?
    && Startable(active, d, s, c.sender, c.launch, c.requester.value, generation, c.now.value, limit, c.begin)
  }

  /** Who waits to show a prompt after a message; a call that is not answered at once takes its presenter. */
  function AfterMessage(d: Desk, active: Option<Active>, m: Message, answered: bool): Desk {
    if |d.idle| != 2 then d else
    match m
    case Authorize(c) => if answered then d else Taken(d, c.begin)
    case TextPoll(peer, master, presenter, current, provider, _, _) =>
      Polled(d, active, peer, master, presenter, current, provider)
    case TextRelease(peer, presenter, activeTerminal, waiterTerminal) =>
      Withdrawn(d, active, peer, presenter, activeTerminal, waiterTerminal)
    case WaitForPrompt(peer, presenter, current) => Joined(d, active, peer, presenter, current)
    case _ => d
  }

  /** Who waits to show a prompt before turn `n`, from the turns, the calls answered at once and what was shown. */
  function DeskBefore(turns: seq<Turn>, asked: seq<nat>, shown: seq<Option<Active>>, n: nat): Desk
    requires n <= |turns| && n <= |shown|
    decreases n, 0
  {
    if n == 0 then Desk([None, None], []) else
    var d := DeskAt(turns, asked, shown, n - 1);
    if turns[n - 1].message.Err? then d
    else AfterMessage(d, shown[n - 1], turns[n - 1].message.value, n - 1 in asked)
  }

  /** The same when the message of turn `n` comes. */
  function DeskAt(turns: seq<Turn>, asked: seq<nat>, shown: seq<Option<Active>>, n: nat): Desk
    requires n < |turns| && n <= |shown|
    decreases n, 1
  {
    Tended(DeskBefore(turns, asked, shown, n), turns[n].current)
  }

  /**
  A call is held, not answered at once, exactly when it is holdable: the desk is as the turns left it and the consent
  machine as the history up to its turn. As long as no call was held, nothing is shown.
  */
  ghost predicate Attended(turns: seq<Turn>, n: nat, limit: nat, run: Run)
    requires n <= |turns|
  {
    && |run.shown| == |run.marks| == n && (forall k :: 0 <= k < n ==> run.marks[k] <= |run.history|)
    && (forall k :: 0 <= k < n && IsCall(turns[k]) ==> (k !in run.asked <==> AttendedAt(turns, k, limit, run)))
    && (forall k :: 0 <= k < n && NoneHeld(turns, run.asked, k) ==> run.shown[k].None?)
  }

  ghost predicate AttendedAt(turns: seq<Turn>, k: nat, limit: nat, run: Run)
    requires k < |turns| && k < |run.shown| && k < |run.marks| && run.marks[k] <= |run.history| && IsCall(turns[k])
  {
    Holdable(run.shown[k], DeskAt(turns, run.asked, run.shown, k), StateAt(run.history, run.marks[k]),
             turns[k].message.value.call, turns[k].generation, limit)
  }

  lemma {:induction false} DeskHasBoth(turns: seq<Turn>, asked: seq<nat>, shown: seq<Option<Active>>, n: nat)
    requires n <= |turns| && n <= |shown|
    ensures |DeskBefore(turns, asked, shown, n).idle| == 2
  {
    if n > 0 { DeskHasBoth(turns, asked, shown, n - 1); }
  }

  /** A graphical presenter that came while none waited is there as long as it is current and no call is held. */
  lemma {:induction false} PresenterStaysWaiting(turns: seq<Turn>, asked: seq<nat>, shown: seq<Option<Active>>, t: nat,
                                                 n: nat, peer: Peer)
    requires t < n < |turns| && n <= |shown| && turns[t].message == Ok(WaitForPrompt(peer, None, None))
    requires shown[t].Some? ==> shown[t].value.peer.instance.endpoint != peer.instance.endpoint
    requires DeskAt(turns, asked, shown, t).idle == [None, None]
    requires forall j :: t < j <= n ==> turns[j].current(peer).None?
    requires forall j :: t < j < n && IsCall(turns[j]) ==> j in asked
    ensures DeskAt(turns, asked, shown, n).idle == [None, Some(peer)]
  {
    hide Polled, Withdrawn, StillThere;
    DeskHasBoth(turns, asked, shown, n - 1);
    if n - 1 > t { PresenterStaysWaiting(turns, asked, shown, t, n - 1, peer); }
    MessageKeepsIdle(turns, asked, shown, n - 1);
  }

  lemma {:induction false} MessageKeepsIdle(turns: seq<Turn>, asked: seq<nat>, shown: seq<Option<Active>>, n: nat)
    requires n < |turns| && n < |shown| && |DeskAt(turns, asked, shown, n).idle| == 2
    requires IsCall(turns[n]) ==> n in asked
    ensures !(turns[n].message.Ok? && turns[n].message.value.WaitForPrompt?) ==>
      DeskBefore(turns, asked, shown, n + 1).idle == DeskAt(turns, asked, shown, n).idle
  {
  }

  /** Turn `t` puts a terminal on the list. */
  predicate Queues(turns: seq<Turn>, asked: seq<nat>, shown: seq<Option<Active>>, t: nat, w: TextWaiter)
    requires t < |turns| && t < |shown|
  {
    && turns[t].message.Ok? && turns[t].message.value.TextPoll?
    && var m := turns[t].message.value;
    && w == TextWaiter(m.peer, m.master) && m.presenter.None? && m.current.None? && m.provider.None?
    && !Shows(shown[t], m.peer) && |DeskAt(turns, asked, shown, t).text| < MAX_TEXT_WAITERS
    && forall i :: 0 <= i < |DeskAt(turns, asked, shown, t).text| ==>
         DeskAt(turns, asked, shown, t).text[i].peer.instance != m.peer.instance
  }

  /** The message is no withdrawal of this terminal. */
  predicate Leaves(turn: Turn, w: TextWaiter) {
    turn.message.Ok? && turn.message.value.TextRelease? ==> turn.message.value.peer.instance != w.peer.instance
  }

  /** A terminal that asked waits as long as it is current, does not withdraw and no call is held. */
  lemma {:induction false} TerminalStaysWaiting(turns: seq<Turn>, asked: seq<nat>, shown: seq<Option<Active>>, t: nat,
                                                n: nat, w: TextWaiter)
    requires t < n < |turns| && n <= |shown| && Queues(turns, asked, shown, t, w)
    requires forall j :: t < j <= n ==> turns[j].current(w.peer).None?
    requires forall j :: t < j < n ==> (IsCall(turns[j]) ==> j in asked) && Leaves(turns[j], w)
    ensures w in DeskAt(turns, asked, shown, n).text
  {
    hide Joined, StillThere;
    DeskHasBoth(turns, asked, shown, n - 1);
    if n - 1 > t {
      TerminalStaysWaiting(turns, asked, shown, t, n - 1, w);
      MessageKeepsText(turns, asked, shown, n - 1, w);
    } else {
      var d := DeskAt(turns, asked, shown, t);
      assert (d.text + [w])[|d.text|] == w;
    }
    StillThereHas(DeskBefore(turns, asked, shown, n).text, turns[n].current, w);
  }

  lemma {:induction false} MessageKeepsText(turns: seq<Turn>, asked: seq<nat>, shown: seq<Option<Active>>, n: nat,
                                            w: TextWaiter)
    requires n < |turns| && n < |shown| && w in DeskAt(turns, asked, shown, n).text
    requires (IsCall(turns[n]) ==> n in asked) && Leaves(turns[n], w)
    ensures w in DeskBefore(turns, asked, shown, n + 1).text
  {
    hide Tended;
    if turns[n].message.Ok? && turns[n].message.value.TextRelease? {
      var m := turns[n].message.value;
      WithdrawnKeeps(DeskAt(turns, asked, shown, n).text, m.peer, m.waiterTerminal, 0, w);
    }
  }

  lemma {:induction false} WithdrawnKeeps(text: seq<TextWaiter>, peer: Peer, waiterTerminal: nat -> Result<bool, SysError>,
                                          i: nat, w: TextWaiter)
    requires i <= |text| && w in text && w.peer.instance != peer.instance
    ensures w in WithdrawnFrom(text, peer, waiterTerminal, i)
    decreases |text| - i
  {
    if i < |text| {
      var k :| 0 <= k < |text| && text[k] == w;
      if text[i].peer.instance == peer.instance {
        assert (text[..i] + text[i + 1..])[if k < i then k else k - 1] == w;
      }
      WithdrawnKeeps(text, peer, waiterTerminal, i + 1, w);
    }
  }

  lemma {:induction false} StillThereHas(text: seq<TextWaiter>, current: Peer -> Check, w: TextWaiter)
    requires w in text && current(w.peer).None?
    ensures w in StillThere(text, current)
  {
    if text[|text| - 1] != w { StillThereHas(text[..|text| - 1], current, w); }
  }

  /** Later replies do not change who waited. */
  lemma {:induction false} DeskStays(turns: seq<Turn>, asked: seq<nat>, asked': seq<nat>, shown: seq<Option<Active>>,
                                     shown': seq<Option<Active>>, n: nat)
    requires n <= |turns| && n <= |shown| && shown <= shown' && forall j :: 0 <= j < n ==> (j in asked <==> j in asked')
    ensures DeskBefore(turns, asked', shown', n) == DeskBefore(turns, asked, shown, n)
  {
    hide AfterMessage, Tended;
    if n > 0 { DeskStays(turns, asked, asked', shown, shown', n - 1); }
  }

  lemma {:induction false} AttendedStays(turns: seq<Turn>, n: nat, limit: nat, run: Run, run': Run)
    requires n <= |turns| && Attended(turns, n, limit, run) && run.history <= run'.history
    requires run'.asked == run.asked && run'.marks == run.marks && run'.shown == run.shown
    ensures Attended(turns, n, limit, run')
  {
    hide Holdable, AfterMessage, Tended, IsCall, NoneHeld;
    forall k | 0 <= k < n && IsCall(turns[k]) ensures k !in run'.asked <==> AttendedAt(turns, k, limit, run') {
      assert StateAt(run'.history, run.marks[k]) == StateAt(run.history, run.marks[k]);
    }
  }

  /** One more turn is attended. */
  lemma {:induction false} AttendedGrows(turns: seq<Turn>, n: nat, limit: nat, run: Run, run': Run, answered: seq<Reply>,
                                         mark: nat, shown: Option<Active>)
    requires n < |turns| && turns[n].message.Ok? && Attended(turns, n, limit, run)
    requires run.history <= run'.history && run'.asked == AskedAfter(run.asked, answered, n)
    requires run'.shown == run.shown + [shown] && run'.marks == run.marks + [mark]
    requires mark <= |run'.history| && forall j :: j in run.asked ==> j < n
    requires answered != [] ==> IsCall(turns[n])
    requires NoneHeld(turns, run.asked, n) ==> shown.None?
    requires IsCall(turns[n]) ==>
      (answered == [] <==> Holdable(shown, DeskAt(turns, run.asked, run.shown, n), StateAt(run'.history, mark),
                                    turns[n].message.value.call, turns[n].generation, limit))
    ensures Attended(turns, n + 1, limit, run')
    ensures DeskBefore(turns, run'.asked, run'.shown, n + 1)
         == AfterMessage(DeskAt(turns, run.asked, run.shown, n), shown, turns[n].message.value, answered != [])
  {
    hide Holdable, AfterMessage, Tended, IsCall, NoneHeld;
    assert forall j :: 0 <= j < n ==> (j in run'.asked <==> j in run.asked);
    assert n in run'.asked <==> answered != [] by { if answered != [] { assert run'.asked[|run.asked|] == n; } }
    DeskStays(turns, run.asked, run'.asked, run.shown, run'.shown, n);
    forall k | 0 <= k < n + 1 && IsCall(turns[k]) ensures k !in run'.asked <==> AttendedAt(turns, k, limit, run') {
      if k < n {
        DeskStays(turns, run.asked, run'.asked, run.shown, run'.shown, k);
        assert run'.marks[k] == run.marks[k];
        assert StateAt(run'.history, run.marks[k]) == StateAt(run.history, run.marks[k]);
      }
    }
    forall k | 0 <= k < n + 1 && NoneHeld(turns, run'.asked, k) ensures run'.shown[k].None? {
      HeldBefore(turns, run.asked, answered, n, k);
    }
  }

  function TerminalOf(active: Option<Active>): Option<u32> { if active.None? then None else active.value.terminal }

  /** The authorization asked for this request. */
  predicate AsksFor(m: Message, generation: u64, limit: nat, q: Request) {
    && m.Authorize? && Settled(m.call).None? && m.call.begin.session.Ok?
    && NewRequest(m.call.launch, m.call.requester.value, m.call.begin.session.value, generation, limit) == Ok(q)
  }

  ghost predicate OnTerminal(m: Message)
    requires m.Authorize?
  {
    exists i: nat :: m.call.begin.textMatches(i) == Ok(true)
  }

  /** A call held after the message was held before it, on the same terminal, or the message asked for it. */
  ghost predicate Carries(m: Message, generation: u64, limit: nat, slots: Slots, active: Option<Active>, slots': Slots,
                          active': Option<Active>)
  {
    && |slots'| == |slots|
    && forall i :: 0 <= i < |slots'| && slots'[i].Some? ==>
         || (slots'[i] == slots[i] && TerminalOf(active') == TerminalOf(active))
         || (slots'[i].value.Ready? && AsksFor(m, generation, limit, slots'[i].value.entry.request)
             && (TerminalOf(active').Some? ==> OnTerminal(m)))
  }

  lemma StaysCarries(m: Message, generation: u64, limit: nat, slots: Slots, active: Option<Active>, slots': Slots,
                     active': Option<Active>)
    requires Stays(slots, active, slots', active')
    ensures Carries(m, generation, limit, slots, active, slots', active')
  {
  }

  lemma EmptyCarries(m: Message, generation: u64, limit: nat, slots: Slots, active: Option<Active>, slots': Slots,
                     active': Option<Active>)
    requires |slots'| == |slots| && AllEmpty(slots')
    ensures Carries(m, generation, limit, slots, active, slots', active')
  {
  }

  /** A session change or a key leaves those who wait alone. */
  lemma PlainMessage(d: Desk, active: Option<Active>, m: Message)
    requires m.SessionChange? || m.KeyEvent?
    ensures AfterMessage(d, active, m, false) == d
  {
  }

  lemma CarriesOn(m: Message, generation: u64, limit: nat, slots: Slots, active: Option<Active>, slots1: Slots,
                  active1: Option<Active>, slots': Slots, active': Option<Active>)
    requires Stays(slots, active, slots1, active1) && Carries(m, generation, limit, slots1, active1, slots', active')
    ensures Carries(m, generation, limit, slots, active, slots', active')
  {
    hide AsksFor, OnTerminal;
  }

  /** The command decides the held call and the decision holds. */
  ghost predicate Decided(m: Message, generation: u64, slots: Slots, s: State, active: Option<Active>)
    requires m.FrontendCommand?
  {
    && Decides(active, m.peer, m.correlation, m.action, m.answers)
    && Granting(slots, s, m.peer, m.correlation, m.action.choice, generation, m.now, m.answers)
  }

  /** The command is a decision that the consent machine in state `s` approves, with good answers on the way. */
  predicate Confirmed(turn: Turn, s: State) {
    && turn.message.Ok? && turn.message.value.FrontendCommand?
    && var m := turn.message.value;
    && m.action.Decide? && m.answers.current.None? && m.answers.observe.Ok? && m.answers.synchronized.None?
    && Approvable(s, m.peer.instance, m.correlation, m.action.choice, m.answers.observe.value.current, m.now)
  }

  /** What the confirmed ticket is bound to. */
  function BindingOf(turn: Turn, s: State): Binding
    requires Confirmed(turn, s)
  {
    s.live[turn.message.value.correlation.ticket.id].binding
  }

  /** A launch of this request completes in the turn. */
  predicate Finishable(turn: Turn, q: Request) {
    && turn.message.Ok? && turn.message.value.FrontendCommand?
    && var m := turn.message.value;
    && m.action.Decide? && m.answers.observe.Ok? && m.answers.observe.value.current.session.Some?
    && Completes(q, m.action.choice, m.answers.observe.value.requester, m.answers.observe.value.current.session.value,
                 turn.generation, m.answers.completion)
  }

  /** Every held call with this binding is shown by a graphical presenter and completes in the turn. */
  predicate AllFinish(turn: Turn, slots: Slots, active: Option<Active>, binding: Binding) {
    forall i :: 0 <= i < |slots| && slots[i].Some? && slots[i].value.Ready? && slots[i].value.entry.request.binding == binding
      ==> TerminalOf(active).None? && Finishable(turn, slots[i].value.entry.request)
  }

  /** A confirmed decision about held calls that all complete. */
  predicate Deserves(turn: Turn, s: State, slots: Slots, active: Option<Active>) {
    Confirmed(turn, s) && AllFinish(turn, slots, active, BindingOf(turn, s))
  }

  lemma FinishStays(turn: Turn, slots: Slots, active: Option<Active>, slots': Slots, active': Option<Active>,
                    binding: Binding)
    requires Stays(slots, active, slots', active') && AllFinish(turn, slots, active, binding)
    ensures AllFinish(turn, slots', active', binding)
  {
    hide Finishable;
  }

  /** A confirmed decision about a held call that completes is granted. */
  lemma ConfirmedIsDecided(turn: Turn, slots: Slots, s: State, active: Option<Active>)
    requires Confirmed(turn, s) && Linked(slots, s) && Keyed(s) && OnlyActive(slots, active, -1) && ArmedKnown(active, s)
    requires active.Some? ==> active.value.presenter.instance == active.value.peer.instance
    requires AllFinish(turn, slots, active, BindingOf(turn, s))
    ensures Decided(turn.message.value, turn.generation, slots, s, active)
  {
    hide TicketsIssued, TicketsDistinct, Completes, NewRequest;
    var m := turn.message.value;
    var id := m.correlation.ticket.id;
    assert ArmedIn(s, id);
    var i: nat :| ReadyAt(slots, i, id);
    assert SameHeld(slots[i].value.entry, s.live[id]);
    assert s.live[id].offer.correlation == m.correlation;
    forall k: nat | k < |slots| && Matches(slots[k], m.correlation)
      ensures Completes(slots[k].value.entry.request, m.action.choice, m.answers.observe.value.requester,
                        m.answers.observe.value.current.session.value, turn.generation, m.answers.completion)
    {
      assert ReadyAt(slots, k, id);
      assert SameHeld(slots[k].value.entry, s.live[id]);
    }
  }

  /** Only a presenter's command ends a held call with success, and then exactly that call. */
  ghost predicate EmitsOne(m: Message, generation: u64, h: seq<Entry>, from: nat, emitted: seq<Reply>) {
    || (forall r :: r in emitted ==> r.error.Some?)
    || (m.FrontendCommand? && Grants(emitted) && ApprovedUnder(h, from, emitted[0].target, generation, m.answers))
  }

  lemma ErrorsEmit(m: Message, generation: u64, h: seq<Entry>, from: nat, emitted: seq<Reply>)
    requires forall r :: r in emitted ==> r.error.Some?
    ensures EmitsOne(m, generation, h, from, emitted)
  {
  }

  /** The turn's command ended a call of `target` with the approval at entry `k`. */
  predicate GrantedBy(turn: Turn, history: seq<Entry>, k: nat, target: u64) {
    && turn.message.Ok? && turn.message.value.FrontendCommand?
    && ApprovedUnder(history, k, target, turn.generation, turn.message.value.answers)
  }

  /** Each success has an approval of its own, in order, given by the command of the turn that recorded it. */
  ghost predicate GrantsBacked(turns: seq<Turn>, cause: seq<nat>, history: seq<Entry>, granted: seq<u64>,
                               approvals: seq<nat>)
  {
    && |approvals| == |granted| && |cause| == |history|
    && (forall i :: 0 <= i < |granted| ==> approvals[i] < |cause| && cause[approvals[i]] < |turns|)
    && (forall i :: 0 <= i < |granted| ==> GrantedBy(turns[cause[approvals[i]]], history, approvals[i], granted[i]))
    && (forall i, j :: 0 <= i < j < |approvals| ==> approvals[i] < approvals[j])
  }

  /** Entry `k` approves a request of caller `target`, after it was shown, armed and freshly confirmed. */
  ghost predicate WitnessedGrant(history: seq<Entry>, k: nat, target: u64) {
    && ApprovedAt(history, k, target)
    && exists c, p :: Witnessed(history, k, c, p, history[k].response.outcome.approval)
  }

  lemma GrantsAreWitnessed(turns: seq<Turn>, cause: seq<nat>, history: seq<Entry>, granted: seq<u64>,
                           approvals: seq<nat>)
    requires IsRun(history) && GrantsBacked(turns, cause, history, granted, approvals)
    ensures forall i :: 0 <= i < |granted| ==> WitnessedGrant(history, approvals[i], granted[i])
  {
    hide IsRun, Witnessed, Authorized;
    forall i | 0 <= i < |granted| ensures WitnessedGrant(history, approvals[i], granted[i]) {
      assert GrantedBy(turns[cause[approvals[i]]], history, approvals[i], granted[i]);
      ApprovalIsWitnessed(history, approvals[i]);
    }
  }

  /** Every entry of the history was recorded in a turn before `n`, in order, for a reason that turn carries. */
  ghost predicate Traced(turns: seq<Turn>, n: nat, limit: nat, history: seq<Entry>, cause: seq<nat>)
    requires n <= |turns|
  {
    && |cause| == |history|
    && (forall k :: 0 <= k < |cause| ==> cause[k] < n)
    && (forall k :: 0 <= k < |cause| ==> Causes(turns[cause[k]], limit)(history[k].event))
    && (forall k, l :: 0 <= k < l < |cause| ==> cause[k] <= cause[l])
  }

  /** A turn is recorded as the reason of the entries it adds. */
  lemma TraceGrows(turns: seq<Turn>, n: nat, limit: nat, h: seq<Entry>, h': seq<Entry>, cause: seq<nat>)
    returns (cause': seq<nat>)
    requires n < |turns| && Traced(turns, n, limit, h, cause) && Adds(h, h', Causes(turns[n], limit))
    ensures Traced(turns, n + 1, limit, h', cause') && Extends(cause, cause', n)
  {
    hide Causes;
    cause' := seq(|h'|, (k: nat) requires k < |h'| => if k < |cause| then cause[k] else n);
    forall k | 0 <= k < |cause'| ensures Causes(turns[cause'[k]], limit)(h'[k].event) {
      if k < |cause| { assert h'[k] == h[k]; }
    }
  }

  predicate Extends(cause: seq<nat>, cause': seq<nat>, n: nat) {
    cause <= cause' && forall k :: |cause| <= k < |cause'| ==> cause'[k] == n
  }

  /** Every immediate reply answers the authorization of a turn of its own, in order. */
  ghost predicate Replied(turns: seq<Turn>, n: nat, answers: seq<Reply>, asked: seq<nat>)
    requires n <= |turns|
  {
    && |asked| == |answers|
    && (forall i :: 0 <= i < |asked| ==> asked[i] < n)
    && (forall i :: 0 <= i < |asked| ==>
          turns[asked[i]].message.Ok? && Responds(turns[asked[i]].message.value, answers[i]))
    && (forall i, j :: 0 <= i < j < |asked| ==> asked[i] < asked[j])
  }

  /** Mark `k` lies between housekeeping and message of turn `k`. */
  ghost predicate Marked(turns: seq<Turn>, n: nat, history: seq<Entry>, cause: seq<nat>, marks: seq<nat>)
    requires n <= |turns|
  {
    && |marks| == n && |cause| == |history|
    && (forall k :: 0 <= k < n ==> marks[k] <= |history|)
    && (forall k, j :: 0 <= k < n && 0 <= j < marks[k] ==> cause[j] <= k)
    && (forall k, j :: 0 <= k < n && marks[k] <= j < |cause| ==> cause[j] >= k)
    && (forall k, j :: 0 <= k < n && 0 <= j < marks[k] && cause[j] == k ==> Housekeeping(turns[k])(history[j].event))
  }

  predicate CouldOpen(turn: Turn, limit: nat, q: Request) {
    turn.message.Ok? && AsksFor(turn.message.value, turn.generation, limit, q)
  }

  /** Whichever earlier authorization asked for this binding: no terminal, and its launch completes in turn `n`. */
  ghost predicate OpenersAgree(turns: seq<Turn>, n: nat, limit: nat, binding: Binding)
    requires n < |turns|
  {
    forall t: nat, q :: t < n && CouldOpen(turns[t], limit, q) && q.binding == binding ==>
      !OnTerminal(turns[t].message.value) && Finishable(turns[n], q)
  }

  /** A confirmed decision is granted: its turn's message approves, and the approval backs a success. */
  ghost predicate Generous(turns: seq<Turn>, n: nat, limit: nat, history: seq<Entry>, marks: seq<nat>,
                           approvals: seq<nat>)
    requires n <= |turns|
  {
    && |marks| == n && (forall k :: 0 <= k < n ==> marks[k] <= |history|)
    && forall k :: 0 <= k < n && Owed(turns, k, limit, history, marks[k]) ==> marks[k] in approvals
  }

  ghost predicate Owed(turns: seq<Turn>, k: nat, limit: nat, history: seq<Entry>, mark: nat)
    requires k < |turns| && mark <= |history|
  {
    && Confirmed(turns[k], StateAt(history, mark))
    && OpenersAgree(turns, k, limit, BindingOf(turns[k], StateAt(history, mark)))
  }

  /** Every held call was asked for in an earlier turn, which matched a terminal if it is shown on one. */
  ghost predicate HeldBy(turns: seq<Turn>, n: nat, limit: nat, slots: Slots, active: Option<Active>)
    requires n <= |turns|
  {
    forall i :: 0 <= i < |slots| && slots[i].Some? ==>
      slots[i].value.Ready? && exists t: nat :: OpenedBy(turns, t, n, limit, slots[i].value.entry.request, active)
  }

  ghost predicate OpenedBy(turns: seq<Turn>, t: nat, n: nat, limit: nat, q: Request, active: Option<Active>)
    requires n <= |turns|
  {
    t < n && CouldOpen(turns[t], limit, q) && (TerminalOf(active).Some? ==> OnTerminal(turns[t].message.value))
  }

  lemma HeldByGrows(turns: seq<Turn>, n: nat, limit: nat, slots: Slots, active: Option<Active>, slots': Slots,
                    active': Option<Active>)
    requires n < |turns| && turns[n].message.Ok? && HeldBy(turns, n, limit, slots, active)
    requires Carries(turns[n].message.value, turns[n].generation, limit, slots, active, slots', active')
    ensures HeldBy(turns, n + 1, limit, slots', active')
  {
    hide AsksFor, OnTerminal;
    var next := n + 1;
    forall i | 0 <= i < |slots'| && slots'[i].Some?
      ensures slots'[i].value.Ready?
              && exists t: nat :: OpenedBy(turns, t, next, limit, slots'[i].value.entry.request, active')
    {
      if slots'[i] == slots[i] && TerminalOf(active') == TerminalOf(active) {
        var t: nat :| OpenedBy(turns, t, n, limit, slots[i].value.entry.request, active);
        assert OpenedBy(turns, t, next, limit, slots'[i].value.entry.request, active');
      } else {
        assert OpenedBy(turns, n, next, limit, slots'[i].value.entry.request, active');
      }
    }
  }

  lemma AgreeingFinish(turns: seq<Turn>, n: nat, limit: nat, slots: Slots, active: Option<Active>, binding: Binding)
    requires n < |turns| && HeldBy(turns, n, limit, slots, active) && OpenersAgree(turns, n, limit, binding)
    ensures AllFinish(turns[n], slots, active, binding)
  {
    hide AsksFor, OnTerminal, Finishable;
    forall i | 0 <= i < |slots| && slots[i].Some? && slots[i].value.Ready? && slots[i].value.entry.request.binding == binding
      ensures TerminalOf(active).None? && Finishable(turns[n], slots[i].value.entry.request)
    {
      var t: nat :| OpenedBy(turns, t, n, limit, slots[i].value.entry.request, active);
    }
  }

  /** One more turn is marked. */
  lemma MarksGrow(turns: seq<Turn>, n: nat, ok: bool, h: seq<Entry>, h': seq<Entry>, cause: seq<nat>, cause': seq<nat>,
                  marks: seq<nat>, mark: nat)
    requires n < |turns| && Marked(turns, n, h, cause, marks) && h <= h' && |cause'| == |h'| && Extends(cause, cause', n)
    requires |h| <= mark <= |h'| && forall k: nat :: |h| <= k < mark ==> Housekeeping(turns[n])(h'[k].event)
    requires forall k :: 0 <= k < |cause| ==> cause[k] < n
    ensures Marked(turns, if ok then n + 1 else n, h', cause', if ok then marks + [mark] else marks)
  {
    hide Housekeeping;
    var marks' := if ok then marks + [mark] else marks;
    forall k, j | 0 <= k < |marks'| && 0 <= j < marks'[k] && cause'[j] == k
      ensures Housekeeping(turns[k])(h'[j].event)
    {
      if j < |h| { assert h'[j] == h[j]; }
    }
  }

  lemma GenerousGrows(turns: seq<Turn>, n: nat, ok: bool, limit: nat, h: seq<Entry>, h': seq<Entry>, marks: seq<nat>,
                      mark: nat, approvals: seq<nat>, more: seq<Reply>)
    requires n < |turns| && Generous(turns, n, limit, h, marks, approvals) && h <= h' && mark <= |h'|
    requires ok && Owed(turns, n, limit, h', mark) ==> Granted(more) != []
    ensures Generous(turns, if ok then n + 1 else n, limit, h', if ok then marks + [mark] else marks,
                     ApprovedAfter(approvals, more, mark))
  {
    hide Confirmed, OpenersAgree, Granted;
    var marks', approvals' := if ok then marks + [mark] else marks, ApprovedAfter(approvals, more, mark);
    assert forall m :: m in approvals ==> m in approvals';
    forall k | 0 <= k < |marks'| && Owed(turns, k, limit, h', marks'[k]) ensures marks'[k] in approvals' {
      if k < n {
        assert StateAt(h', marks[k]) == StateAt(h, marks[k]);
        assert Owed(turns, k, limit, h, marks[k]);
      } else {
        assert approvals'[|approvals|] == mark;
      }
    }
  }

  /** The replies so far, at once and later, and the consent history are accounted for by the turns so far. */
  ghost predicate Explained(turns: seq<Turn>, served: nat, entered: nat, limit: nat, answers: seq<Reply>,
                            retained: seq<Reply>, run: Run)
    requires served <= entered <= |turns|
  {
    && Replied(turns, served, answers, run.asked) && Prompt(turns, served, limit, answers, run.asked)
    && Traced(turns, entered, limit, run.history, run.cause) && Marked(turns, served, run.history, run.cause, run.marks)
    && Generous(turns, served, limit, run.history, run.marks, run.approvals)
    && GrantsBacked(turns, run.cause, run.history, Granted(retained), run.approvals)
  }

  predicate IsCall(turn: Turn) { turn.message.Ok? && turn.message.value.Authorize? }

  /** Every call before turn `n` was answered at once. */
  predicate NoneHeld(turns: seq<Turn>, asked: seq<nat>, n: nat)
    requires n <= |turns|
  {
    forall j :: 0 <= j < n && IsCall(turns[j]) ==> j in asked
  }

  /** Calls that need no question are answered at once, and while no call was held, with what was found out. */
  ghost predicate Prompt(turns: seq<Turn>, n: nat, limit: nat, answers: seq<Reply>, asked: seq<nat>)
    requires n <= |turns|
  {
    && |asked| == |answers|
    && (forall i :: 0 <= i < n && IsCall(turns[i]) && Settled(turns[i].message.value.call).Some? ==> i in asked)
    && (forall m :: 0 <= m < |asked| ==> asked[m] < n && IsCall(turns[asked[m]]))
    && (forall m :: 0 <= m < |asked| && NoneHeld(turns, asked, asked[m]) ==>
          AnsweredFirst(turns[asked[m]].message.value.call, limit, [answers[m]]))
  }

  /** The authorizations received in the first `n` turns. */
  function CallsUpTo(turns: seq<Turn>, n: nat): seq<u64>
    requires n <= |turns|
  {
    if n == 0 then [] else CallsUpTo(turns, n - 1) + match turns[n - 1].message case Ok(m) => CallOf(m) case Err(_) => []
  }

  lemma CallsStep(turns: seq<Turn>, n: nat, ok: bool, calls: seq<u64>, called: seq<u64>)
    requires n < |turns| && calls == CallsUpTo(turns, n)
    requires if ok then turns[n].message.Ok? && called == CallOf(turns[n].message.value) else called == []
    ensures calls + called == CallsUpTo(turns, if ok then n + 1 else n)
  {
  }

  lemma {:induction false} LedgerStarts(turns: seq<Turn>, limit: nat)
    ensures Explained(turns, 0, 0, limit, [], [], Run([], [], [], [], [], [])) && Answered([]) == multiset{}
    ensures CallsUpTo(turns, 0) == []
    ensures Attended(turns, 0, limit, Run([], [], [], [], [], []))
    ensures DeskBefore(turns, [], [], 0) == Desk([None, None], [])
  {
  }

  lemma BackingGrows(turns: seq<Turn>, cause: seq<nat>, cause': seq<nat>, h: seq<Entry>, h': seq<Entry>,
                     granted: seq<u64>, approvals: seq<nat>)
    requires h <= h' && cause <= cause' && |cause'| == |h'| && GrantsBacked(turns, cause, h, granted, approvals)
    ensures GrantsBacked(turns, cause', h', granted, approvals)
    ensures forall i :: 0 <= i < |approvals| ==> approvals[i] < |h|
  {
    hide Authorized;
    forall i | 0 <= i < |granted| ensures GrantedBy(turns[cause'[approvals[i]]], h', approvals[i], granted[i]) {
      assert GrantedBy(turns[cause[approvals[i]]], h, approvals[i], granted[i]);
    }
  }

  /** At most one success, with its approval at position `mark`. */
  ghost predicate NewlyGranted(turn: Turn, h: seq<Entry>, mark: nat, granted: seq<u64>) {
    granted == [] || (|granted| == 1 && GrantedBy(turn, h, mark, granted[0]))
  }

  /** Errors of a sweep followed by the reply of one message. */
  lemma RoundGrants(turn: Turn, h: seq<Entry>, mark: nat, swept: seq<Reply>, emitted: seq<Reply>)
    requires forall r :: r in swept ==> r.error.Some?
    requires || (forall r :: r in emitted ==> r.error.Some?)
             || (turn.message.Ok? && EmitsOne(turn.message.value, turn.generation, h, mark, emitted))
    ensures NewlyGranted(turn, h, mark, Granted(swept + emitted))
    ensures Grants(emitted) ==> Granted(swept + emitted) != []
  {
    hide ApprovedUnder;
    GrantedAppend(swept, emitted);
    ErrorsGrantNothing(swept);
    assert |emitted| == 1 ==> emitted[0] in emitted;
    if forall r :: r in emitted ==> r.error.Some? {
      ErrorsGrantNothing(emitted);
    } else {
      assert emitted == [emitted[0]] && Granted(swept + emitted) == [emitted[0].target];
    }
  }

  /** A round's replies extend the list of approvals. */
  lemma EmittedBacked(turns: seq<Turn>, n: nat, cause: seq<nat>, cause': seq<nat>, h: seq<Entry>, h': seq<Entry>,
                      retained: seq<Reply>, more: seq<Reply>, approvals: seq<nat>, mark: nat)
    requires n < |turns| && h <= h' && Extends(cause, cause', n) && |cause'| == |h'| && |h| <= mark
    requires GrantsBacked(turns, cause, h, Granted(retained), approvals)
    requires NewlyGranted(turns[n], h', mark, Granted(more))
    ensures GrantsBacked(turns, cause', h', Granted(retained + more), ApprovedAfter(approvals, more, mark))
  {
    hide GrantedBy, Granted;
    GrantedAppend(retained, more);
    BackingGrows(turns, cause, cause', h, h', Granted(retained), approvals);
    if Granted(more) == [] {
      assert Granted(retained) + Granted(more) == Granted(retained);
    } else {
      assert Granted(more) == [Granted(more)[0]];
      GrantedWithin(turns[n], h', mark, Granted(more)[0]);
      BackingAppends(turns, cause', h', Granted(retained), approvals, Granted(more)[0], n, mark, |h|);
    }
  }

  lemma GrantedWithin(turn: Turn, h: seq<Entry>, k: nat, target: u64)
    requires GrantedBy(turn, h, k, target)
    ensures k < |h|
  {
  }

  lemma BackingAppends(turns: seq<Turn>, cause: seq<nat>, h: seq<Entry>, granted: seq<u64>, approvals: seq<nat>, target: u64,
                       n: nat, mark: nat, from: nat)
    requires GrantsBacked(turns, cause, h, granted, approvals) && forall i :: 0 <= i < |approvals| ==> approvals[i] < from
    requires from <= mark < |cause| && n < |turns| && cause[mark] == n && GrantedBy(turns[n], h, mark, target)
    ensures GrantsBacked(turns, cause, h, granted + [target], approvals + [mark])
  {
    hide GrantedBy;
  }

  function ApprovedAfter(approvals: seq<nat>, more: seq<Reply>, mark: nat): seq<nat> {
    if Granted(more) == [] then approvals else approvals + [mark]
  }

  function AskedAfter(asked: seq<nat>, answered: seq<Reply>, n: nat): seq<nat> {
    if answered == [] then asked else asked + [n]
  }

  /** A round's immediate replies belong to its own message. */
  lemma RepliesGrow(turns: seq<Turn>, n: nat, answers: seq<Reply>, answered: seq<Reply>, asked: seq<nat>)
    requires n < |turns| && Replied(turns, n, answers, asked)
    requires |answered| <= 1 && forall r :: r in answered ==> turns[n].message.Ok? && Responds(turns[n].message.value, r)
    ensures Replied(turns, n + 1, answers + answered, AskedAfter(asked, answered, n))
  {
    hide Responds;
    if answered == [] {
      assert answers + answered == answers;
    } else {
      assert answered[0] in answered && answered == [answered[0]];
      var asked', answers' := asked + [n], answers + answered;
      forall i | 0 <= i < |asked'|
        ensures asked'[i] <= n && turns[asked'[i]].message.Ok? && Responds(turns[asked'[i]].message.value, answers'[i])
      {
        if i < |asked| { assert asked'[i] == asked[i] && answers'[i] == answers[i]; }
      }
    }
  }

  /** What was held before an earlier turn does not depend on later replies. */
  lemma HeldBefore(turns: seq<Turn>, asked: seq<nat>, answered: seq<Reply>, n: nat, k: nat)
    requires k <= n < |turns|
    ensures NoneHeld(turns, AskedAfter(asked, answered, n), k) <==> NoneHeld(turns, asked, k)
  {
    hide IsCall;
    assert forall j :: 0 <= j < k ==> (j in AskedAfter(asked, answered, n) <==> j in asked);
  }

  lemma PromptGrows(turns: seq<Turn>, n: nat, limit: nat, answers: seq<Reply>, answered: seq<Reply>, asked: seq<nat>)
    requires n < |turns| && Prompt(turns, n, limit, answers, asked) && |answered| <= 1
    requires answered != [] ==> IsCall(turns[n])
    requires IsCall(turns[n]) && Settled(turns[n].message.value.call).Some? ==> answered != []
    requires IsCall(turns[n]) && NoneHeld(turns, asked, n) ==> AnsweredFirst(turns[n].message.value.call, limit, answered)
    ensures Prompt(turns, n + 1, limit, answers + answered, AskedAfter(asked, answered, n))
  {
    hide Settled, AnsweredFirst, NoneHeld;
    var asked', answers' := AskedAfter(asked, answered, n), answers + answered;
    forall m | 0 <= m < |asked'| && NoneHeld(turns, asked', asked'[m])
      ensures AnsweredFirst(turns[asked'[m]].message.value.call, limit, [answers'[m]])
    {
      HeldBefore(turns, asked, answered, n, asked'[m]);
      if m == |asked| { assert answered == [answers'[m]]; }
    }
    forall i | 0 <= i < n + 1 && IsCall(turns[i]) && Settled(turns[i].message.value.call).Some? ensures i in asked' {
      if i == n { assert asked'[|asked|] == n; }
    }
  }

  /** One turn, completed or not, is accounted for. */
  lemma TurnExplained(turns: seq<Turn>, n: nat, ok: bool, limit: nat, answers: seq<Reply>, answered: seq<Reply>,
                      retained: seq<Reply>, emitted: seq<Reply>, run: Run, h: seq<Entry>, mark: nat,
                      shown: Option<Active>)
    returns (run': Run)
    requires n < |turns| && Explained(turns, n, n, limit, answers, retained, run)
    requires Adds(run.history, h, Causes(turns[n], limit)) && NewlyGranted(turns[n], h, mark, Granted(emitted))
    requires |run.history| <= mark <= |h|
    requires forall k: nat :: |run.history| <= k < mark ==> Housekeeping(turns[n])(h[k].event)
    requires ok && Owed(turns, n, limit, h, mark) ==> Granted(emitted) != []
    requires |answered| <= (if ok then 1 else 0)
    requires forall r :: r in answered ==> turns[n].message.Ok? && Responds(turns[n].message.value, r)
    requires ok && IsCall(turns[n]) && Settled(turns[n].message.value.call).Some? ==> answered != []
    requires ok && IsCall(turns[n]) && NoneHeld(turns, run.asked, n) ==>
      AnsweredFirst(turns[n].message.value.call, limit, answered)
    ensures run'.history == h && run.history <= h
    ensures Explained(turns, if ok then n + 1 else n, n + 1, limit, answers + answered, retained + emitted, run')
    ensures run'.asked == AskedAfter(run.asked, answered, n)
    ensures ok ==> run'.marks == run.marks + [mark] && run'.shown == run.shown + [shown]
    ensures !ok ==> run'.marks == run.marks && run'.shown == run.shown
  {
    hide GrantsBacked, Replied, Granted, Causes, NewlyGranted, Responds, Prompt, NoneHeld, AnsweredFirst, Settled, Marked,
      Generous, Owed, Housekeeping;
    var cause := TraceGrows(turns, n, limit, run.history, h, run.cause);
    EmittedBacked(turns, n, run.cause, cause, run.history, h, retained, emitted, run.approvals, mark);
    MarksGrow(turns, n, ok, run.history, h, run.cause, cause, run.marks, mark);
    GenerousGrows(turns, n, ok, limit, run.history, h, run.marks, mark, run.approvals, emitted);
    var asked := run.asked;
    if ok {
      RepliesGrow(turns, n, answers, answered, asked);
      assert answered != [] ==> answered[0] in answered;
      RespondsToCall(turns[n], answered);
      PromptGrows(turns, n, limit, answers, answered, asked);
      asked := AskedAfter(asked, answered, n);
    } else {
      assert answers + answered == answers;
    }
    run' := Run(h, cause, asked, ApprovedAfter(run.approvals, emitted, mark),
                if ok then run.marks + [mark] else run.marks, if ok then run.shown + [shown] else run.shown);
  }

  lemma RespondsToCall(turn: Turn, answered: seq<Reply>)
    requires forall r :: r in answered ==> turn.message.Ok? && Responds(turn.message.value, r)
    ensures answered != [] ==> IsCall(turn)
  {
    if answered != [] { assert answered[0] in answered; }
  }

  /** As many answers as calls leave nobody waiting when nobody was. */
  lemma AnsweredAll(called: seq<u64>, answered: seq<Reply>, emitted: multiset<u64>, left: multiset<u64>)
    requires multiset(called) == left + emitted + Answered(answered) && |called| == |answered| <= 1
    ensures left == multiset{}
  {
    if answered != [] {
      assert answered == [answered[0]];
      assert |Answered(answered)| == 1 && |multiset(called)| == 1;
    }
    assert |left| + |emitted| + |Answered(answered)| == |multiset(called)|;
  }

  /** A call answered at once leaves nobody waiting who did not wait before. */
  lemma StillQuiet(turns: seq<Turn>, n: nat, ok: bool, asked: seq<nat>, called: seq<u64>, answered: seq<Reply>,
                   emitted: seq<Reply>, before: multiset<u64>, left: multiset<u64>)
    requires n < |turns| && before + multiset(called) == left + Answered(emitted) + Answered(answered)
    requires |answered| <= |called|
    requires if ok then turns[n].message.Ok? && called == CallOf(turns[n].message.value) else called == []
    requires NoneHeld(turns, asked, n) ==> before == multiset{}
    requires forall j :: j in asked ==> j < n
    ensures ok && NoneHeld(turns, AskedAfter(asked, answered, n), n + 1) ==> left == multiset{}
  {
    hide Answered;
    if ok && NoneHeld(turns, AskedAfter(asked, answered, n), n + 1) {
      assert NoneHeld(turns, AskedAfter(asked, answered, n), n);
      HeldBefore(turns, asked, answered, n, n);
      if IsCall(turns[n]) { assert n in AskedAfter(asked, answered, n); }
      AnsweredAll(called, answered, Answered(emitted), left);
    }
  }

  lemma AskedIsPast(turns: seq<Turn>, served: nat, entered: nat, limit: nat, answers: seq<Reply>, retained: seq<Reply>,
                    run: Run)
    requires served <= entered <= |turns| && Explained(turns, served, entered, limit, answers, retained, run)
    ensures forall j :: j in run.asked ==> j < served
  {
  }

  lemma RetireKeepsActive(slots: Slots, slots': Slots, due: (nat, Slot) -> Option<SysError>, active: Option<Active>)
    requires OnlyActive(slots, active, -1) && RetiredWhere(slots, slots', |slots'|, due)
    ensures OnlyActive(slots', active, -1)
  {
  }

  lemma RetiredStays(slots: Slots, slots': Slots, due: (nat, Slot) -> Option<SysError>, active: Option<Active>)
    requires OnlyActive(slots, active, -1) && RetiredWhere(slots, slots', |slots'|, due)
    ensures Stays(slots, active, slots', active)
  {
  }

  lemma StaysHere(slots: Slots, active: Option<Active>)
    requires OnlyActive(slots, active, -1)
    ensures Stays(slots, active, slots, active)
  {
  }

  lemma StaysOn(slots: Slots, slots1: Slots, slots2: Slots, active: Option<Active>, active1: Option<Active>,
                active2: Option<Active>)
    requires Stays(slots, active, slots1, active1) && Stays(slots1, active1, slots2, active2)
    ensures Stays(slots, active, slots2, active2)
  {
  }

  /** Reserving a free slot adds one waiting caller and leaves the active request alone. */
  lemma ReserveWaits(slots: Slots, i: nat, target: u64, size: nat, active: Option<Active>)
    requires i < |slots| && slots[i].None? && OnlyActive(slots, active, -1)
    ensures var slots' := slots[i := Some(Reserved(target, size))];
      OnlyActive(slots', active, i) && Waiting(slots') == Waiting(slots) + multiset{target}
  {
    WaitingChanges(slots, i, Some(Reserved(target, size)));
  }

  /** When nobody waits, only a fault of its own keeps a call out. */
  lemma QuietRefusal(slots: Slots, bytes: nat, limit: nat, target: u64, size: nat)
    requires Waiting(slots) == multiset{} && bytes == Total(slots) && |slots| > 0
    ensures Refusal(slots, bytes, limit, limit, target, size)
            == if target == 0 || size == 0 || size > limit then Some(InvalidArgument) else None
  {
    NoneHeldIsEmpty(slots);
    assert slots[0].None?;
  }

  /** A call that can start meets nobody waiting. */
  lemma StartableIsQuiet(slots: Slots, bytes: nat, limit: nat, active: Option<Active>, d: Desk, s: State, c: Call,
                         generation: u64)
    requires OnlyActive(slots, active, -1) && bytes == Total(slots) && |slots| > 0
    ensures Holdable(active, d, s, c, generation, limit) ==>
      Refusal(slots, bytes, limit, limit, c.sender, c.launch.sourceLen).None?
    ensures Refusal(slots, bytes, limit, limit, c.sender, c.launch.sourceLen).None? ==>
      c.sender != 0 && 0 < c.launch.sourceLen <= limit
  {
    hide Waiting, Total;
    if active.None? {
      NothingWaits(slots);
      QuietRefusal(slots, bytes, limit, c.sender, c.launch.sourceLen);
    }
  }

  lemma SameArmed(active: Option<Active>, active': Option<Active>, s: State)
    requires ArmedKnown(active, s)
    requires active.Some? && active.value.armed ==> active'.Some? && active'.value.armed
    ensures ArmedKnown(active', s)
  {
    hide ArmedIn;
  }

  lemma FirstAnswer(slots: Slots, bytes: nat, limit: nat, c: Call, answer: Option<Reply>)
    requires bytes == Total(slots) && |slots| > 0
    requires match Refusal(slots, bytes, limit, limit, c.sender, c.launch.sourceLen)
             case Some(why) => answer == Some(Reply(c.sender, Some(Native(why))))
             case None =>
               && (Settled(c).Some? ==> answer == Some(Reply(c.sender, Settled(c).value)))
               && (Settled(c).None? && answer.Some? ==> answer.value.error.Some?)
    ensures Waiting(slots) == multiset{} ==> AnsweredFirst(c, limit, if answer.Some? then [answer.value] else [])
  {
    hide Settled, Refusal;
    if Waiting(slots) == multiset{} { QuietRefusal(slots, bytes, limit, c.sender, c.launch.sourceLen); }
  }

  lemma {:induction false} NoneHeldIsEmpty(slots: Slots)
    requires Waiting(slots) == multiset{}
    ensures AllEmpty(slots) && Total(slots) == 0
  {
    if slots != [] {
      var rest := Waiting(slots[1..]);
      assert Waiting(slots) == TargetOf(slots[0]) + rest;
      assert |rest| + |TargetOf(slots[0])| == 0;
      NoneHeldIsEmpty(slots[1..]);
      forall i | 0 <= i < |slots| ensures slots[i].None? {
        if i > 0 { assert slots[i] == slots[1..][i - 1]; }
      }
    }
  }

  /** At most one caller waits. */
  lemma AtMostOneWaits(slots: Slots, s: State, active: Option<Active>)
    requires Linked(slots, s) && OnlyActive(slots, active, -1)
    ensures |Waiting(slots)| <= 1
  {
    hide Linked, Waiting, Total;
    if i: nat :| i < |slots| && slots[i].Some? {
      OneCallHeld(slots, s, active, i);
      LastCaller(slots, i);
    } else {
      NothingWaits(slots);
    }
  }

  lemma LastCaller(slots: Slots, i: nat)
    requires i < |slots| && AllEmpty(slots[i := None])
    ensures |Waiting(slots)| <= 1
  {
    hide Waiting, Total;
    NothingWaits(slots[i := None]);
    WaitingChanges(slots, i, None);
    assert Waiting(slots) == Waiting(slots) + TargetOf(None);
    assert TargetOf(slots[i]) == Waiting(slots[i := None]) + TargetOf(slots[i]);
  }

  /** One message moves callers from waiting to answered, at once or later, and may add a new one. */
  lemma LedgerBalances(answers: seq<Reply>, retained: seq<Reply>, waiting: multiset<u64>, calls: seq<u64>,
                       called: seq<u64>, answered: seq<Reply>, emitted: seq<Reply>, left: multiset<u64>)
    requires Answered(answers) + Answered(retained) + waiting == multiset(calls)
    requires waiting + multiset(called) == left + Answered(emitted) + Answered(answered)
    ensures Answered(answers + answered) + Answered(retained + emitted) + left == multiset(calls + called)
  {
    hide Answered;
    AnsweredAppend(retained, emitted);
    AnsweredAppend(answers, answered);
    assert multiset(calls + called) == multiset(calls) + multiset(called);
    assert multiset(calls + called)
        == Answered(answers) + Answered(retained) + (left + Answered(emitted) + Answered(answered));
  }

  lemma NothingAnswered()
    ensures Answered([]) == multiset{}
  {
  }

  /** Where nobody waits, a sweep answers nobody. */
  lemma QuietSweep(before: multiset<u64>, between: multiset<u64>, swept: multiset<u64>)
    requires before == between + swept
    ensures before == multiset{} ==> between == multiset{}
  {
    assert |before| == |between| + |swept|;
  }

  /** Callers answered while sweeping, then by one message. */
  lemma RoundBalances(before: multiset<u64>, between: multiset<u64>, after: multiset<u64>, called: multiset<u64>,
                      swept: multiset<u64>, replies: multiset<u64>, answered: multiset<u64>)
    requires before == between + swept && between + called == after + replies + answered
    ensures before + called == after + (swept + replies) + answered
  {
    assert before + called == (between + called) + swept;
  }

  class Service {
    const registry: Registry
    const controller: Controller
    const frontends: Frontends

    ghost predicate Ready()
      reads frontends, registry, controller, controller.pending
    {
      frontends.Gate(registry, controller)
    }

    constructor (limit: nat)
      requires 0 < limit
      ensures Ready() && controller.history == [] && Waiting(registry.slots) == multiset{}
      ensures fresh(registry) && fresh(controller) && fresh(controller.pending) && fresh(frontends)
      ensures registry.byteLimit == limit && frontends.Waiters() == Desk([None, None], [])
    {
      registry := new Registry(MAX_PENDING, limit);
      controller := new Controller();
      frontends := new Frontends();
      new;
      NothingWaits(registry.slots);
    }

    lemma Counted()
      requires Ready()
      ensures registry.bytes == Total(registry.slots) && |registry.slots| > 0
    {
    }

    lemma OneWaits()
      requires Ready()
      ensures |Waiting(registry.slots)| <= 1 && IsRun(controller.history)
      ensures StateAt(controller.history, |controller.history|).lastNow == controller.lastNow
    {
      AtMostOneWaits(registry.slots, controller.Table(), frontends.active);
    }

    /** Stop holding anything: answer every waiting call with `reason`. */
    method Stop(reason: SysError) returns (emitted: seq<Reply>)
      requires Ready()
      modifies registry, controller, controller.pending
      ensures Ready() && Adds(old(controller.history), controller.history, Closes)
      ensures Waiting(registry.slots) == multiset{} && Answered(emitted) == Waiting(old(registry.slots))
      ensures forall r :: r in emitted ==> r.error.Some?
      ensures AllEmpty(registry.slots) && |registry.slots| == |old(registry.slots)|
    {
      emitted := registry.Abort(controller, reason);
      NothingArmed(registry.slots, controller.Table(), frontends.active);
      NothingWaits(registry.slots);
    }

    /** Retire calls under an old policy, past their deadline or of exited callers; false when the clock failed. */
    method Sweep(turn: Turn) returns (ok: bool, emitted: seq<Reply>)
      requires Ready()
      modifies registry, controller, controller.pending
      ensures Ready()
      ensures Adds(old(controller.history), controller.history, Housekeeping(turn))
      ensures Waiting(old(registry.slots)) == Waiting(registry.slots) + Answered(emitted)
      ensures !ok ==> Waiting(registry.slots) == multiset{}
      ensures !ok ==> turn.now.Err? || turn.now.value < controller.lastNow
      ensures forall r :: r in emitted ==> r.error.Some?
      ensures Stays(old(registry.slots), frontends.active, registry.slots, frontends.active)
      ensures !ok ==> AllEmpty(registry.slots)
    {
      hide Linked, Holds, WellKept, IsRun, StateAt, DistinctTargets, Total, Waiting, Answered, RetiredWhere, OnlyActive,
        Adds, Housekeeping, ArmedKnown;
      ghost var active, slots0, h0 := frontends.active, registry.slots, controller.history;
      emitted := registry.InvalidatePolicy(controller, turn.generation);
      RetireKeepsActive(slots0, registry.slots, OtherPolicy(turn.generation), active);
      ghost var h1 := controller.history;
      QuietHousekeeping(h0, h1, turn);
      QuietKnown(h0, h1, 0, active);
      RetiredStays(slots0, registry.slots, OtherPolicy(turn.generation), active);
      if turn.now.Err? {
        var last := Stop(turn.now.error);
        QuietHousekeeping(h1, controller.history, turn);
        AddsMore(h0, h1, controller.history, Housekeeping(turn));
        AnsweredAppend(emitted, last);
        return false, emitted + last;
      }
      ghost var slots1 := registry.slots;
      var inTime, expired := registry.Expire(controller, turn.now.value);
      ghost var h2 := controller.history;
      QuietHousekeeping(h1, h2, turn);
      QuietKnown(h1, h2, turn.now.value, active);
      AddsMore(h0, h1, h2, Housekeeping(turn));
      AnsweredAppend(emitted, expired);
      emitted := emitted + expired;
      if !inTime {
        var last := Stop(Native(BackingFailure));
        QuietHousekeeping(h2, controller.history, turn);
        AddsMore(h1, h2, controller.history, Housekeeping(turn));
        AddsMore(h0, h1, controller.history, Housekeeping(turn));
        ClockKeeps(h1, controller.history, Housekeeping(turn));
        AnsweredAppend(emitted, last);
        return false, emitted + last;
      }
      RetireKeepsActive(slots1, registry.slots, PastDeadline(turn.now.value), active);
      RetiredStays(slots1, registry.slots, PastDeadline(turn.now.value), active);
      StaysOn(slots0, slots1, registry.slots, active, active, active);
      ghost var slots2 := registry.slots;
      var reaped := registry.Reap(controller, turn.exited);
      QuietHousekeeping(h2, controller.history, turn);
      QuietKnown(h2, controller.history, 0, active);
      AddsMore(h0, h2, controller.history, Housekeeping(turn));
      RetireKeepsActive(slots2, registry.slots, Exited(turn.exited), active);
      RetiredStays(slots2, registry.slots, Exited(turn.exited), active);
      StaysOn(slots0, slots2, registry.slots, active, active, active);
      AnsweredAppend(emitted, reaped);
      return true, emitted + reaped;
    }

    /** Sweep held calls, if any, then look after the presenters; false when the service must stop. */
    method Housekeep(turn: Turn) returns (ok: bool, emitted: seq<Reply>)
      requires Ready()
      modifies registry, controller, controller.pending, frontends
      ensures Ready()
      ensures Adds(old(controller.history), controller.history, Housekeeping(turn))
      ensures Waiting(old(registry.slots)) == Waiting(registry.slots) + Answered(emitted)
      ensures !ok ==> Waiting(registry.slots) == multiset{}
      ensures !ok ==> turn.now.Err? || turn.now.value < controller.lastNow
      ensures forall r :: r in emitted ==> r.error.Some?
      ensures Stays(old(registry.slots), old(frontends.active), registry.slots, frontends.active)
      ensures !ok ==> AllEmpty(registry.slots)
      ensures ok ==> frontends.Waiters() == Tended(old(frontends.Waiters()), turn.current)
      ensures ok && Waiting(registry.slots) == multiset{} ==> frontends.active.None?
    {
      hide Linked, Holds, WellKept, IsRun, StateAt, DistinctTargets, Total, Waiting, Answered, OnlyActive,
        Adds, Housekeeping, Tended;
      ok, emitted := true, [];
      NothingAnswered();
      ghost var h0 := controller.history;
      AddsNone(h0, Housekeeping(turn));
      ghost var slots0, active := registry.slots, frontends.active;
      StaysHere(slots0, active);
      var empty := registry.Empty();
      if !empty {
        ok, emitted := Sweep(turn);
        if !ok { return; }
      }
      ghost var h1, slots1 := controller.history, registry.slots;
      var more := frontends.Maintain(registry, controller, turn.current);
      QuietHousekeeping(h1, controller.history, turn);
      AddsMore(h0, h1, controller.history, Housekeeping(turn));
      StaysOn(slots0, slots1, registry.slots, active, active, frontends.active);
      if Waiting(registry.slots) == multiset{} { NoneHeldIsEmpty(registry.slots); }
      AnsweredAppend(emitted, more);
      emitted := emitted + more;
    }

    /**
    An image authorization: reserve its bytes, settle it at once where no consent is needed, else hold the call.
    `answer` is the immediate reply; a held call gets none, unless its prompt could not be delivered.
    */
    method Admit(c: Call, generation: u64) returns (answer: Option<Reply>, emitted: seq<Reply>)
      requires Ready()
      modifies registry, controller, controller.pending, frontends
      ensures Ready()
      ensures Adds(old(controller.history), controller.history, Sends(Authorize(c), generation, registry.byteLimit))
      ensures answer.Some? ==> answer.value.target == c.sender && emitted == []
      ensures Waiting(old(registry.slots)) + multiset{c.sender}
              == Waiting(registry.slots) + Answered(emitted) + (if answer.Some? then multiset{c.sender} else multiset{})
      ensures forall r :: r in emitted ==> r.error.Some?
      ensures match Refusal(old(registry.slots), old(registry.bytes), registry.byteLimit, registry.byteLimit, c.sender,
                            c.launch.sourceLen)
              case Some(why) => answer == Some(Reply(c.sender, Some(Native(why))))
              case None =>
                && (Settled(c).Some? ==> answer == Some(Reply(c.sender, Settled(c).value)))
                && (Settled(c).None? && answer.Some? ==> answer.value.error.Some?)
      ensures Carries(Authorize(c), generation, registry.byteLimit, old(registry.slots), old(frontends.active),
                      registry.slots, frontends.active)
      ensures answer.None? <==> Holdable(old(frontends.active), old(frontends.Waiters()), old(controller.Table()), c,
                                         generation, registry.byteLimit)
      ensures frontends.Waiters()
              == AfterMessage(old(frontends.Waiters()), old(frontends.active), Authorize(c), answer.Some?)
    {
      hide Linked, Holds, WellKept, IsRun, StateAt, DistinctTargets, Total, Waiting, OnlyActive,
        Answered, Adds, Sends, Asks, Refusal, Startable, Taken, NewRequest, ChosenBy, Frontends.TakenFrom, ArmedKnown;
      NothingAnswered();
      ghost var h := controller.history;
      AddsNone(h, Sends(Authorize(c), generation, registry.byteLimit));
      ghost var before, active := registry.slots, frontends.active;
      StartableIsQuiet(before, registry.bytes, registry.byteLimit, active, frontends.Waiters(), controller.Table(), c,
                       generation);
      var reserved := registry.ReserveImage(c.sender, c.launch.sourceLen, registry.byteLimit);
      if reserved.Err? { return Some(Reply(c.sender, Some(reserved.error))), []; }
      var index := reserved.value;
      LinkedReserve(before, controller.Table(), index, c.sender, c.launch.sourceLen);
      ReserveWaits(before, index, c.sender, c.launch.sourceLen, active);
      ghost var held := registry.slots;
      var settled := Settled(c);
      if settled.Some? {
        registry.DropReservation(index, controller);
        DropKeepsActive(held, index, active);
        return Some(Reply(c.sender, settled.value)), [];
      }
      var begun := frontends.Begin(registry, index, controller, c.launch, c.requester.value, generation, c.now.value,
                                   registry.byteLimit, c.begin);
      ghost var h' := controller.history;
      AskingSends(h, h', h', c, generation, registry.byteLimit);
      if begun.Err? { return Some(Reply(c.sender, Some(begun.error))), []; }
      emitted := [];
      if begun.value.Some? && !c.delivered {
        emitted := frontends.Cancel(registry, controller, PeerClosed);
        AskingSends(h, h', controller.history, c, generation, registry.byteLimit);
      }
      return None, emitted;
    }

    /** A new session: every held call is answered and no observation of the old session survives. */
    method Revoke(generation: u64) returns (emitted: seq<Reply>)
      requires Ready()
      modifies registry, controller, controller.pending
      ensures Ready()
      ensures Adds(old(controller.history), controller.history, Sends(SessionChange, generation, registry.byteLimit))
      ensures Waiting(registry.slots) == multiset{} && Answered(emitted) == Waiting(old(registry.slots))
      ensures forall r :: r in emitted ==> r.error.Some?
      ensures AllEmpty(registry.slots) && |registry.slots| == |old(registry.slots)|
    {
      hide Linked, Holds, WellKept, IsRun, StateAt, DistinctTargets, Total, Waiting, IsStep, Step, OnlyActive,
        TextEvidence.After;
      emitted := Stop(Native(AccessDenied));
      NoneHeldIsEmpty(registry.slots);
      var _ := registry.Tell(controller, Observe(_ => Current(None, None, None, None, generation, false)));
      NothingArmed(registry.slots, controller.Table(), frontends.active);
    }

    /** A key event: the controller judges it, and an accepted one is evidence for a terminal. */
    method HearKey(source: Instance, correlation: Correlation, route: InputRoute, serial: u64, key: TextEvidence.Key,
                   now: u64, ghost generation: u64)
      requires Ready()
      modifies controller, controller.pending, frontends`active, frontends`keys
      ensures Ready()
      ensures Adds(old(controller.history), controller.history,
                   Sends(KeyEvent(source, correlation, route, serial, key, now), generation, registry.byteLimit))
      ensures old(controller.history) < controller.history
      ensures frontends.keys == old(frontends.keys) || frontends.keys == old(frontends.keys) + [key]
      ensures frontends.keys != old(frontends.keys) ==> controller.history[|controller.history| - 1].response == Done
      ensures Stays(registry.slots, old(frontends.active), registry.slots, frontends.active)
    {
      hide Linked, Holds, WellKept, IsRun, StateAt, DistinctTargets, Total, Waiting, IsStep, Step, TextEvidence.After,
        ArmedKnown;
      ghost var h, active := controller.history, frontends.active;
      var seen := registry.Tell(controller, Input(source, correlation, route, serial, key.transition, now));
      StillKnown(h, controller.history, (e: Event) => e.Input?, active);
      if seen == Done { frontends.ObserveTextInput(correlation, key); }
      SameArmed(active, frontends.active, controller.Table());
    }

    /** A message of a presenter or a terminal, which can only be about the one held call. */
    method Present(m: Message, generation: u64) returns (emitted: seq<Reply>)
      requires Ready()
      requires m.TextPoll? || m.TextRelease? || m.WaitForPrompt? || m.FrontendCommand? || m.Nothing?
      modifies registry, controller, controller.pending, frontends
      ensures Ready()
      ensures Adds(old(controller.history), controller.history, Sends(m, generation, registry.byteLimit))
      ensures Waiting(old(registry.slots)) == Waiting(registry.slots) + Answered(emitted)
      ensures EmitsOne(m, generation, controller.history, |old(controller.history)|, emitted)
      ensures Stays(old(registry.slots), old(frontends.active), registry.slots, frontends.active)
      ensures m.FrontendCommand? ==>
        (Grants(emitted) <==> Decided(m, generation, old(registry.slots), old(controller.Table()), old(frontends.active)))
      ensures frontends.Waiters() == AfterMessage(old(frontends.Waiters()), old(frontends.active), m, false)
    {
      hide Linked, Holds, WellKept, IsRun, StateAt, DistinctTargets, Total, Waiting, OnlyActive, IsStep, Step, Backed,
        Polled, Withdrawn, Joined, Answered, TextEvidence.After, TextEvidence.Confirms, Adds, Sends, Commands;
      ghost var h := controller.history;
      StaysHere(registry.slots, frontends.active);
      NothingAnswered();
      emitted := [];
      match m {
        case TextPoll(peer, master, presenter, current, provider, activeTerminal, waiterTerminal) =>
          var _ := frontends.PollText(peer, master, presenter, current, provider, activeTerminal, waiterTerminal);
        case TextRelease(peer, presenter, activeTerminal, waiterTerminal) =>
          var _, released := frontends.ReleaseText(registry, controller, peer, presenter, activeTerminal, waiterTerminal);
          emitted := released;
        case WaitForPrompt(peer, presenter, current) =>
          var _ := frontends.Wait(peer, Graphical, presenter, current);
        case FrontendCommand(peer, correlation, action, now, answers) =>
          var _, replies := frontends.Command(registry, controller, peer, correlation, action, generation, now, answers);
          emitted := replies;
        case Nothing =>
      }
      MessageSends(h, controller.history, m, generation, registry.byteLimit);
    }

    /** One message; `called` and `answered` record an authorization and its immediate reply. */
    method Dispatch(m: Message, generation: u64)
      returns (called: seq<u64>, answered: seq<Reply>, emitted: seq<Reply>)
      requires Ready()
      modifies registry, controller, controller.pending, frontends
      ensures Ready()
      ensures Adds(old(controller.history), controller.history, Sends(m, generation, registry.byteLimit))
      ensures Waiting(old(registry.slots)) + multiset(called)
              == Waiting(registry.slots) + Answered(emitted) + Answered(answered)
      ensures called == CallOf(m) && |answered| <= |called| && forall r :: r in answered ==> Responds(m, r)
      ensures m.Authorize? && Settled(m.call).Some? ==> answered != []
      ensures m.Authorize? && Waiting(old(registry.slots)) == multiset{} ==>
        AnsweredFirst(m.call, registry.byteLimit, answered)
      ensures EmitsOne(m, generation, controller.history, |old(controller.history)|, emitted)
      ensures Carries(m, generation, registry.byteLimit, old(registry.slots), old(frontends.active),
                      registry.slots, frontends.active)
      ensures m.FrontendCommand? ==>
        (Grants(emitted) <==> Decided(m, generation, old(registry.slots), old(controller.Table()), old(frontends.active)))
      ensures m.Authorize? ==>
        (answered == [] <==> Holdable(old(frontends.active), old(frontends.Waiters()), old(controller.Table()), m.call,
                                      generation, registry.byteLimit))
      ensures frontends.Waiters()
              == AfterMessage(old(frontends.Waiters()), old(frontends.active), m, answered != [])
    {
      hide Service.Ready, Waiting, Backed, Adds, Sends, TextEvidence.After, Settled, Refusal, AnsweredFirst, Holdable,
        Polled, Withdrawn, Joined, Taken, Carries, Decided, EmitsOne, Stays, AfterMessage;
      called, answered, emitted := [], [], [];
      match m {
        case Authorize(c) =>
          ghost var slots, bytes := registry.slots, registry.bytes;
          Counted();
          var answer;
          answer, emitted := Admit(c, generation);
          ErrorsEmit(m, generation, controller.history, |old(controller.history)|, emitted);
          FirstAnswer(slots, bytes, registry.byteLimit, c, answer);
          called, answered := [c.sender], if answer.Some? then [answer.value] else [];
        case SessionChange =>
          emitted := Revoke(generation);
          ErrorsEmit(m, generation, controller.history, |old(controller.history)|, emitted);
          EmptyCarries(m, generation, registry.byteLimit, old(registry.slots), old(frontends.active), registry.slots,
                       frontends.active);
          PlainMessage(frontends.Waiters(), frontends.active, m);
        case KeyEvent(source, correlation, route, serial, key, now) =>
          HearKey(source, correlation, route, serial, key, now, generation);
          ErrorsEmit(m, generation, controller.history, |old(controller.history)|, emitted);
          StaysCarries(m, generation, registry.byteLimit, old(registry.slots), old(frontends.active), registry.slots,
                       frontends.active);
          PlainMessage(frontends.Waiters(), old(frontends.active), m);
        case _ =>
          emitted := Present(m, generation);
          StaysCarries(m, generation, registry.byteLimit, old(registry.slots), old(frontends.active), registry.slots,
                       frontends.active);
      }
    }

    /** Housekeeping, then a message; false when the service has to stop. */
    method Round(turn: Turn)
      returns (ok: bool, called: seq<u64>, answered: seq<Reply>, emitted: seq<Reply>, ghost mark: nat,
               ghost shown: Option<Active>)
      requires Ready()
      modifies registry, controller, controller.pending, frontends
      ensures Ready()
      ensures Adds(old(controller.history), controller.history, Causes(turn, registry.byteLimit))
      ensures !ok ==> Waiting(registry.slots) == multiset{}
      ensures ok ==> turn.message.Ok? && called == CallOf(turn.message.value)
      ensures !ok ==> called == [] && Fails(turn, controller.lastNow)
      ensures |answered| <= |called| && forall r :: r in answered ==> turn.message.Ok? && Responds(turn.message.value, r)
      ensures ok && IsCall(turn) && Settled(turn.message.value.call).Some? ==> answered != []
      ensures ok && IsCall(turn) && Waiting(old(registry.slots)) == multiset{} ==>
        AnsweredFirst(turn.message.value.call, registry.byteLimit, answered)
      ensures Waiting(old(registry.slots)) + multiset(called)
              == Waiting(registry.slots) + Answered(emitted) + Answered(answered)
      ensures |old(controller.history)| <= mark <= |controller.history|
      ensures forall k: nat :: |old(controller.history)| <= k < mark ==> Housekeeping(turn)(controller.history[k].event)
      ensures NewlyGranted(turn, controller.history, mark, Granted(emitted))
      ensures ok ==> Carries(turn.message.value, turn.generation, registry.byteLimit, old(registry.slots),
                             old(frontends.active), registry.slots, frontends.active)
      ensures ok && Deserves(turn, StateAt(controller.history, mark), old(registry.slots), old(frontends.active)) ==>
        Granted(emitted) != []
      ensures ok && Waiting(old(registry.slots)) == multiset{} ==> shown.None?
      ensures ok && IsCall(turn) ==>
        (answered == [] <==> Holdable(shown, Tended(old(frontends.Waiters()), turn.current),
                                      StateAt(controller.history, mark), turn.message.value.call, turn.generation,
                                      registry.byteLimit))
      ensures ok ==> frontends.Waiters() == AfterMessage(Tended(old(frontends.Waiters()), turn.current), shown,
                                                         turn.message.value, answered != [])
    {
      hide Tended, AfterMessage, Holdable, Linked, Holds, WellKept, IsRun, StateAt, DistinctTargets, Total, Waiting,
        OnlyActive, Backed, Granted,
        NewlyGranted, Answered, AnsweredFirst, Settled, Adds, Housekeeping, Causes, Sends, Carries, Stays, Deserves,
        Decided, EmitsOne, ArmedKnown, Closes;
      called, answered := [], [];
      var swept, replies;
      ok, swept := Housekeep(turn);
      ghost var h1, between, slots1, active1 := controller.history, Waiting(registry.slots), registry.slots, frontends.active;
      ghost var table1 := controller.Table();
      mark, shown := |h1|, active1;
      QuietSweep(Waiting(old(registry.slots)), between, Answered(swept));
      NothingAnswered();
      if ok { ConfirmsHere(turn, old(registry.slots), old(frontends.active)); }
      if !ok {
        replies := [];
      } else if turn.message.Err? {
        ok := false;
        replies := Stop(turn.message.error);
      } else {
        called, answered, replies := Dispatch(turn.message.value, turn.generation);
        CarriesOn(turn.message.value, turn.generation, registry.byteLimit, old(registry.slots), old(frontends.active),
                  slots1, active1, registry.slots, frontends.active);
      }
      TurnCauses(old(controller.history), h1, controller.history, turn, registry.byteLimit);
      MarkIs(old(controller.history), h1, controller.history, turn, registry.byteLimit);
      AnsweredAppend(swept, replies);
      RoundBalances(Waiting(old(registry.slots)), between, Waiting(registry.slots), multiset(called), Answered(swept),
                    Answered(replies), Answered(answered));
      RoundGrants(turn, controller.history, mark, swept, replies);
      emitted := swept + replies;
    }

    /** After housekeeping, a confirmed decision about calls that complete is decided. */
    lemma ConfirmsHere(turn: Turn, slots: Slots, active: Option<Active>)
      requires Ready() && Stays(slots, active, registry.slots, frontends.active)
      ensures Deserves(turn, controller.Table(), slots, active) ==>
        && turn.message.Ok? && turn.message.value.FrontendCommand?
        && Decided(turn.message.value, turn.generation, registry.slots, controller.Table(), frontends.active)
    {
      hide AllFinish, Stays, OnlyActive, ArmedKnown, Linked, Decided, Holds, IsRun;
      var s := controller.Table();
      if Deserves(turn, s, slots, active) {
        FinishStays(turn, slots, active, registry.slots, frontends.active, BindingOf(turn, s));
        ConfirmedIsDecided(turn, registry.slots, s, frontends.active);
      }
    }
  }

  /**
  What stands behind a ledger: the consent history, the turn that recorded each entry, the turn of each immediate
  reply, the entry that approved each later success, and, when each turn's message came, how long the history was and
  which request was shown.
  */
  datatype Run = Run(history: seq<Entry>, cause: seq<nat>, asked: seq<nat>, approvals: seq<nat>, marks: seq<nat>,
                     shown: seq<Option<Active>>)

  /** Everything a run of the service did about authorization calls. */
  datatype Ledger = Ledger(calls: seq<u64>, answers: seq<Reply>, retained: seq<Reply>, waiting: multiset<u64>)

  /**
  Any run from the start. The calls are those of the turns served; each is answered exactly once, at once or later,
  or is the single one still waiting, and a stopped service leaves none waiting. A success at once went to a call
  that needed no question; such a call is always answered at once, and as long as no call was held, with exactly what
  was found out. A call is held, not answered at once, exactly when it is free of faults and someone can be asked. A
  success later has an approval of its own, given by the command of the turn that recorded it, and a confirmed decision
  about a graphical prompt is given its success. Every entry of the consent history was put there by a turn that
  carries its reason.
  */
  method Serve(limit: nat, turns: seq<Turn>)
    returns (ledger: Ledger, stopped: bool, served: nat, ghost run: Run)
    requires 0 < limit
    ensures served <= |turns| && (stopped <==> served < |turns|) && ledger.calls == CallsUpTo(turns, served)
    ensures forall n :: 0 <= n < served ==> turns[n].message.Ok?
    ensures stopped ==> Fails(turns[served], StateAt(run.history, |run.history|).lastNow)
    ensures Answered(ledger.answers) + Answered(ledger.retained) + ledger.waiting == multiset(ledger.calls)
    ensures |ledger.waiting| <= 1 && (stopped ==> ledger.waiting == multiset{})
    ensures IsRun(run.history)
    ensures Explained(turns, served, if stopped then served + 1 else served, limit, ledger.answers, ledger.retained, run)
    ensures Attended(turns, served, limit, run)
    ensures |run.approvals| == |Granted(ledger.retained)|
    ensures forall i :: 0 <= i < |Granted(ledger.retained)| ==>
      WitnessedGrant(run.history, run.approvals[i], Granted(ledger.retained)[i])
  {
    hide Attended, Holdable, AfterMessage, Tended, DeskBefore, Linked, Holds, WellKept, IsRun, DistinctTargets, Total,
      Waiting, OnlyActive, Answered, Granted, Explained,
      WitnessedGrant, Adds, Causes, Responds, NewlyGranted, Fails, Service.Ready, StateAt, CallsUpTo,
      NoneHeld, AnsweredFirst, Settled, HeldBy, Owed, Deserves, Carries, Housekeeping;
    var service := new Service(limit);
    var calls: seq<u64>, answers: seq<Reply>, retained: seq<Reply> := [], [], [];
    stopped, served, run := false, 0, Run([], [], [], [], [], []);
    LedgerStarts(turns, limit);
    NobodyHeld(turns, limit, service.registry.slots, service.frontends.active);
    while served < |turns| && !stopped
      invariant served <= |turns| && calls == CallsUpTo(turns, served) && (stopped ==> served < |turns|)
      invariant forall n :: 0 <= n < served ==> turns[n].message.Ok?
      invariant stopped ==> Fails(turns[served], service.controller.lastNow)
      invariant service.Ready() && (stopped ==> Waiting(service.registry.slots) == multiset{})
      invariant service.registry.byteLimit == limit && service.controller.history == run.history
      invariant Answered(answers) + Answered(retained) + Waiting(service.registry.slots) == multiset(calls)
      invariant !stopped && NoneHeld(turns, run.asked, served) ==> Waiting(service.registry.slots) == multiset{}
      invariant !stopped ==> HeldBy(turns, served, limit, service.registry.slots, service.frontends.active)
      invariant Explained(turns, served, if stopped then served + 1 else served, limit, answers, retained, run)
      invariant Attended(turns, served, limit, run) && |run.shown| == served
      invariant !stopped ==> service.frontends.Waiters() == DeskBefore(turns, run.asked, run.shown, served)
      invariant fresh(service) && fresh(service.registry) && fresh(service.controller)
                && fresh(service.controller.pending) && fresh(service.frontends)
      decreases |turns| - served, if stopped then 0 else 1
    {
      ghost var before, slots, active := Waiting(service.registry.slots), service.registry.slots, service.frontends.active;
      var ok, called, answered, emitted, mark, shown := service.Round(turns[served]);
      OwedIsGranted(turns, served, limit, slots, active, service.controller.history, mark);
      if ok { HeldByGrows(turns, served, limit, slots, active, service.registry.slots, service.frontends.active); }
      LedgerBalances(answers, retained, before, calls, called, answered, emitted, Waiting(service.registry.slots));
      AskedIsPast(turns, served, served, limit, answers, retained, run);
      StillQuiet(turns, served, ok, run.asked, called, answered, emitted, before, Waiting(service.registry.slots));
      ghost var run' := TurnExplained(turns, served, ok, limit, answers, answered, retained, emitted, run,
                                      service.controller.history, mark, shown);
      RespondsToCall(turns[served], answered);
      if ok { AttendedGrows(turns, served, limit, run, run', answered, mark, shown); }
      else { AttendedStays(turns, served, limit, run, run'); }
      run := run';
      CallsStep(turns, served, ok, calls, called);
      calls, answers, retained := calls + called, answers + answered, retained + emitted;
      if ok { served := served + 1; } else { stopped := true; }
    }
    service.OneWaits();
    ExplainedIsWitnessed(turns, served, if stopped then served + 1 else served, limit, answers, retained, run);
    ledger := Ledger(calls, answers, retained, Waiting(service.registry.slots));
  }

  /** What is owed to a confirmed decision follows from who asked for the held calls. */
  lemma OwedIsGranted(turns: seq<Turn>, n: nat, limit: nat, slots: Slots, active: Option<Active>, h: seq<Entry>, mark: nat)
    requires n < |turns| && mark <= |h| && HeldBy(turns, n, limit, slots, active)
    ensures Owed(turns, n, limit, h, mark) ==> Deserves(turns[n], StateAt(h, mark), slots, active)
  {
    hide HeldBy, Confirmed, OpenersAgree, AllFinish;
    if Owed(turns, n, limit, h, mark) {
      AgreeingFinish(turns, n, limit, slots, active, BindingOf(turns[n], StateAt(h, mark)));
    }
  }

  lemma NobodyHeld(turns: seq<Turn>, limit: nat, slots: Slots, active: Option<Active>)
    requires Waiting(slots) == multiset{}
    ensures HeldBy(turns, 0, limit, slots, active)
  {
    NoneHeldIsEmpty(slots);
  }

  lemma ExplainedIsWitnessed(turns: seq<Turn>, served: nat, entered: nat, limit: nat, answers: seq<Reply>,
                             retained: seq<Reply>, run: Run)
    requires served <= entered <= |turns| && IsRun(run.history)
    requires Explained(turns, served, entered, limit, answers, retained, run)
    ensures |run.approvals| == |Granted(retained)|
    ensures forall i :: 0 <= i < |Granted(retained)| ==>
      WitnessedGrant(run.history, run.approvals[i], Granted(retained)[i])
  {
    GrantsAreWitnessed(turns, run.cause, run.history, Granted(retained), run.approvals);
  }

  /** The turn cannot be completed: nothing was received, or the clock failed or went back. */
  predicate Fails(turn: Turn, lastNow: u64) {
    turn.message.Err? || turn.now.Err? || turn.now.value < lastNow
  }

  /** The reply of a call that ends before consent is asked for: `Some(None)` is success. */
  function Settled(c: Call): (r: Option<Check>)
    ensures r == Some(None) <==>
            c.captured.None? && (if c.needsConsent then c.requester.Ok? && c.remembered == Ok(true) else c.granted.None?)
  {
    if c.captured.Some? then Some(c.captured)
    else if !c.needsConsent then Some(c.granted)
    else if c.requester.Err? then Some(Some(c.requester.error))
    else if c.remembered.Err? then Some(Some(c.remembered.error))
    else if c.remembered.value then Some(None)
    else if c.now.Err? then Some(Some(c.now.error))
    else None
  }
}
