/**
The compositor's registry of protected presentations: which registered prompts
were really shown, complete and unobscured, under the current session.
*/
module Presentation {
  import opened Base
  import ConsentModel

  type Correlation = ConsentModel.Correlation

  const MAX_REGISTRATIONS: nat := 32

  datatype Context = Context(session: u64, generation: u64, active: bool)

  datatype Kind = Overlay | WindowKind

  datatype Image = Image(process: u64, digest: Digest)

  datatype SurfaceKey = SurfaceKey(token: u64, client: u64, sender: u64)

  datatype Observation = Observation(
    image: Image,
    surface: SurfaceKey,
    content: u64,
    focus: u64,
    focused: bool,
    visible: bool,
    unobscured: bool,
    ready: bool)

  datatype Standing = Waiting | Presented | Revoked

  datatype Receipt = Receipt(
    standing: Standing,
    registration: u64,
    context: Context,
    focus: u64,
    surface: u64,
    content: u64,
    image: Image)

  /** What `bind` recorded: the surface, its content generation and the focus generation. */
  datatype Bond = Bond(surface: SurfaceKey, baseline: u64, focus: u64)

  datatype Registered = Registered(
    broker: u64,
    correlation: Correlation,
    kind: Kind,
    receipt: Receipt,
    bound: Option<Bond>)

  type Registereds = seq<Registered>

  datatype Book = Book(context: Option<Context>, next: Option<u64>, entries: Registereds)

  const EMPTY_BOOK := Book(None, Some(1), [])

  /** Each answer the native state gives about one registration. */
  type Seen = u64 -> Option<Observation>

  datatype Request =
    | UpdateContext(context: Context, valid: bool)
    | Register(broker: u64, context: Context, correlation: Correlation, validTicket: bool, kind: Kind, image: Image,
               memory: bool)
    | Bind(correlation: Correlation, observation: Observation)
    | Watch(seen: Seen)
    | FullPresent(seen: Seen)
    | Withdraw(broker: u64, correlation: Correlation, registration: u64)

  datatype Answer = Refused(code: nat) | Granted(receipt: Receipt) | NeedsFrame(needed: bool)

  // The operations as functions of the book.

  predicate ContextAdvances(earlier: Option<Context>, context: Context) {
    earlier.Some? ==>
      && context.generation >= earlier.value.generation
      && (context.generation == earlier.value.generation ==> !context.active && context.session == earlier.value.session)
  }

  function DoContext(b: Book, context: Context, valid: bool): (Book, Answer) {
    if !valid || !ContextAdvances(b.context, context) then (b, Refused(22))
    else (b.(entries := [], context := Some(context)), NeedsFrame(false))
  }

  function Find(entries: Registereds, correlation: Correlation): (r: Option<nat>)
    ensures r.Some? ==> r.value < |entries| && entries[r.value].correlation == correlation
    ensures r.None? ==> forall i :: 0 <= i < |entries| ==> entries[i].correlation != correlation
  {
    FindFrom(entries, correlation, 0)
  }

  function FindFrom(entries: Registereds, correlation: Correlation, i: nat): (r: Option<nat>)
    requires i <= |entries|
    ensures r.Some? ==> i <= r.value < |entries| && entries[r.value].correlation == correlation
    ensures r.None? ==> forall k :: i <= k < |entries| ==> entries[k].correlation != correlation
    decreases |entries| - i
  {
    if i == |entries| then None
    else if entries[i].correlation == correlation then Some(i)
    else FindFrom(entries, correlation, i + 1)
  }

  function DoRegister(b: Book, broker: u64, context: Context, correlation: Correlation, validTicket: bool, kind: Kind,
                      image: Image, memory: bool): (Book, Answer)
  {
    if broker == 0 || image.process == 0 || !context.active || b.context != Some(context)
       || !validTicket || correlation.display == 0 then (b, Refused(13))
    else if Find(b.entries, correlation).Some? then (b, Refused(16))
    else if |b.entries| == MAX_REGISTRATIONS then (b, Refused(28))
    else if !memory then (b, Refused(12))
    else if b.next.None? then (b, Refused(75))
    else
      var receipt := Receipt(Waiting, b.next.value, context, 0, 0, 0, image);
      (b.(next := CheckedAdd(b.next.value, 1), entries := b.entries + [Registered(broker, correlation, kind, receipt, None)]),
       Granted(receipt))
  }

  predicate Bindable(o: Observation, image: Image) {
    && o.image == image && o.surface.token != 0 && o.surface.client != 0 && o.surface.sender != 0
    && o.focus != 0 && o.focused
  }

  function DoBind(b: Book, correlation: Correlation, o: Observation): (Book, Answer) {
    var at := Find(b.entries, correlation);
    if at.None? then (b, Refused(2)) else
    var e := b.entries[at.value];
    if e.bound.Some? || e.receipt.standing != Waiting then (b, Refused(16))
    else if !Bindable(o, e.receipt.image) then (b, Refused(13))
    else
      var e' := e.(bound := Some(Bond(o.surface, o.content, o.focus)), receipt := e.receipt.(surface := o.surface.token));
      (b.(entries := b.entries[at.value := e']), Granted(e'.receipt))
  }

  /** The observation still shows the bound surface of the same image under the same focus. */
  predicate StillShown(e: Registered, o: Observation)
    requires e.bound.Some?
  {
    && o.image == e.receipt.image && o.surface == e.bound.value.surface && o.focus == e.bound.value.focus
    && o.focus != 0 && o.focused && o.visible && o.unobscured && o.content >= e.bound.value.baseline
  }

  /** `update_entry`: the entry after an observation, and whether a fresh frame is wanted. */
  function Renew(e: Registered, o: Option<Observation>, shown: bool): (r: (Registered, bool))
    ensures r.0 == e.(receipt := r.0.receipt) && r.0.receipt.registration == e.receipt.registration
  {
    if e.bound.None? || e.receipt.standing == Revoked then (e, false)
    else if o.None? || !StillShown(e, o.value) then (e.(receipt := e.receipt.(standing := Revoked)), false)
    else
      var wanted := e.receipt.standing == Waiting && o.value.ready && o.value.content > e.bound.value.baseline;
      (if wanted && shown
       then e.(receipt := e.receipt.(standing := Presented, content := o.value.content, focus := e.bound.value.focus))
       else e,
       wanted)
  }

  function RenewAll(entries: Registereds, seen: Seen, shown: bool): (r: Registereds)
    ensures |r| == |entries|
    ensures forall i :: 0 <= i < |r| ==> r[i] == Renew(entries[i], seen(entries[i].receipt.registration), shown).0
  {
    seq(|entries|, i requires 0 <= i < |entries| => Renew(entries[i], seen(entries[i].receipt.registration), shown).0)
  }

  predicate Wanted(entries: Registereds, seen: Seen, shown: bool) {
    exists i :: 0 <= i < |entries| && Renew(entries[i], seen(entries[i].receipt.registration), shown).1
  }

  function DoWithdraw(b: Book, broker: u64, correlation: Correlation, registration: u64): (Book, Answer) {
    var at := FindExact(b.entries, correlation, registration, 0);
    if at.None? then (b, Refused(2))
    else if b.entries[at.value].broker != broker then (b, Refused(13))
    else
      var found := FindNumber(b.entries, registration, 0);
      if found.None? then (b, Refused(2))
      else (b.(entries := b.entries[..found.value] + b.entries[found.value + 1..]),
            Granted(b.entries[found.value].receipt.(standing := Revoked)))
  }

  function FindNumber(entries: Registereds, registration: u64, i: nat): (r: Option<nat>)
    requires i <= |entries|
    ensures r.Some? ==> i <= r.value < |entries| && entries[r.value].receipt.registration == registration
    ensures r.None? ==> forall k :: i <= k < |entries| ==> entries[k].receipt.registration != registration
    decreases |entries| - i
  {
    if i == |entries| then None
    else if entries[i].receipt.registration == registration then Some(i)
    else FindNumber(entries, registration, i + 1)
  }

  function FindExact(entries: Registereds, correlation: Correlation, registration: u64, i: nat): (r: Option<nat>)
    requires i <= |entries|
    ensures r.Some? ==> i <= r.value < |entries| && Is(entries[r.value], correlation, registration)
    ensures r.None? ==> forall k :: i <= k < |entries| ==> !Is(entries[k], correlation, registration)
    decreases |entries| - i
  {
    if i == |entries| then None
    else if Is(entries[i], correlation, registration) then Some(i)
    else FindExact(entries, correlation, registration, i + 1)
  }

  predicate Is(e: Registered, correlation: Correlation, registration: u64) {
    e.correlation == correlation && e.receipt.registration == registration
  }

  function Apply(b: Book, r: Request): (Book, Answer) {
    match r
    case UpdateContext(context, valid) => DoContext(b, context, valid)
    case Register(broker, context, correlation, validTicket, kind, image, memory) =>
      DoRegister(b, broker, context, correlation, validTicket, kind, image, memory)
    case Bind(correlation, o) => DoBind(b, correlation, o)
    case Watch(seen) =>
      (b.(entries := RenewAll(b.entries, seen, false)), NeedsFrame(Wanted(b.entries, seen, false)))
    case FullPresent(seen) => (b.(entries := RenewAll(b.entries, seen, true)), NeedsFrame(false))
    case Withdraw(broker, correlation, registration) => DoWithdraw(b, broker, correlation, registration)
  }

  // What holds in every reachable book.

  predicate Numbered(next: Option<u64>, e: Registered) { next.None? || e.receipt.registration < next.value }

  /** Entries have distinct registrations and correlations and carry the current, active context. */
  ghost predicate Kept(b: Book) {
    && |b.entries| <= MAX_REGISTRATIONS
    && (forall i :: 0 <= i < |b.entries| ==>
          && Numbered(b.next, b.entries[i])
          && b.context == Some(b.entries[i].receipt.context) && b.entries[i].receipt.context.active
          && (b.entries[i].bound.None? ==> b.entries[i].receipt.standing == Waiting))
    && (forall i, j :: 0 <= i < j < |b.entries| ==>
          && b.entries[i].receipt.registration < b.entries[j].receipt.registration
          && b.entries[i].correlation != b.entries[j].correlation)
  }

  lemma ApplyKeeps(b: Book, r: Request)
    requires Kept(b)
    ensures Kept(Apply(b, r).0)
  {
    if r.Withdraw? { WithdrawKeeps(b, r.broker, r.correlation, r.registration); }
  }

  lemma WithdrawKeeps(b: Book, broker: u64, correlation: Correlation, registration: u64)
    requires Kept(b)
    ensures Kept(DoWithdraw(b, broker, correlation, registration).0)
  {
    var at := FindNumber(b.entries, registration, 0);
    var b' := DoWithdraw(b, broker, correlation, registration).0;
    if b' != b {
      assert forall i :: 0 <= i < |b'.entries| ==> b'.entries[i] == b.entries[if i < at.value then i else i + 1];
    }
  }

  // Runs.

  datatype Link = Link(pre: Book, request: Request, answer: Answer, post: Book)

  function BookAt(t: seq<Link>, n: nat): Book
    requires n <= |t|
  {
    if n == 0 then EMPTY_BOOK else t[n - 1].post
  }

  ghost predicate LegalAt(t: seq<Link>, k: nat)
    requires k < |t|
  {
    t[k].pre == BookAt(t, k) && (t[k].post, t[k].answer) == Apply(t[k].pre, t[k].request)
  }

  ghost predicate IsHistory(t: seq<Link>) {
    forall k: nat :: k < |t| ==> LegalAt(t, k)
  }

  lemma {:induction false} HistoryKeeps(t: seq<Link>, n: nat)
    requires IsHistory(t) && n <= |t|
    ensures Kept(BookAt(t, n))
  {
    if n > 0 {
      HistoryKeeps(t, n - 1);
      assert LegalAt(t, n - 1);
      ApplyKeeps(BookAt(t, n - 1), t[n - 1].request);
    }
  }

  // Where an entry comes from.

  predicate RegisteredAt(x: Link, e: Registered) {
    && x.request.Register? && x.answer.Granted? && x.answer.receipt.registration == e.receipt.registration
    && x.request.context == e.receipt.context && x.request.correlation == e.correlation
    && x.request.image == e.receipt.image
  }

  /** Bound by an accepted observation of the registered image, focused at that moment. */
  predicate BoundAt(x: Link, e: Registered) {
    && e.bound.Some? && x.request.Bind? && x.answer.Granted?
    && x.answer.receipt.registration == e.receipt.registration && x.request.correlation == e.correlation
    && var o := x.request.observation;
    && Bindable(o, e.receipt.image) && e.bound.value == Bond(o.surface, o.content, o.focus)
  }

  /** Seen in a full present: bound surface, same image and focus, visible, unobscured, ready, with newer content. */
  predicate PresentedAt(x: Link, e: Registered) {
    && e.bound.Some? && x.request.FullPresent? && x.request.seen(e.receipt.registration).Some?
    && var o := x.request.seen(e.receipt.registration).value;
    && StillShown(e, o) && o.ready && o.content > e.bound.value.baseline
    && e.receipt.content == o.content && e.receipt.focus == o.focus
  }

  datatype Story = Story(registered: nat, bound: nat, presented: nat)

  predicate Tells(t: seq<Link>, n: nat, s: Story, e: Registered) {
    && s.registered < n <= |t| && RegisteredAt(t[s.registered], e)
    && (e.bound.Some? ==> s.registered < s.bound < n && BoundAt(t[s.bound], e))
    && (e.receipt.standing == Presented ==> s.bound < s.presented < n && PresentedAt(t[s.presented], e))
  }

  /** One step turns an entry into its successor, or registers a new one. */
  predicate Continues(x: Link, e: Registered, e': Registered) {
    || e' == e
    || (BoundAt(x, e') && e.bound.None? && e.receipt.standing == Waiting
        && e' == e.(bound := e'.bound, receipt := e.receipt.(surface := e'.receipt.surface)))
    || (e.bound.Some? && e' == e.(receipt := e.receipt.(standing := Revoked)))
    || (PresentedAt(x, e') && e.receipt.standing == Waiting
        && e' == e.(receipt := e.receipt.(standing := Presented, content := e'.receipt.content, focus := e'.receipt.focus)))
  }

  ghost predicate Descends(x: Link, e': Registered) {
    || (RegisteredAt(x, e') && e'.bound.None? && e'.receipt.standing == Waiting)
    || (exists i: nat :: i < |x.pre.entries| && Continues(x, x.pre.entries[i], e')
                         && x.pre.entries[i].receipt.registration == e'.receipt.registration)
  }

  lemma EntriesDescend(x: Link, i: nat)
    requires Kept(x.pre) && (x.post, x.answer) == Apply(x.pre, x.request) && i < |x.post.entries|
    ensures Descends(x, x.post.entries[i])
  {
    hide Kept;
    match x.request
    case Withdraw(broker, correlation, registration) =>
      var at := FindNumber(x.pre.entries, registration, 0);
      var j := if x.post == x.pre || i < at.value then i else i + 1;
      assert x.post.entries[i] == x.pre.entries[j];
      assert Continues(x, x.pre.entries[j], x.post.entries[i]);
    case Register(_, _, _, _, _, _, _) =>
      if i < |x.pre.entries| { assert Continues(x, x.pre.entries[i], x.post.entries[i]); }
    case UpdateContext(_, _) => assert Continues(x, x.pre.entries[i], x.post.entries[i]);
    case Bind(_, _) => assert Continues(x, x.pre.entries[i], x.post.entries[i]);
    case Watch(_) => assert Continues(x, x.pre.entries[i], x.post.entries[i]);
    case FullPresent(_) => assert Continues(x, x.pre.entries[i], x.post.entries[i]);
  }

  /** Every entry in every reachable book has its whole story in the run. */
  lemma {:induction false} EveryEntryHasAStory(t: seq<Link>, n: nat, i: nat) returns (s: Story)
    requires IsHistory(t) && n <= |t| && i < |BookAt(t, n).entries|
    ensures Tells(t, n, s, BookAt(t, n).entries[i])
  {
    hide Kept, Apply, RegisteredAt, BoundAt, PresentedAt;
    var x := t[n - 1];
    HistoryKeeps(t, n - 1);
    assert LegalAt(t, n - 1);
    EntriesDescend(x, i);
    var e' := x.post.entries[i];
    if RegisteredAt(x, e') && e'.bound.None? && e'.receipt.standing == Waiting {
      return Story(n - 1, 0, 0);
    }
    var j: nat :| j < |x.pre.entries| && Continues(x, x.pre.entries[j], e')
                  && x.pre.entries[j].receipt.registration == e'.receipt.registration;
    s := EveryEntryHasAStory(t, n - 1, j);
    s := NextChapter(t, n - 1, s, x.pre.entries[j], e');
  }

  lemma NextChapter(t: seq<Link>, n: nat, s: Story, e: Registered, e': Registered) returns (s': Story)
    requires n < |t| && Tells(t, n, s, e) && Continues(t[n], e, e')
    requires e.bound.None? ==> e.receipt.standing == Waiting
    ensures Tells(t, n + 1, s', e')
  {
    if e' == e { return s; }
    if e.bound.None? { return s.(bound := n); }
    if e'.receipt.standing == Presented && e.receipt.standing == Waiting { return s.(presented := n); }
    return s;
  }

  // What a bound registration becomes, from the requests alone.

  /** The observation is of the surface and focus that were bound, by the same image, focused, visible and not covered. */
  predicate Clear(o: Observation, bound: Observation, image: Image) {
    && o.image == image && o.surface == bound.surface && o.focus == bound.focus
    && o.focused && o.visible && o.unobscured && o.content >= bound.content
  }

  predicate Examines(x: Link) { x.request.Watch? || x.request.FullPresent? }

  /** An examination finds nothing on screen for the registration, or not what was bound. */
  predicate FailsAt(x: Link, registration: u64, bound: Observation, image: Image) {
    && Examines(x)
    && var o := x.request.seen(registration);
    && (o.None? || !Clear(o.value, bound, image))
  }

  /** A full present in which the bound surface is clear, ready, and newer than when it was bound. */
  predicate ShowsAt(x: Link, registration: u64, bound: Observation, image: Image) {
    && x.request.FullPresent?
    && var o := x.request.seen(registration);
    && o.Some? && Clear(o.value, bound, image) && o.value.ready && o.value.content > bound.content
  }

  /** An accepted change of context, or the withdrawal of this registration. */
  predicate DropsAt(x: Link, registration: u64) {
    || (x.request.UpdateContext? && !x.answer.Refused?)
    || (x.request.Withdraw? && x.answer.Granted? && x.request.registration == registration)
  }

  predicate BindsAt(x: Link, registration: u64) {
    x.request.Bind? && x.answer.Granted? && x.answer.receipt.registration == registration
  }

  /** Before `n` some examination since the binding at `k` failed. */
  ghost predicate HasFailed(t: seq<Link>, k: nat, n: nat)
    requires k < n <= |t| && t[k].request.Bind? && t[k].answer.Granted?
  {
    exists j :: k < j < n
                && FailsAt(t[j], t[k].answer.receipt.registration, t[k].request.observation, t[k].answer.receipt.image)
  }

  /** Before `n` some full present since the binding at `k`, with no failure before it, showed the bound surface. */
  ghost predicate HasShown(t: seq<Link>, k: nat, n: nat)
    requires k < n <= |t| && t[k].request.Bind? && t[k].answer.Granted?
  {
    exists j :: k < j < n && ShownFirst(t, k, j)
  }

  /** `j` is the first full present since the binding at `k` that shows the bound surface, and no failure precedes it. */
  ghost predicate ShownFirst(t: seq<Link>, k: nat, j: nat)
    requires k < j < |t| && t[k].request.Bind? && t[k].answer.Granted?
  {
    && ShowsAt(t[j], t[k].answer.receipt.registration, t[k].request.observation, t[k].answer.receipt.image)
    && !HasFailed(t, k, j)
    && forall i :: k < i < j ==>
         !ShowsAt(t[i], t[k].answer.receipt.registration, t[k].request.observation, t[k].answer.receipt.image)
  }

  /** The receipt as the requests since the binding at `k` decide it. */
  ghost predicate Decided(t: seq<Link>, k: nat, n: nat, receipt: Receipt)
    requires k < n <= |t| && t[k].request.Bind? && t[k].answer.Granted?
  {
    && (receipt.standing == Revoked <==> HasFailed(t, k, n))
    && (receipt.standing == Presented <==> !HasFailed(t, k, n) && HasShown(t, k, n))
    && (forall j :: k < j < n && ShownFirst(t, k, j) ==> Records(receipt, t[j]))
    && receipt.registration == t[k].answer.receipt.registration && receipt.image == t[k].answer.receipt.image
    && receipt.surface == t[k].request.observation.surface.token
  }

  /** The receipt carries the content and focus this full present saw. */
  predicate Records(receipt: Receipt, x: Link) {
    && x.request.FullPresent? && x.request.seen(receipt.registration).Some?
    && receipt.content == x.request.seen(receipt.registration).value.content
    && receipt.focus == x.request.seen(receipt.registration).value.focus
  }

  /** What the entry itself remembers of the binding at `k`. */
  predicate Remembers(x: Link, e: Registered) {
    && BindsAt(x, e.receipt.registration) && e.receipt.image == x.answer.receipt.image
    && e.bound == Some(Bond(x.request.observation.surface, x.request.observation.content, x.request.observation.focus))
  }

  /** One request, from the entry's side: examined, left alone, or dropped. */
  lemma EntryPersists(x: Link, i: nat) returns (i': nat)
    requires Kept(x.pre) && (x.post, x.answer) == Apply(x.pre, x.request) && i < |x.pre.entries|
    requires x.pre.entries[i].bound.Some? && !DropsAt(x, x.pre.entries[i].receipt.registration)
    ensures i' < |x.post.entries|
    ensures x.post.entries[i'] ==
      if Examines(x) then Renew(x.pre.entries[i], x.request.seen(x.pre.entries[i].receipt.registration), x.request.FullPresent?).0
      else x.pre.entries[i]
  {
    hide Renew;
    i' := i;
    if x.request.Withdraw? && x.post != x.pre {
      var found := FindNumber(x.pre.entries, x.request.registration, 0);
      i' := if i < found.value then i else i - 1;
    }
  }

  /** A full present that shows the bound surface, with no failure before it, is or follows the first such. */
  lemma {:induction false} SomeShownFirst(t: seq<Link>, k: nat, j: nat)
    requires k < j < |t| && t[k].request.Bind? && t[k].answer.Granted? && !HasFailed(t, k, j)
    requires ShowsAt(t[j], t[k].answer.receipt.registration, t[k].request.observation, t[k].answer.receipt.image)
    ensures HasShown(t, k, j + 1)
  {
    if i :| k < i < j
            && ShowsAt(t[i], t[k].answer.receipt.registration, t[k].request.observation, t[k].answer.receipt.image)
    {
      SomeShownFirst(t, k, i);
    } else {
      assert ShownFirst(t, k, j);
    }
  }

  lemma StepIsDecided(t: seq<Link>, k: nat, n: nat, e: Registered, e': Registered)
    requires k < n < |t| && t[k].request.Bind? && t[k].answer.Granted? && t[k].request.observation.focus != 0
    requires Remembers(t[k], e) && Decided(t, k, n, e.receipt)
    requires e' == if Examines(t[n]) then Renew(e, t[n].request.seen(e.receipt.registration), t[n].request.FullPresent?).0 else e
    ensures Remembers(t[k], e') && Decided(t, k, n + 1, e'.receipt)
  {
    hide ShowsAt, FailsAt;
    var r, o, image := t[k].answer.receipt.registration, t[k].request.observation, t[k].answer.receipt.image;
    ExaminedEntry(t[k], t[n], e, e');
    assert HasFailed(t, k, n + 1) <==> HasFailed(t, k, n) || FailsAt(t[n], r, o, image);
    assert HasShown(t, k, n + 1) <==> HasShown(t, k, n) || ShownFirst(t, k, n);
    if !HasFailed(t, k, n) && ShowsAt(t[n], r, o, image) { SomeShownFirst(t, k, n); }
  }

  /** One examination of an entry, in terms of what was bound. */
  lemma ExaminedEntry(bind: Link, x: Link, e: Registered, e': Registered)
    requires Remembers(bind, e) && bind.request.observation.focus != 0
    requires e' == if Examines(x) then Renew(e, x.request.seen(e.receipt.registration), x.request.FullPresent?).0 else e
    ensures var o := bind.request.observation; var image := bind.answer.receipt.image;
      && Remembers(bind, e') && e'.receipt.surface == e.receipt.surface
      && (e'.receipt.standing == Revoked <==>
            e.receipt.standing == Revoked || FailsAt(x, e.receipt.registration, o, image))
      && (e'.receipt.standing == Presented <==>
            && !FailsAt(x, e.receipt.registration, o, image)
            && (|| e.receipt.standing == Presented
                || (e.receipt.standing == Waiting && ShowsAt(x, e.receipt.registration, o, image))))
      && (if e.receipt.standing == Waiting && ShowsAt(x, e.receipt.registration, o, image) then Records(e'.receipt, x)
          else e'.receipt.content == e.receipt.content && e'.receipt.focus == e.receipt.focus)
  {
  }

  lemma {:induction false} EntryIsDecided(t: seq<Link>, k: nat, n: nat) returns (i: nat)
    requires IsHistory(t) && k < n <= |t| && t[k].request.Bind? && t[k].answer.Granted?
    requires forall j :: k < j < n ==> !DropsAt(t[j], t[k].answer.receipt.registration)
    ensures i < |BookAt(t, n).entries| && Remembers(t[k], BookAt(t, n).entries[i])
    ensures Decided(t, k, n, BookAt(t, n).entries[i].receipt)
  {
    HistoryKeeps(t, n - 1);
    assert LegalAt(t, n - 1);
    if n == k + 1 {
      i := Find(t[k].pre.entries, t[k].request.correlation).value;
    } else {
      var j := EntryIsDecided(t, k, n - 1);
      i := EntryPersists(t[n - 1], j);
      assert LegalAt(t, k);
      StepIsDecided(t, k, n - 1, BookAt(t, n - 1).entries[j], BookAt(t, n).entries[i]);
    }
  }

  ghost predicate HasEntry(b: Book, registration: u64) {
    exists i :: 0 <= i < |b.entries| && b.entries[i].receipt.registration == registration
  }

  predicate Used(b: Book, registration: u64) { b.next.None? || registration < b.next.value }

  lemma {:induction false} GoneStays(t: seq<Link>, m: nat, n: nat, registration: u64)
    requires IsHistory(t) && m <= n <= |t| && Used(BookAt(t, m), registration) && !HasEntry(BookAt(t, m), registration)
    ensures Used(BookAt(t, n), registration) && !HasEntry(BookAt(t, n), registration)
  {
    hide Kept, Apply, Used, HasEntry;
    if m < n {
      GoneStays(t, m, n - 1, registration);
      HistoryKeeps(t, n - 1);
      assert LegalAt(t, n - 1);
      GoneStep(t[n - 1], registration);
    }
  }

  lemma GoneStep(x: Link, registration: u64)
    requires Kept(x.pre) && (x.post, x.answer) == Apply(x.pre, x.request)
    requires Used(x.pre, registration) && !HasEntry(x.pre, registration)
    ensures Used(x.post, registration) && !HasEntry(x.post, registration)
  {
    hide Kept, Apply, Continues;
    NextGrows(x);
    forall i: nat | i < |x.post.entries| ensures x.post.entries[i].receipt.registration != registration {
      EntriesDescend(x, i);
    }
  }

  /**
  A bound registration has an entry until a change of context or its withdrawal drops it. Until then its receipt is
  decided by the examinations since it was bound: revoked exactly when one failed, presented exactly when none
  failed and a full present showed the bound surface ready and newer, with what the first such present saw.
  */
  lemma BoundIsDecided(t: seq<Link>, k: nat, n: nat, registration: u64)
    requires IsHistory(t) && k < n <= |t| && BindsAt(t[k], registration)
    ensures HasEntry(BookAt(t, n), registration) <==> forall j :: k < j < n ==> !DropsAt(t[j], registration)
    ensures forall i :: 0 <= i < |BookAt(t, n).entries| && BookAt(t, n).entries[i].receipt.registration == registration ==>
      Decided(t, k, n, BookAt(t, n).entries[i].receipt)
  {
    HistoryKeeps(t, n);
    if j :| k < j < n && DropsAt(t[j], registration) {
      DroppedIsGone(t, k, j, registration);
      GoneStays(t, j + 1, n, registration);
    } else {
      var i := EntryIsDecided(t, k, n);
    }
  }

  lemma DroppedIsGone(t: seq<Link>, k: nat, j: nat, registration: u64)
    requires IsHistory(t) && k < j < |t| && BindsAt(t[k], registration) && DropsAt(t[j], registration)
    ensures Used(BookAt(t, j + 1), registration) && !HasEntry(BookAt(t, j + 1), registration)
  {
    BindIsPast(t, k);
    PastRemains(t, k + 1, j + 1, registration, false);
    HistoryKeeps(t, j);
    assert LegalAt(t, j);
  }

  /** Watching asks for a frame exactly when some pending registration could be shown by it. */
  lemma WatchAsksIff(b: Book, seen: Seen)
    ensures Apply(b, Watch(seen)).1 == NeedsFrame(true) <==> exists i :: 0 <= i < |b.entries| && Awaits(b.entries[i], seen)
  {
    if i :| 0 <= i < |b.entries| && Awaits(b.entries[i], seen) {
      assert Renew(b.entries[i], seen(b.entries[i].receipt.registration), false).1;
    }
  }

  predicate Awaits(e: Registered, seen: Seen) {
    && e.bound.Some? && e.receipt.standing == Waiting && seen(e.receipt.registration).Some?
    && var o := seen(e.receipt.registration).value;
    && o.image == e.receipt.image && o.surface == e.bound.value.surface
    && o.focus == e.bound.value.focus && o.focus != 0 && o.focused && o.visible && o.unobscured
    && o.ready && o.content > e.bound.value.baseline
  }

  // One-way doors.

  /** A registration that is gone, or whose entry is already bound, or revoked, stays so. */
  predicate Past(b: Book, registration: u64, revoked: bool) {
    && (b.next.None? || registration < b.next.value)
    && forall i :: 0 <= i < |b.entries| && b.entries[i].receipt.registration == registration ==>
         b.entries[i].bound.Some? && (revoked ==> b.entries[i].receipt.standing == Revoked)
  }

  lemma PastStays(x: Link, registration: u64, revoked: bool)
    requires Kept(x.pre) && (x.post, x.answer) == Apply(x.pre, x.request) && Past(x.pre, registration, revoked)
    ensures Past(x.post, registration, revoked)
  {
    NextGrows(x);
    forall i | 0 <= i < |x.post.entries| && x.post.entries[i].receipt.registration == registration
      ensures x.post.entries[i].bound.Some? && (revoked ==> x.post.entries[i].receipt.standing == Revoked)
    {
      EntriesDescend(x, i);
    }
  }

  lemma NextGrows(x: Link)
    requires (x.post, x.answer) == Apply(x.pre, x.request)
    ensures x.post.next == x.pre.next
            || (x.pre.next.Some? && x.request.Register? && x.post.next == CheckedAdd(x.pre.next.value, 1))
    ensures x.request.Register? && x.answer.Granted? ==> x.pre.next == Some(x.answer.receipt.registration)
  {
  }

  lemma {:induction false} PastRemains(t: seq<Link>, m: nat, n: nat, registration: u64, revoked: bool)
    requires IsHistory(t) && m <= n <= |t| && Past(BookAt(t, m), registration, revoked)
    ensures Past(BookAt(t, n), registration, revoked)
  {
    if m < n {
      PastRemains(t, m, n - 1, registration, revoked);
      HistoryKeeps(t, n - 1);
      assert LegalAt(t, n - 1);
      PastStays(t[n - 1], registration, revoked);
    }
  }

  /** A revoked registration is never anything else again. */
  lemma RevokedIsFinal(t: seq<Link>, m: nat, n: nat, i: nat, j: nat)
    requires IsHistory(t) && m <= n <= |t| && i < |BookAt(t, m).entries| && j < |BookAt(t, n).entries|
    requires BookAt(t, m).entries[i].receipt.standing == Revoked
    requires BookAt(t, n).entries[j].receipt.registration == BookAt(t, m).entries[i].receipt.registration
    ensures BookAt(t, n).entries[j].receipt.standing == Revoked
  {
    HistoryKeeps(t, m);
    PastRemains(t, m, n, BookAt(t, m).entries[i].receipt.registration, true);
  }

  /** No registration is bound twice. */
  lemma BoundOnce(t: seq<Link>, i: nat, j: nat)
    requires IsHistory(t) && i < |t| && j < |t| && i != j
    requires t[i].request.Bind? && t[i].answer.Granted? && t[j].request.Bind? && t[j].answer.Granted?
    ensures t[i].answer.receipt.registration != t[j].answer.receipt.registration
  {
    if j < i {
      BoundOnce(t, j, i);
    } else {
      BindIsPast(t, i);
      PastRemains(t, i + 1, j, t[i].answer.receipt.registration, false);
      assert LegalAt(t, j);
    }
  }

  lemma BindIsPast(t: seq<Link>, i: nat)
    requires IsHistory(t) && i < |t| && t[i].request.Bind? && t[i].answer.Granted?
    ensures Past(BookAt(t, i + 1), t[i].answer.receipt.registration, false)
  {
    assert LegalAt(t, i);
    HistoryKeeps(t, i);
    HistoryKeeps(t, i + 1);
  }

  /** Once a session generation is deactivated it is never active again. */
  lemma {:induction false} ContextsOnlyAdvance(t: seq<Link>, m: nat, n: nat)
    requires IsHistory(t) && m <= n <= |t| && BookAt(t, m).context.Some?
    ensures BookAt(t, n).context.Some?
    ensures var c, d := BookAt(t, m).context.value, BookAt(t, n).context.value;
      && c.generation <= d.generation
      && (c.generation == d.generation ==> d.session == c.session && (!c.active ==> !d.active))
  {
    if m < n {
      ContextsOnlyAdvance(t, m, n - 1);
      assert LegalAt(t, n - 1);
    }
  }

  /** Withdrawing removes exactly the entry whose status was checked, though it looks it up again by number alone. */
  lemma WithdrawRemovesChecked(b: Book, broker: u64, correlation: Correlation, registration: u64, i: nat)
    requires Kept(b) && i < |b.entries| && Is(b.entries[i], correlation, registration)
    ensures DoWithdraw(b, broker, correlation, registration)
      == if b.entries[i].broker != broker then (b, Refused(13))
         else (b.(entries := b.entries[..i] + b.entries[i + 1..]), Granted(b.entries[i].receipt.(standing := Revoked)))
  {
    var at := FindExact(b.entries, correlation, registration, 0);
    var found := FindNumber(b.entries, registration, 0);
    assert at == Some(i) && found == Some(i);
  }

  /** The registry itself, updated in place. */
  class Registry {
    var context: Option<Context>
    var next: Option<u64>
    var entries: Registereds

    function Contents(): Book
      reads this
    {
      Book(context, next, entries)
    }

    constructor ()
      ensures Contents() == EMPTY_BOOK
    {
      context, next, entries := None, Some(1), [];
    }

    method UpdateContext(c: Context, valid: bool) returns (answer: Answer)
      modifies this
      ensures (Contents(), answer) == Apply(old(Contents()), Request.UpdateContext(c, valid))
    {
      if !valid
         || (context.Some?
             && (c.generation < context.value.generation
                 || (c.generation == context.value.generation && (c.active || c.session != context.value.session))))
      {
        return Refused(22);
      }
      entries, context := [], Some(c);
      answer := NeedsFrame(false);
    }

    method Locate(correlation: Correlation) returns (r: Option<nat>)
      ensures r == Find(entries, correlation)
    {
      for i := 0 to |entries|
        invariant Find(entries, correlation) == FindFrom(entries, correlation, i)
      {
        if entries[i].correlation == correlation { return Some(i); }
      }
      r := None;
    }

    method Register(broker: u64, c: Context, correlation: Correlation, validTicket: bool, kind: Kind, image: Image,
                    memory: bool)
      returns (answer: Answer)
      modifies this
      ensures (Contents(), answer)
        == Apply(old(Contents()), Request.Register(broker, c, correlation, validTicket, kind, image, memory))
    {
      if broker == 0 || image.process == 0 || !c.active || context != Some(c) || !validTicket || correlation.display == 0 {
        return Refused(13);
      }
      var taken := Locate(correlation);
      if taken.Some? { return Refused(16); }
      if |entries| == MAX_REGISTRATIONS { return Refused(28); }
      if !memory { return Refused(12); }
      if next.None? { return Refused(75); }
      var receipt := Receipt(Waiting, next.value, c, 0, 0, 0, image);
      next := CheckedAdd(next.value, 1);
      entries := entries + [Registered(broker, correlation, kind, receipt, None)];
      answer := Granted(receipt);
    }

    method Bind(correlation: Correlation, o: Observation) returns (answer: Answer)
      modifies this
      ensures (Contents(), answer) == Apply(old(Contents()), Request.Bind(correlation, o))
    {
      var at := Locate(correlation);
      if at.None? { return Refused(2); }
      var e := entries[at.value];
      if e.bound.Some? || e.receipt.standing != Waiting { return Refused(16); }
      if o.image != e.receipt.image || o.surface.token == 0 || o.surface.client == 0 || o.surface.sender == 0
         || o.focus == 0 || !o.focused
      {
        return Refused(13);
      }
      e := e.(bound := Some(Bond(o.surface, o.content, o.focus)), receipt := e.receipt.(surface := o.surface.token));
      entries := entries[at.value := e];
      answer := Granted(e.receipt);
    }

    /** Put every bound entry to the test of what is on screen now. */
    method Examine(seen: Seen, shown: bool) returns (wanted: bool)
      modifies this`entries
      ensures entries == RenewAll(old(entries), seen, shown) && wanted == Wanted(old(entries), seen, shown)
    {
      ghost var before := entries;
      wanted := false;
      for i := 0 to |entries|
        invariant |entries| == |before|
        invariant forall k :: 0 <= k < |before| ==>
          entries[k] == if k < i then Renew(before[k], seen(before[k].receipt.registration), shown).0 else before[k]
        invariant wanted <==> exists k :: 0 <= k < i && Renew(before[k], seen(before[k].receipt.registration), shown).1
      {
        var (e, fresher) := Renew(entries[i], seen(entries[i].receipt.registration), shown);
        entries := entries[i := e];
        wanted := wanted || fresher;
      }
    }

    method Observe(seen: Seen) returns (answer: Answer)
      modifies this`entries
      ensures (Contents(), answer) == Apply(old(Contents()), Watch(seen))
    {
      var wanted := Examine(seen, false);
      answer := NeedsFrame(wanted);
    }

    method FullPresented(seen: Seen)
      modifies this`entries
      ensures Contents() == Apply(old(Contents()), FullPresent(seen)).0
    {
      var _ := Examine(seen, true);
    }

    method Status(broker: u64, correlation: Correlation, registration: u64) returns (answer: Answer)
      ensures answer == match FindExact(entries, correlation, registration, 0)
                        case None => Refused(2)
                        case Some(i) => if entries[i].broker != broker then Refused(13) else Granted(entries[i].receipt)
    {
      for i := 0 to |entries|
        invariant FindExact(entries, correlation, registration, 0) == FindExact(entries, correlation, registration, i)
      {
        if entries[i].correlation == correlation && entries[i].receipt.registration == registration {
          return if entries[i].broker != broker then Refused(13) else Granted(entries[i].receipt);
        }
      }
      answer := Refused(2);
    }

    method Cancel(broker: u64, correlation: Correlation, registration: u64) returns (answer: Answer)
      modifies this`entries
      ensures (Contents(), answer) == Apply(old(Contents()), Withdraw(broker, correlation, registration))
    {
      answer := Status(broker, correlation, registration);
      if answer.Refused? { return; }
      for i := 0 to |entries|
        invariant entries == old(entries) && FindNumber(entries, registration, 0) == FindNumber(entries, registration, i)
      {
        if entries[i].receipt.registration == registration {
          answer := Granted(entries[i].receipt.(standing := Revoked));
          entries := entries[..i] + entries[i + 1..];
          return;
        }
      }
      assert false;
    }
  }
}
