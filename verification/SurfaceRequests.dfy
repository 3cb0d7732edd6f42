/**
The requests that change the compositor's surface table, as methods that keep
the table sound, and the exact effect of destroying a surface or a client.
*/
module SurfaceRequests {
  import opened Base
  import opened SurfaceTable
  import opened StackOrder
  import opened ClientLeaving

  const MAX_SURFACES: nat := 16
  const MAX_WINDOWS: nat := 8
  const MAX_DIMENSION: nat := 16384
  const MAX_MODAL_SESSIONS: nat := 16

  datatype Status = AccessDenied | BadRequest | CapacityExceeded | NoEntropy

  /** General clients may create top-level surfaces and popups; a secure overlay needs its own capability. */
  predicate MayCreate(role: Role, secure: bool, compat: bool) {
    if role == SecureOverlay then secure else compat || role == Toplevel || role == Popup
  }

  predicate TakesFocus(role: Role) { role == Toplevel || role == SecureOverlay || role == SystemModal }

  /** The surfaces that may take the keyboard when nothing has it. */
  predicate Focusable(s: Surfaces, i: nat) {
    Live(s, i) && s[i].visible && !s[i].isDecoration && TakesFocus(s[i].role)
  }

  /** The live surfaces, as a measure of what is left to destroy. */
  function LiveSet(s: Surfaces): set<nat> { set i: nat | i < |s| && s[i].live }

  function ClearedFocus(focus: Option<nat>, s: Surfaces): Option<nat> {
    if focus.Some? && !Live(s, focus.value) then None else focus
  }

  // Adding a surface.

  ghost predicate Newcomer(s: Surfaces, n: Surface, issued: map<nat, nat>) {
    && n.live && n.token == n.handle && n.handle !in issued
    && (n.parent.Some? ==>
          && n.role == Popup && !n.isDecoration && n.window == 0 && n.parent.value in issued
          && forall k: nat :: Names(s, k, n.parent.value) ==> s[k].owner == n.owner)
  }

  lemma AddKeepsFamily(s: Surfaces, issued: map<nat, nat>, births: nat, i: nat, n: Surface)
    requires HandlesDistinct(s) && Family(s, issued) && SameOwner(s) && Issued(issued, births)
    requires i < |s| && !s[i].live && Newcomer(s, n, issued)
    ensures var issued' := issued[n.handle := births];
      HandlesDistinct(s[i := n]) && Family(s[i := n], issued') && SameOwner(s[i := n]) && Issued(issued', births + 1)
  {
    var s' := s[i := n];
    assert forall j: nat, h :: Names(s', j, h) ==> (if j == i then h == n.handle else Names(s, j, h));
    assert forall j: nat :: Live(s', j) && j != i ==> Live(s, j);
    assert n.parent.Some? ==> forall k: nat :: Live(s, k) && s[k].handle == n.parent.value ==> Names(s, k, n.parent.value);
  }

  lemma AddKeepsWindows(s: Surfaces, w: Windows, i: nat, n: Surface)
    requires WindowsHold(s, w) && i < |s| && !s[i].live
    ensures WindowsHold(s[i := n], w)
  {
    var s' := s[i := n];
    forall a: nat | OpenAt(w, a)
      ensures exists k: nat :: ContentAt(s', k, w[a])
      ensures w[a].decoration.Some? ==> exists k: nat :: DecorationAt(s', k, w[a])
    {
      var k: nat :| ContentAt(s, k, w[a]);
      assert ContentAt(s', k, w[a]);
      if w[a].decoration.Some? {
        var d: nat :| DecorationAt(s, d, w[a]);
        assert DecorationAt(s', d, w[a]);
      }
    }
  }

  /** A surface that is not the content of a window. */
  lemma AddKeeps(s: Surfaces, w: Windows, issued: map<nat, nat>, births: nat, last: nat, i: nat, n: Surface)
    requires Sound(s, w, issued, last) && Issued(issued, births)
    requires i < |s| && !s[i].live && Newcomer(s, n, issued) && (n.isDecoration || n.window == 0)
    ensures Sound(s[i := n], w, issued[n.handle := births], last) && Issued(issued[n.handle := births], births + 1)
  {
    AddKeepsFamily(s, issued, births, i, n);
    AddKeepsWindows(s, w, i, n);
    hide Family, SameOwner, WindowsHold, HandlesDistinct;
    var s' := s[i := n];
    forall k: nat | Live(s', k) && s'[k].window != 0 && !s'[k].isDecoration
      ensures exists a: nat :: OpenAt(w, a) && w[a].id == s'[k].window && w[a].content == s'[k].handle
    {
      assert Live(s, k);
    }
  }

  /** A top-level surface with its new window. */
  lemma OpenKeeps(s: Surfaces, w: Windows, issued: map<nat, nat>, births: nat, last: nat, i: nat, n: Surface, slot: nat,
                  token: nat)
    requires Sound(s, w, issued, last) && Issued(issued, births)
    requires i < |s| && !s[i].live && Newcomer(s, n, issued)
    requires n.role == Toplevel && !n.isDecoration && n.window == last + 1 && n.parent.None?
    requires slot < |w| && !w[slot].live
    ensures var w' := w[slot := Window(true, last + 1, token, n.handle, None, 0, Normal)];
      Sound(s[i := n], w', issued[n.handle := births], last + 1) && Issued(issued[n.handle := births], births + 1)
  {
    AddKeepsFamily(s, issued, births, i, n);
    AddKeepsWindows(s, w, i, n);
    hide Family, SameOwner, HandlesDistinct, Newcomer;
    var s', w' := s[i := n], w[slot := Window(true, last + 1, token, n.handle, None, 0, Normal)];
    assert forall a: nat :: OpenAt(w', a) && a != slot ==> OpenAt(w, a) && w'[a] == w[a];
    assert ContentAt(s', i, w'[slot]);
    forall k: nat | Live(s', k) && s'[k].window != 0 && !s'[k].isDecoration
      ensures exists a: nat :: OpenAt(w', a) && w'[a].id == s'[k].window && w'[a].content == s'[k].handle
    {
      if k == i {
        assert OpenAt(w', slot);
      } else {
        assert Live(s, k);
        var a: nat :| OpenAt(w, a) && w[a].id == s[k].window && w[a].content == s[k].handle;
        assert OpenAt(w', a);
      }
    }
  }

  /** Changing only visibility and stacking of surfaces, and decoration links of windows that stay backed. */
  lemma RestyleKeeps(s: Surfaces, w: Windows, issued: map<nat, nat>, last: nat, s': Surfaces, w': Windows)
    requires Sound(s, w, issued, last) && |s'| == |s| && |w'| == |w|
    requires forall i: nat :: i < |s| ==> s'[i] == s[i].(visible := s'[i].visible, z := s'[i].z, underProtection := s'[i].underProtection)
    requires forall a: nat :: a < |w| ==>
      w'[a] == w[a].(decoration := w'[a].decoration, decorator := w'[a].decorator, arrangement := w'[a].arrangement)
    requires forall a: nat :: OpenAt(w, a) && w'[a].decoration.Some? && w'[a].decoration != w[a].decoration ==>
      exists i: nat :: DecorationAt(s, i, w'[a])
    ensures Sound(s', w', issued, last)
  {
    assert forall i: nat :: Live(s', i) <==> Live(s, i);
    assert forall i: nat, h :: Names(s', i, h) <==> Names(s, i, h);
    assert forall a: nat :: OpenAt(w', a) <==> OpenAt(w, a);
    RestyleKeepsWindows(s, w, s', w');
    forall k: nat | Live(s', k) && s'[k].window != 0 && !s'[k].isDecoration
      ensures exists a: nat :: OpenAt(w', a) && w'[a].id == s'[k].window && w'[a].content == s'[k].handle
    {
      assert Live(s, k);
      var a: nat :| OpenAt(w, a) && w[a].id == s[k].window && w[a].content == s[k].handle;
      assert OpenAt(w', a);
    }
  }

  lemma RestyleKeepsWindows(s: Surfaces, w: Windows, s': Surfaces, w': Windows)
    requires WindowsHold(s, w) && |s'| == |s| && |w'| == |w|
    requires forall i: nat :: i < |s| ==> s'[i] == s[i].(visible := s'[i].visible, z := s'[i].z, underProtection := s'[i].underProtection)
    requires forall a: nat :: a < |w| ==>
      w'[a] == w[a].(decoration := w'[a].decoration, decorator := w'[a].decorator, arrangement := w'[a].arrangement)
    requires forall a: nat :: OpenAt(w, a) && w'[a].decoration.Some? && w'[a].decoration != w[a].decoration ==>
      exists i: nat :: DecorationAt(s, i, w'[a])
    ensures WindowsHold(s', w')
  {
    forall a: nat | OpenAt(w', a)
      ensures exists k: nat :: ContentAt(s', k, w'[a])
      ensures w'[a].decoration.Some? ==> exists k: nat :: DecorationAt(s', k, w'[a])
    {
      assert OpenAt(w, a);
      var k: nat :| ContentAt(s, k, w[a]);
      assert ContentAt(s', k, w'[a]);
      if w'[a].decoration.Some? {
        var d: nat :| if w'[a].decoration == w[a].decoration then DecorationAt(s, d, w[a]) else DecorationAt(s, d, w'[a]);
        assert DecorationAt(s', d, w'[a]);
      }
    }
  }

  class Desk {
    var surfaces: Surfaces
    var windows: Windows
    var pointerFocus: Option<nat>
    var keyboardFocus: Option<nat>
    var nextZ: u32
    var nextWindowId: nat
    var sessions: seq<Session>
    ghost var issued: map<nat, nat>
    ghost var births: nat
    ghost var wrapped: bool

    ghost predicate Valid()
      reads this
    {
      && |surfaces| == MAX_SURFACES && |windows| == MAX_WINDOWS && |sessions| <= MAX_MODAL_SESSIONS
      && (!wrapped ==> UnderCounter(surfaces, nextZ))
      && Issued(issued, births) && Sound(surfaces, windows, issued, nextWindowId)
      && FocusLive(surfaces, pointerFocus) && FocusLive(surfaces, keyboardFocus)
    }

    function Now(): View
      reads this
    {
      View(surfaces, windows, pointerFocus, keyboardFocus, nextZ, sessions)
    }

    constructor ()
      ensures Valid() && Now() == Nothing() && issued == map[] && !wrapped
    {
      surfaces, windows := Nothing().surfaces, Nothing().windows;
      pointerFocus, keyboardFocus, nextZ, nextWindowId := None, None, 0, 0;
      sessions := [];
      issued, births, wrapped := map[], 0, false;
    }

    method FindChild(handle: nat) returns (r: Option<nat>)
      ensures r.Some? ==> Live(surfaces, r.value) && surfaces[r.value].parent == Some(handle)
      ensures r.None? ==> forall i: nat :: Live(surfaces, i) ==> surfaces[i].parent != Some(handle)
    {
      for i := 0 to |surfaces|
        invariant forall k: nat :: k < i && Live(surfaces, k) ==> surfaces[k].parent != Some(handle)
      {
        if surfaces[i].live && surfaces[i].parent == Some(handle) { return Some(i); }
      }
      r := None;
    }

    method FindByHandle(handle: nat) returns (r: Option<nat>)
      ensures Found(surfaces, handle, r)
      ensures r == SurfaceIndex(surfaces, handle, 0)
    {
      for i := 0 to |surfaces|
        invariant forall k: nat :: k < i && Names(surfaces, k, handle) ==> surfaces[k].token != handle
        invariant SurfaceIndex(surfaces, handle, 0) == SurfaceIndex(surfaces, handle, i)
      {
        if surfaces[i].live && surfaces[i].handle == handle && surfaces[i].token == handle { return Some(i); }
      }
      r := None;
    }

    method FindWindow(id: nat) returns (r: Option<nat>)
      ensures r.Some? ==> OpenAt(windows, r.value) && windows[r.value].id == id
      ensures r.None? ==> forall a: nat :: OpenAt(windows, a) ==> windows[a].id != id
      ensures r == WindowIndex(windows, id, 0)
    {
      for a := 0 to |windows|
        invariant forall k: nat :: k < a && OpenAt(windows, k) ==> windows[k].id != id
        invariant WindowIndex(windows, id, 0) == WindowIndex(windows, id, a)
      {
        if windows[a].live && windows[a].id == id { return Some(a); }
      }
      r := None;
    }

    method ClearFocus(index: nat)
      modifies this`pointerFocus, this`keyboardFocus
      ensures pointerFocus == if old(pointerFocus) == Some(index) then None else old(pointerFocus)
      ensures keyboardFocus == if old(keyboardFocus) == Some(index) then None else old(keyboardFocus)
    {
      if pointerFocus == Some(index) { pointerFocus := None; }
      if keyboardFocus == Some(index) { keyboardFocus := None; }
    }

    /** How much younger surfaces can still get, which bounds the depth of a tree. */
    ghost function Headroom(index: nat): nat
      requires Valid()
      reads this
    {
      if Live(surfaces, index) then births - issued[surfaces[index].handle] else 0
    }

    /** Destroy a surface, its descendants, its window and the window's decoration. */
    method DestroyTree(index: nat)
      requires Valid()
      modifies this`surfaces, this`windows, this`pointerFocus, this`keyboardFocus
      ensures Valid()
      ensures !Live(old(surfaces), index) ==> surfaces == old(surfaces) && windows == old(windows)
      ensures Live(old(surfaces), index) ==>
        Destroyed(old(surfaces), old(windows), index, surfaces, windows)
      ensures pointerFocus == ClearedFocus(old(pointerFocus), surfaces)
      ensures keyboardFocus == ClearedFocus(old(keyboardFocus), surfaces)
      decreases Headroom(index)
    {
      hide Sound, Partly, Sealed, Destroyed, Issued;
      if index >= |surfaces| || !surfaces[index].live { return; }
      ghost var s0, w := surfaces, windows;
      TreeStarts(s0, index);
      var handle := surfaces[index].handle;
      var child := FindChild(handle);
      while child.Some?
        invariant Valid() && windows == w && Live(surfaces, index) && surfaces[index] == s0[index]
        invariant Partly(s0, surfaces, index) && Sealed(s0, surfaces)
        invariant pointerFocus == ClearedFocus(old(pointerFocus), surfaces)
        invariant keyboardFocus == ClearedFocus(old(keyboardFocus), surfaces)
        invariant child.Some? ==> Live(surfaces, child.value) && surfaces[child.value].parent == Some(handle)
        invariant child.None? ==> forall i: nat :: Live(surfaces, i) ==> surfaces[i].parent != Some(handle)
        decreases LiveSet(surfaces)
      {
        ghost var s := surfaces;
        ChildIsYounger(s, w, issued, births, nextWindowId, index, child.value);
        DestroyTree(child.value);
        ChildFalls(s0, s, surfaces, w, windows, issued, nextWindowId, index, child.value);
        child := FindChild(handle);
      }
      DestroyRoot(index, s0);
    }

    /** The last step, once no child is left. */
    method DestroyRoot(index: nat, ghost s0: Surfaces)
      requires Valid() && Live(surfaces, index) && Partly(s0, surfaces, index) && Sealed(s0, surfaces)
      requires forall i: nat :: Live(surfaces, i) ==> surfaces[i].parent != Some(surfaces[index].handle)
      modifies this`surfaces, this`windows, this`pointerFocus, this`keyboardFocus
      ensures Valid() && Destroyed(s0, old(windows), index, surfaces, windows)
      ensures forall i: nat :: Live(surfaces, i) ==> Live(old(surfaces), i)
      ensures pointerFocus == ClearedFocus(old(pointerFocus), surfaces)
      ensures keyboardFocus == ClearedFocus(old(keyboardFocus), surfaces)
    {
      hide Sound, Partly, Sealed, Destroyed, Attached, RootStep, WindowsAfter, UnderCounter,
        ClearedFocus, FocusLive;
      ghost var s, w0 := surfaces, windows;
      var gone := surfaces[index];
      var found := FindWindow(gone.window);
      var d: Option<nat> := None;
      WindowFound(s, w0, issued, nextWindowId, gone, found);
      if found.Some? && !gone.isDecoration && windows[found.value].decoration.Some? {
        d := FindByHandle(windows[found.value].decoration.value);
      }
      RootStepBy(s, w0, issued, nextWindowId, index, found, d);
      if d.Some? {
        ClearFocus(d.value);
        surfaces := surfaces[d.value := surfaces[d.value].Reset()];
      }
      if found.Some? {
        if gone.isDecoration {
          windows := windows[found.value := windows[found.value].(decoration := None, decorator := 0)];
        } else {
          windows := windows[found.value := EMPTY_WINDOW];
        }
      }
      ClearFocus(index);
      surfaces := surfaces[index := surfaces[index].Reset()];
      ResetUnder(s, d, index, nextZ);
      FocusFalls(s, d, index, old(pointerFocus));
      FocusFalls(s, d, index, old(keyboardFocus));
      RemoveKeepsWindows(s, w0, issued, nextWindowId, index, surfaces);
      RootFalls(s0, s, w0, index, surfaces);
    }

    /** The topmost window that can take the keyboard, of one process or of any. */
    method Frontmost(process: Option<nat>) returns (best: Option<nat>)
      ensures IsFrontmost(surfaces, process, best)
    {
      best := None;
      for index := 0 to |surfaces|
        invariant best.None? ==> forall i: nat :: i < index ==> !Candidate(surfaces, process, i)
        invariant best.Some? ==> best.value < index && Candidate(surfaces, process, best.value)
        invariant best.Some? ==>
          forall i: nat :: i < index && Candidate(surfaces, process, i) && i != best.value ==> Below(surfaces, i, best.value)
      {
        if Candidate(surfaces, process, index) && (best.None? || !KeyBelow(surfaces[index], surfaces[best.value])) {
          best := Some(index);
        }
      }
    }

    /** Give the keyboard to the topmost window that can take it, when nothing has it. */
    method RestoreFocus()
      requires Valid()
      modifies this`keyboardFocus
      ensures Valid() && Restored(surfaces, old(keyboardFocus), keyboardFocus)
    {
      hide Sound;
      if keyboardFocus.Some? { return; }
      keyboardFocus := Frontmost(None);
    }

    method FindOwned(client: nat, handle: nat) returns (r: Option<nat>)
      requires Valid()
      ensures r.Some? ==> Owned(surfaces, client, handle, r.value)
      ensures r.None? ==> forall i: nat :: !Owned(surfaces, client, handle, i)
    {
      hide Sound;
      LiveTokens(surfaces, windows, issued, nextWindowId);
      for i := 0 to |surfaces|
        invariant forall k: nat :: k < i ==> !Owned(surfaces, client, handle, k)
      {
        if surfaces[i].live && surfaces[i].owner == client && surfaces[i].handle == handle
           && surfaces[i].token == handle
        {
          return Some(i);
        }
      }
      r := None;
    }

    method FindWindowByToken(token: nat) returns (r: Option<nat>)
      ensures r.Some? ==> WindowNamed(windows, token, r.value)
      ensures r.None? ==> forall a: nat :: !WindowNamed(windows, token, a)
    {
      for a := 0 to |windows|
        invariant forall k: nat :: k < a && OpenAt(windows, k) ==> windows[k].token != token
      {
        if windows[a].live && windows[a].token == token { return Some(a); }
      }
      r := None;
    }

    method FreeSlot() returns (r: Option<nat>)
      ensures r.Some? ==> r.value < |surfaces| && !surfaces[r.value].live
      ensures r.None? ==> !HasFree(surfaces)
    {
      for i := 0 to |surfaces|
        invariant forall k: nat :: k < i ==> surfaces[k].live
      {
        if !surfaces[i].live { return Some(i); }
      }
      r := None;
    }

    method FreeWindow() returns (r: Option<nat>)
      ensures r.Some? ==> r.value < |windows| && !windows[r.value].live
      ensures r.None? ==> !HasRoom(windows)
    {
      for a := 0 to |windows|
        invariant forall k: nat :: k < a ==> windows[k].live
      {
        if !windows[a].live { return Some(a); }
      }
      r := None;
    }

    /** The request's own checks, before anything changes: the parent of a popup, else none. */
    method Admit(client: nat, role: Option<Role>, secure: bool, compat: bool, width: u32, height: u32,
                 parentToken: Option<nat>, anchorInside: bool)
      returns (r: Result<Option<nat>, Status>)
      requires Valid()
      ensures r.Ok? <==> Admissible(surfaces, client, role, secure, compat, width, height, parentToken, anchorInside)
      ensures r.Ok? ==> r.value == if role == Some(Popup) then parentToken else None
    {
      hide Sound;
      if role.None? { return Err(BadRequest); }
      if !MayCreate(role.value, secure, compat) { return Err(AccessDenied); }
      if !Sized(width, height) { return Err(BadRequest); }
      if role.value != Popup { return Ok(None); }
      if parentToken.None? { return Err(BadRequest); }
      var parent := FindOwned(client, parentToken.value);
      if parent.Some? { OneOwner(surfaces, windows, issued, nextWindowId, client, parentToken.value, parent.value); }
      if parent.None? || surfaces[parent.value].role !in {Toplevel, Popup} { return Err(AccessDenied); }
      if !anchorInside { return Err(BadRequest); }
      r := Ok(parentToken);
    }

    /** The next z value. */
    method TakeZ()
      requires Valid()
      modifies this`nextZ, this`wrapped
      ensures Valid() && nextZ == NextZ(old(nextZ)) && (old(wrapped) ==> wrapped)
    {
      hide Sound;
      wrapped := wrapped || NextZ(nextZ) < nextZ;
      nextZ := NextZ(nextZ);
    }

    /** A z value, and a window slot for a top-level surface; a refusal may use up numbers but changes no table. */
    method Number(background: bool, toplevel: bool, token: Result<nat, Status>, windowToken: Result<nat, Status>)
      returns (r: Result<Option<nat>, Status>)
      requires Valid()
      modifies this`nextZ, this`wrapped, this`nextWindowId
      ensures Valid() && nextZ == (if background then old(nextZ) else NextZ(old(nextZ)))
      ensures r.Ok? <==> token.Ok? && (toplevel ==> HasRoom(windows) && windowToken.Ok?)
      ensures r.Ok? ==> nextWindowId == old(nextWindowId)
      ensures nextWindowId == old(nextWindowId) || nextWindowId == old(nextWindowId) + 1
      ensures r.Ok? ==> if toplevel then r.value.Some? && r.value.value < |windows| && !windows[r.value.value].live
                        else r.value.None?
    {
      hide Sound, UnderCounter;
      if !background { TakeZ(); }
      if token.Err? { return Err(token.error); }
      if !toplevel { return Ok(None); }
      var slot := FreeWindow();
      if slot.None? { return Err(CapacityExceeded); }
      if windowToken.Err? {
        LaterIds(surfaces, windows, issued, nextWindowId);
        nextWindowId := nextWindowId + 1;
        return Err(windowToken.error);
      }
      r := Ok(slot);
    }

    /** Create a surface, and a window for a top-level one. */
    method Create(client: nat, role: Option<Role>, secure: bool, compat: bool, width: u32, height: u32,
                  parentToken: Option<nat>, anchorInside: bool, token: Result<nat, Status>,
                  windowToken: Result<nat, Status>, process: nat)
      returns (r: Result<nat, Status>)
      requires Valid() && (token.Ok? ==> token.value !in issued)
      modifies this`surfaces, this`windows, this`keyboardFocus, this`nextZ, this`wrapped, this`nextWindowId,
               this`issued, this`births
      ensures Valid() && issued.Keys == old(issued).Keys + (if r.Ok? then {r.value} else {})
      ensures r.Ok? ==> token == Ok(r.value)
      ensures nextWindowId == old(nextWindowId) || nextWindowId == old(nextWindowId) + 1
      ensures Handled(old(Now()), MakeSurface(client, role, secure, compat, width, height, parentToken, anchorInside,
                                               token, windowToken, process), Now())
    {
      hide Sound, Issued, Names, NextZ, TakesFocus, Opened, UnderCounter, Admissible, HasFree, HasRoom, Handled, Created;
      ghost var v := Now();
      ghost var made := MakeSurface(client, role, secure, compat, width, height, parentToken, anchorInside, token,
                                    windowToken, process);
      RefusedIs(v, made);
      var admitted := Admit(client, role, secure, compat, width, height, parentToken, anchorInside);
      if admitted.Err? { return Err(admitted.error); }
      var free := FreeSlot();
      if free.None? { return Err(CapacityExceeded); }
      var numbered := Number(role == Some(Background), role == Some(Toplevel), token, windowToken);
      if numbered.Err? { return Err(numbered.error); }
      var slot := numbered.value;
      AdmittedIs(surfaces, client, role, secure, compat, width, height, parentToken, anchorInside);
      Build(client, role.value, free.value, admitted.value, slot, token.value,
            if windowToken.Ok? then windowToken.value else 0, process);
      CreatedLives(v.surfaces, surfaces, free.value, client, token.value, role.value, admitted.value, process,
                   if role == Some(Background) then 0 else nextZ, if role == Some(Toplevel) then nextWindowId else 0);
      if TakesFocus(role.value) { keyboardFocus := Some(free.value); }
      MadeIs(v, made, Now(), free.value, slot, if role == Some(Toplevel) then nextWindowId else 0);
      r := Ok(token.value);
    }

    /** The last part, once nothing can be refused any more. */
    method Build(client: nat, role: Role, i: nat, parent: Option<nat>, slot: Option<nat>, handle: nat, windowToken: nat,
                 process: nat)
      requires Valid() && i < |surfaces| && !surfaces[i].live && handle !in issued
      requires if role == Popup then parent.Some? && exists k: nat :: Owned(surfaces, client, parent.value, k) else parent.None?
      requires if role == Toplevel then slot.Some? && slot.value < |windows| && !windows[slot.value].live else slot.None?
      modifies this`surfaces, this`windows, this`nextWindowId, this`issued, this`births
      ensures Valid() && issued.Keys == old(issued).Keys + {handle}
      ensures nextWindowId == old(nextWindowId) + if role == Toplevel then 1 else 0
      ensures Created(old(surfaces), surfaces, i, client, handle, role, parent, process, if role == Background then 0 else nextZ,
                      if role == Toplevel then nextWindowId else 0)
      ensures role != Toplevel ==> windows == old(windows)
      ensures role == Toplevel ==> Opened(old(windows), windows, slot.value, nextWindowId, windowToken, handle)
    {
      hide Sound, Issued, Opened;
      var id := if role == Toplevel then nextWindowId + 1 else 0;
      var z := if role == Background then 0 else nextZ;
      var n := Surface(true, client, handle, handle, role, surfaces[i].underProtection, parent, id, false, true, z, process);
      NewcomerFits(surfaces, windows, issued, nextWindowId, n);
      hide Newcomer;
      if slot.Some? { nextWindowId := id; }
      Place(i, n, slot, windowToken);
    }

    /** Write the new surface, and its window when it has one; the window id was already counted. */
    method Place(i: nat, n: Surface, slot: Option<nat>, windowToken: nat)
      requires Issued(issued, births) && i < |surfaces| && !surfaces[i].live && Newcomer(surfaces, n, issued)
      requires FocusLive(surfaces, pointerFocus) && FocusLive(surfaces, keyboardFocus)
      requires |surfaces| == MAX_SURFACES && |windows| == MAX_WINDOWS && |sessions| <= MAX_MODAL_SESSIONS
      requires n.z <= nextZ && (!wrapped ==> UnderCounter(surfaces, nextZ))
      requires if slot.Some?
               then nextWindowId > 0 && Sound(surfaces, windows, issued, nextWindowId - 1)
                    && n.window == nextWindowId && n.role == Toplevel && !n.isDecoration && n.parent.None?
                    && slot.value < |windows| && !windows[slot.value].live
               else Sound(surfaces, windows, issued, nextWindowId) && (n.isDecoration || n.window == 0)
      modifies this`surfaces, this`windows, this`issued, this`births
      ensures Valid() && surfaces == old(surfaces)[i := n] && issued.Keys == old(issued).Keys + {n.handle}
      ensures slot.None? ==> windows == old(windows)
      ensures slot.Some? ==> Opened(old(windows), windows, slot.value, nextWindowId, windowToken, n.handle)
    {
      hide Sound, Issued;
      NewcomerLives(surfaces, n, issued);
      hide Newcomer;
      if slot.Some? {
        OpenKeeps(surfaces, windows, issued, births, nextWindowId - 1, i, n, slot.value, windowToken);
        windows := windows[slot.value := Window(true, nextWindowId, windowToken, n.handle, None, 0, Normal)];
      } else {
        AddKeeps(surfaces, windows, issued, births, nextWindowId, i, n);
      }
      issued, births := issued[n.handle := births], births + 1;
      surfaces := surfaces[i := n];
    }

    /** A decorator creates a decoration surface for an open window; it is not attached yet. */
    method CreateDecoration(client: nat, capable: bool, windowToken: nat, width: u32, height: u32,
                            token: Result<nat, Status>)
      returns (r: Result<nat, Status>)
      requires Valid() && (token.Ok? ==> token.value !in issued)
      modifies this`surfaces, this`windows, this`nextZ, this`wrapped, this`issued, this`births
      ensures Valid()
      ensures issued.Keys == old(issued).Keys + (if r.Ok? then {r.value} else {})
      ensures r.Ok? ==> token == Ok(r.value)
      ensures Handled(old(Now()), MakeDecoration(client, capable, windowToken, width, height, token), Now())
    {
      hide Sound, Newcomer, Issued, Names, UnderCounter;
      if !capable { return Err(AccessDenied); }
      if !Sized(width, height) { return Err(BadRequest); }
      var a := FindWindowByToken(windowToken);
      if a.None? { return Err(AccessDenied); }
      var content := FindByHandle(windows[a.value].content);
      ContentFound(surfaces, windows, issued, nextWindowId, a.value, content);
      if content.None? { return Err(AccessDenied); }
      var free := FreeSlot();
      if free.None? { return Err(CapacityExceeded); }
      if token.Err? { return Err(token.error); }
      TakeZ();
      var handle, i := token.value, free.value;
      var n := Surface(true, client, handle, handle, Popup, surfaces[i].underProtection, None, windows[a.value].id, true,
                       true, nextZ, 0);
      NewcomerFits(surfaces, windows, issued, nextWindowId, n);
      Place(i, n, None, 0);
      assert DecorationFor(old(Now()), Now(), windowToken, client, handle, a.value, i);
      r := Ok(handle);
    }

    /** Attach a decoration surface of the client to the window it was made for. */
    method AttachDecoration(client: nat, capable: bool, windowToken: nat, decoration: nat, insetsFit: bool)
      returns (error: Option<Status>)
      requires Valid()
      modifies this`windows
      ensures Valid()
      ensures Handled(old(Now()), Attach(client, capable, windowToken, decoration, insetsFit), Now())
    {
      hide Sound, UnderCounter;
      if !capable { return Some(AccessDenied); }
      if !insetsFit { return Some(BadRequest); }
      var a := FindWindowByToken(windowToken);
      if a.None? { return Some(AccessDenied); }
      var d := FindOwned(client, decoration);
      if d.Some? { OneOwner(surfaces, windows, issued, nextWindowId, client, decoration, d.value); }
      if d.None? || !surfaces[d.value].isDecoration || surfaces[d.value].window != windows[a.value].id {
        return Some(AccessDenied);
      }
      var w' := windows[a.value := windows[a.value].(decoration := Some(decoration), decorator := client)];
      assert DecorationAt(surfaces, d.value, w'[a.value]);
      RestyleKeeps(surfaces, windows, issued, nextWindowId, surfaces, w');
      windows := w';
      assert Attachable(old(Now()), client, windowToken, decoration, a.value, d.value);
      error := None;
    }

    method DetachDecoration(client: nat, capable: bool, windowToken: nat) returns (error: Option<Status>)
      requires Valid()
      modifies this`windows
      ensures Valid() && Handled(old(Now()), Detach(client, capable, windowToken), Now())
    {
      hide Sound, UnderCounter;
      if !capable { return Some(AccessDenied); }
      var a := FindWindowByToken(windowToken);
      if a.None? || windows[a.value].decorator != client { return Some(AccessDenied); }
      var w' := windows[a.value := windows[a.value].(decoration := None, decorator := 0)];
      RestyleKeeps(surfaces, windows, issued, nextWindowId, surfaces, w');
      windows := w';
      assert Decorated(old(windows), client, windowToken, a.value);
      error := None;
    }

    /** Show or hide the surfaces of a window. */
    method SetVisible(a: nat, visible: bool)
      requires Valid() && OpenAt(windows, a)
      modifies this`surfaces
      ensures Valid() && Shows(old(surfaces), surfaces, windows[a], visible)
    {
      hide Sound, UnderCounter, Found, Shows, WithVisible, FocusLive;
      var content := FindByHandle(windows[a].content);
      var decoration: Option<nat> := None;
      if windows[a].decoration.Some? { decoration := FindByHandle(windows[a].decoration.value); }
      ShowsBy(surfaces, windows, issued, nextWindowId, nextZ, a, content, decoration, visible, pointerFocus, keyboardFocus);
      surfaces := WithVisible(WithVisible(surfaces, content, visible), decoration, visible);
    }

    /** Minimize, or toggle between maximized and normal. */
    method Arrange(client: nat, capable: bool, windowToken: nat, minimize: bool) returns (error: Option<Status>)
      requires Valid()
      modifies this`windows, this`surfaces
      ensures Valid() && Handled(old(Now()), Rearrange(client, capable, windowToken, minimize), Now())
    {
      hide Sound, Shows, UnderCounter;
      if !capable { return Some(AccessDenied); }
      var a := FindWindowByToken(windowToken);
      if a.None? || windows[a.value].decorator != client { return Some(AccessDenied); }
      var next := if minimize then Minimized
                  else if windows[a.value].arrangement == Maximized then Normal else Maximized;
      var w' := windows[a.value := windows[a.value].(arrangement := next)];
      RestyleKeeps(surfaces, windows, issued, nextWindowId, surfaces, w');
      windows := w';
      SetVisible(a.value, next != Minimized);
      assert Decorated(old(windows), client, windowToken, a.value);
      error := None;
    }

    /** Put the surfaces of a window on top, the decoration above the content. */
    method Raise(id: nat)
      requires Valid()
      modifies this`surfaces, this`nextZ, this`wrapped
      ensures Valid() && (old(wrapped) ==> wrapped) && RaisesWindow(old(Now()), id, Now())
      ensures forall i: nat :: Live(surfaces, i) <==> Live(old(surfaces), i)
      ensures !wrapped ==> forall a: nat :: OpenAt(windows, a) && windows[a].id == id ==> OnTop(surfaces, windows[a])
    {
      hide Sound, Raised, OnTop;
      var a := FindWindow(id);
      if a.None? { return; }
      WindowLookup(surfaces, windows, issued, nextWindowId, a.value);
      ghost var s, z := surfaces, nextZ;
      wrapped := wrapped || NextRaise(nextZ) < nextZ;
      nextZ := NextRaise(nextZ);
      Restack(a.value);
      RaisedLives(s, surfaces, windows[a.value], nextZ);
      if !wrapped { RaisedOnTop(s, surfaces, windows[a.value], z); }
    }

    method Restack(a: nat)
      requires Valid() && OpenAt(windows, a) && nextZ >= 2
      modifies this`surfaces
      ensures Valid() && Raised(old(surfaces), surfaces, windows[a], nextZ)
    {
      hide Sound, UnderCounter, Found, Raised, WithZ, FocusLive;
      var content := FindByHandle(windows[a].content);
      var decoration: Option<nat> := None;
      if windows[a].decoration.Some? { decoration := FindByHandle(windows[a].decoration.value); }
      RaisedBy(surfaces, windows, issued, nextWindowId, nextZ, a, content, decoration, pointerFocus, keyboardFocus);
      surfaces := WithZ(WithZ(surfaces, content, nextZ - 1), decoration, nextZ);
    }

    /** Show a window in normal arrangement, on top of its layer. */
    method BringUp(a: nat)
      requires Valid() && OpenAt(windows, a)
      modifies this`surfaces, this`windows, this`nextZ, this`wrapped
      ensures Valid() && InFront(old(Now()), a, Now())
      ensures !wrapped ==> OnTop(surfaces, windows[a])
      ensures forall i: nat :: Live(surfaces, i) <==> Live(old(surfaces), i)
    {
      hide Sound, Shows, UnderCounter, OnTop;
      WindowLookup(surfaces, windows, issued, nextWindowId, a);
      var w' := windows[a := windows[a].(arrangement := Normal)];
      RestyleKeeps(surfaces, windows, issued, nextWindowId, surfaces, w');
      windows := w';
      SetVisible(a, true);
      ShowsKeeps(old(surfaces), surfaces, windows[a], true);
      ghost var shown := surfaces;
      var id := windows[a].id;
      WindowLookup(surfaces, windows, issued, nextWindowId, a);
      FirstWindow(windows, id, a);
      Raise(id);
      assert FrontVia(old(surfaces), shown, surfaces, windows[a], nextZ);
    }

    /** A client brings its own window to the front and takes the keyboard, unless a modal process stands before it. */
    method Activate(client: nat, process: nat, handle: nat) returns (error: Option<Status>)
      requires Valid()
      modifies this`surfaces, this`windows, this`nextZ, this`wrapped, this`keyboardFocus
      ensures Valid() && Handled(old(Now()), BringToFront(client, process, handle), Now())
    {
      hide Sound, UnderCounter, InFront;
      var modal := BlockedBy(process);
      if modal.Some? {
        var _ := ActivateProcess(modal.value);
        return None;
      }
      var i := FindOwned(client, handle);
      if i.Some? { OneOwner(surfaces, windows, issued, nextWindowId, client, handle, i.value); }
      if i.None? { return Some(AccessDenied); }
      if surfaces[i.value].role != Toplevel { return Some(BadRequest); }
      var a := FindWindow(surfaces[i.value].window);
      if a.None? { return Some(BadRequest); }
      WindowLookup(surfaces, windows, issued, nextWindowId, a.value);
      BringUp(a.value);
      ghost var v := Now();
      keyboardFocus := Some(i.value);
      assert Now().(keyboard := v.keyboard) == v;
      assert CanFront(old(Now()), client, handle, i.value) && TakesFront(old(Now()), i.value, Now());
      error := None;
    }

    /** The modal process that stands before a process. */
    method BlockedBy(process: nat) returns (r: Option<nat>)
      ensures r == Blocking(sessions, process)
    {
      var n := |sessions|;
      assert sessions[..n] == sessions;
      while n > 0
        invariant 0 <= n <= |sessions| && Blocking(sessions, process) == Blocking(sessions[..n], process)
      {
        assert sessions[..n][..n - 1] == sessions[..n - 1];
        if sessions[n - 1].owner == process { return Some(sessions[n - 1].modal); }
        n := n - 1;
      }
      r := None;
    }

    /** The process a surface stands for: its own, or for a decoration that of the window's content. */
    method ProcessOf(i: nat) returns (r: Option<nat>)
      requires Valid()
      ensures r == StandsFor(surfaces, windows, i)
    {
      hide Sound;
      if i >= |surfaces| || !surfaces[i].live { return None; }
      var process := surfaces[i].process;
      if surfaces[i].isDecoration {
        var a := FindWindow(surfaces[i].window);
        if a.None? { return None; }
        WindowLookup(surfaces, windows, issued, nextWindowId, a.value);
        var content := FindByHandle(windows[a.value].content);
        if content.None? { return None; }
        process := surfaces[content.value].process;
      }
      r := if process == 0 then None else Some(process);
    }

    /** Bring the frontmost window of a process up and give it the keyboard. */
    method ActivateProcess(process: nat) returns (ok: bool)
      requires Valid()
      modifies this`surfaces, this`windows, this`nextZ, this`wrapped, this`keyboardFocus
      ensures Valid() && ActivatesProcess(old(Now()), process, Now())
      ensures ok ==> exists front: nat :: IsFrontmost(old(surfaces), Some(process), Some(front))
                                          && TakesFront(old(Now()), front, Now())
      ensures !ok ==> IsFrontmost(old(surfaces), Some(process), None) && Now() == old(Now())
    {
      hide Sound, UnderCounter, InFront;
      var i := Frontmost(Some(process));
      if i.None? { return false; }
      var a := FindWindow(surfaces[i.value].window);
      if a.Some? {
        WindowLookup(surfaces, windows, issued, nextWindowId, a.value);
        BringUp(a.value);
      }
      ghost var v := Now();
      keyboardFocus := i;
      assert Now().(keyboard := v.keyboard) == v;
      assert TakesFront(old(Now()), i.value, Now());
      ok := true;
    }

    /** Destroy a surface of the client: afterwards nothing live has its handle or names it as parent. */
    method Destroy(client: nat, handle: nat) returns (error: Option<Status>)
      requires Valid()
      modifies this`surfaces, this`windows, this`pointerFocus, this`keyboardFocus
      ensures Valid() && Handled(old(Now()), Remove(client, handle), Now())
      ensures error.None? ==> forall j: nat :: Live(surfaces, j) ==>
        surfaces[j].handle != handle && surfaces[j].parent != Some(handle)
    {
      hide Sound, Destroyed, UnderCounter, Restored;
      var i := FindOwned(client, handle);
      if i.None? { return Some(AccessDenied); }
      ghost var s, w := surfaces, windows;
      DestroyTree(i.value);
      HandleIsGone(s, w, issued, nextWindowId, i.value, surfaces, windows);
      RestoreFocus();
      error := None;
    }

    /** Remove everything a client owns, the decorations of its windows and its decorations of other windows. */
    method CleanupClient(client: nat)
      requires Valid()
      modifies this`surfaces, this`windows, this`pointerFocus, this`keyboardFocus
      ensures Valid() && Handled(old(Now()), Leave(client), Now())
    {
      hide Sound, UnderCounter, Restored, LosingContents, LosingDecorations, Departed;
      if client == 0 { return; }
      ghost var s0, w0 := surfaces, windows;
      DestroyOwned(client, false);
      ghost var s1, w1 := surfaces, windows;
      DestroyOwned(client, true);
      ClearedTwice(old(pointerFocus), s1, surfaces);
      ClearedTwice(old(keyboardFocus), s1, surfaces);
      RestoreFocus();
      var w' := windows;
      for a := 0 to |windows|
        invariant |w'| == |windows|
        invariant forall k: nat :: k < |windows| ==>
          w'[k] == if k < a && windows[k].live && windows[k].decorator == client
                   then windows[k].(decorator := 0) else windows[k]
      {
        if windows[a].live && windows[a].decorator == client { w' := w'[a := w'[a].(decorator := 0)]; }
      }
      RestyleKeeps(surfaces, windows, issued, nextWindowId, surfaces, w');
      PassesDepart(s0, w0, client, s1, w1, surfaces, windows, w', issued, nextWindowId);
      windows := w';
    }

    /** Destroy the client's surfaces of one kind until none is left; decorations come last. */
    method DestroyOwned(client: nat, decorations: bool)
      requires Valid()
      requires decorations ==> forall i: nat :: Live(surfaces, i) ==> surfaces[i].owner != client || surfaces[i].isDecoration
      modifies this`surfaces, this`windows, this`pointerFocus, this`keyboardFocus
      ensures Valid() && |surfaces| == |old(surfaces)|
      ensures forall i: nat :: Live(surfaces, i) ==> surfaces[i] == old(surfaces)[i]
      ensures forall i: nat :: Live(surfaces, i) ==> surfaces[i].owner != client || surfaces[i].isDecoration != decorations
      ensures if decorations then LosingDecorations(old(surfaces), old(windows), client, surfaces, windows)
              else LosingContents(old(surfaces), old(windows), client, surfaces, windows)
      ensures pointerFocus == ClearedFocus(old(pointerFocus), surfaces)
      ensures keyboardFocus == ClearedFocus(old(keyboardFocus), surfaces)
    {
      hide Sound, Destroyed, UnderCounter, LosingContents, LosingDecorations;
      ghost var s0, w0 := surfaces, windows;
      ContentsStart(s0, w0, client);
      DecorationsStart(s0, w0, client);
      var next := FindOwnedKind(client, decorations);
      while next.Some?
        invariant Valid() && |surfaces| == |s0|
        invariant next.Some? ==> Live(surfaces, next.value) && surfaces[next.value].owner == client
                                 && surfaces[next.value].isDecoration == decorations
        invariant next.None? ==> forall i: nat :: Live(surfaces, i) ==>
          surfaces[i].owner != client || surfaces[i].isDecoration != decorations
        invariant forall i: nat :: Live(surfaces, i) ==> surfaces[i] == s0[i]
        invariant if decorations then LosingDecorations(s0, w0, client, surfaces, windows)
                  else LosingContents(s0, w0, client, surfaces, windows)
        invariant pointerFocus == ClearedFocus(old(pointerFocus), surfaces)
        invariant keyboardFocus == ClearedFocus(old(keyboardFocus), surfaces)
        decreases LiveSet(surfaces)
      {
        ghost var s, w := surfaces, windows;
        DestroyTree(next.value);
        OwnerFalls(s, w, issued, nextWindowId, next.value, surfaces, windows);
        if decorations {
          DecorationStep(s0, w0, client, s, w, issued, nextWindowId, next.value, surfaces, windows);
        } else {
          ContentStep(s0, w0, client, s, w, issued, nextWindowId, next.value, surfaces, windows);
        }
        next := FindOwnedKind(client, decorations);
      }
    }

    method FindOwnedKind(client: nat, decorations: bool) returns (r: Option<nat>)
      ensures r.Some? ==> Live(surfaces, r.value) && surfaces[r.value].owner == client
                          && surfaces[r.value].isDecoration == decorations
      ensures r.None? ==> forall i: nat :: Live(surfaces, i) ==>
        surfaces[i].owner != client || surfaces[i].isDecoration != decorations
    {
      for i := 0 to |surfaces|
        invariant forall k: nat :: k < i && Live(surfaces, k) ==>
          surfaces[k].owner != client || surfaces[k].isDecoration != decorations
      {
        if surfaces[i].live && surfaces[i].owner == client && surfaces[i].isDecoration == decorations { return Some(i); }
      }
      r := None;
    }

    /** The pointer focus follows the topmost surface under it, unless a modal process stands before that one. */
    method PointerMoved(accepts: nat -> bool)
      requires Valid()
      modifies this`pointerFocus
      ensures Valid() && Handled(old(Now()), MovePointer(accepts), Now())
    {
      hide Sound, UnderCounter;
      var hit := HitTest(surfaces, accepts);
      var modal := BlockerOf(hit);
      pointerFocus := if modal.None? then hit else None;
      assert IsHit(surfaces, accepts, hit);
    }

    /** The modal process that stands before a surface, if any. */
    method BlockerOf(i: Option<nat>) returns (modal: Option<nat>)
      requires Valid()
      ensures modal == Blocker(Now(), i)
    {
      hide Sound, UnderCounter, StandsFor, Blocking;
      if i.None? { return None; }
      var process := ProcessOf(i.value);
      if process.None? { return None; }
      modal := BlockedBy(process.value);
    }

    /**
    A press moves the keyboard to what was hit: a decoration stands for its window, shell panels change nothing, and
    a window behind a modal process gives way to that process. An open menu may take the press for itself.
    */
    method PointerPressed(accepts: nat -> bool, captured: bool)
      requires Valid()
      modifies this`keyboardFocus, this`surfaces, this`nextZ, this`wrapped
      ensures Valid() && Handled(old(Now()), Press(accepts, captured), Now())
    {
      hide Sound, Raised, UnderCounter, StandsFor, Blocking, OnTop, IsHit, RaisesWindow;
      var hit := HitTest(surfaces, accepts);
      HitIs(surfaces, accepts, hit);
      var modal := BlockerOf(hit);
      if modal.Some? {
        var front := Frontmost(modal);
        if front.Some? {
          Raise(surfaces[front.value].window);
          keyboardFocus := front;
        }
        return;
      }
      if captured { return; }
      var focus := Target(hit);
      if hit.Some? { Raise(surfaces[hit.value].window); }
      keyboardFocus := focus;
    }

    /**
    Where the keyboard goes when a surface is pressed: a panel leaves it, the background clears it, a decoration gives
    it to the content of its window, and any other surface takes it.
    */
    method Target(hit: Option<nat>) returns (focus: Option<nat>)
      requires Valid() && FocusLive(surfaces, hit)
      ensures focus == FocusTarget(Now(), hit) && FocusLive(surfaces, focus)
      ensures hit.None? ==> focus.None?
      ensures hit.Some? && !surfaces[hit.value].isDecoration ==>
        && (surfaces[hit.value].role == Panel ==> focus == keyboardFocus)
        && (surfaces[hit.value].role == Background ==> focus.None?)
        && (surfaces[hit.value].role !in {Panel, Background} ==> focus == hit)
      ensures hit.Some? && surfaces[hit.value].isDecoration ==>
        && (forall a: nat :: OpenAt(windows, a) && windows[a].id == surfaces[hit.value].window ==>
              focus.Some? && ContentAt(surfaces, focus.value, windows[a]))
        && ((forall a: nat :: OpenAt(windows, a) ==> windows[a].id != surfaces[hit.value].window) ==> focus.None?)
    {
      hide Sound, UnderCounter;
      if hit.None? { return None; }
      var target := surfaces[hit.value];
      if target.isDecoration {
        var a := FindWindow(target.window);
        if a.None? { return None; }
        focus := FindByHandle(windows[a.value].content);
        ContentIsFound(surfaces, windows, issued, nextWindowId, a.value, focus);
        return;
      }
      match target.role
      case Panel => focus := keyboardFocus;
      case Background => focus := None;
      case _ => focus := hit;
    }

    /** A key goes to the window with the keyboard, or to the modal process that stands before it. */
    method KeyPressed(captured: bool)
      requires Valid()
      modifies this`keyboardFocus
      ensures Valid() && Handled(old(Now()), Type(captured), Now())
    {
      hide Sound, UnderCounter, StandsFor, Blocking;
      if captured || keyboardFocus.None? { return; }
      var modal := BlockerOf(keyboardFocus);
      if modal.None? { return; }
      var front := Frontmost(modal);
      if front.Some? { keyboardFocus := front; }
    }

    /** Live surfaces under a protected presentation go to the layer of system modals, all others back to their own. */
    method RefreshProtection(protects: nat -> bool)
      requires Valid()
      modifies this`surfaces
      ensures Valid() && Handled(old(Now()), Refresh(protects), Now())
    {
      hide Sound, UnderCounter;
      var s' := surfaces;
      for i := 0 to |surfaces|
        invariant |s'| == |surfaces|
        invariant forall k: nat :: k < |surfaces| ==>
          s'[k] == if k < i then surfaces[k].(underProtection := surfaces[k].live && protects(k)) else surfaces[k]
      {
        s' := s'[i := s'[i].(underProtection := s'[i].live && protects(i))];
      }
      RestyleKeeps(surfaces, windows, issued, nextWindowId, s', windows);
      SameZ(surfaces, s', nextZ);
      surfaces := s';
    }

    /** When a menu is done, the keyboard goes to the first surface of the client that asked for it. */
    method MenuCompleted(accepted: bool, client: nat, listens: nat -> bool)
      requires Valid()
      modifies this`keyboardFocus
      ensures Valid() && Handled(old(Now()), EndMenu(accepted, client, listens), Now())
    {
      hide Sound, UnderCounter;
      if !accepted { return; }
      var found: Option<nat> := None;
      var n := 0;
      while n < |surfaces| && found.None?
        invariant n <= |surfaces|
        invariant found.None? ==> forall k: nat :: k < n ==> !Listening(surfaces, client, listens, k)
        invariant found.Some? ==> FirstListening(surfaces, client, listens, found.value)
        decreases |surfaces| - n, if found.None? then 1 else 0
      {
        if Listening(surfaces, client, listens, n) { found := Some(n); } else { n := n + 1; }
      }
      keyboardFocus := found;
    }

    /** Replace the owner's session, or add one. */
    method Join(owner: nat, modal: nat) returns (ok: bool)
      requires Valid()
      modifies this`sessions
      ensures Valid() && (ok <==> Admits(old(sessions), owner))
      ensures sessions == if ok then Joined(old(sessions), owner, modal) else old(sessions)
    {
      hide Sound, UnderCounter;
      var n := 0;
      while n < |sessions| && sessions[n].owner != owner
        invariant n <= |sessions| && SessionIndex(sessions, owner, 0) == SessionIndex(sessions, owner, n)
      {
        n := n + 1;
      }
      ok := true;
      if n < |sessions| {
        sessions := sessions[n := Session(owner, modal)];
      } else if |sessions| < MAX_MODAL_SESSIONS {
        sessions := sessions + [Session(owner, modal)];
      } else {
        ok := false;
      }
    }

    /** A pointer on a window of the process leaves it. */
    method Withdraw(owner: nat)
      requires Valid()
      modifies this`pointerFocus, this`keyboardFocus
      ensures Valid() && Now() == Withdrawn(old(Now()), owner)
    {
      hide Sound, UnderCounter, StandsFor;
      if pointerFocus.Some? {
        var process := ProcessOf(pointerFocus.value);
        if process == Some(owner) { ClearFocus(pointerFocus.value); }
      }
    }

    /** A window of the process loses the keyboard. */
    method DropKeyboard(owner: nat)
      requires Valid()
      modifies this`keyboardFocus
      ensures Valid() && Now() == WithoutKeyboard(old(Now()), owner)
    {
      hide Sound, UnderCounter, StandsFor;
      if keyboardFocus.Some? {
        var process := ProcessOf(keyboardFocus.value);
        if process == Some(owner) { keyboardFocus := None; }
      }
    }

    /** A modal process takes the pointer and the keyboard away from its owner process. */
    method BeginProcessModal(allowed: bool, owner: nat, modal: nat) returns (error: Option<Status>)
      requires Valid()
      modifies this`surfaces, this`windows, this`nextZ, this`wrapped, this`pointerFocus, this`keyboardFocus, this`sessions
      ensures Valid() && Handled(old(Now()), BeginModal(allowed, owner, modal), Now())
    {
      hide Sound, UnderCounter, StandsFor, TakesFront, Admits, Joined, IsFrontmost, WithoutKeyboard;
      if !allowed { return Some(AccessDenied); }
      if owner == 0 || modal == 0 || owner == modal { return Some(BadRequest); }
      var ok := Join(owner, modal);
      if !ok { return Some(CapacityExceeded); }
      Withdraw(owner);
      ghost var v := Now();
      assert v == Withdrawn(old(Now()), owner).(sessions := Joined(old(sessions), owner, modal));
      var found := ActivateProcess(modal);
      if !found {
        DropKeyboard(owner);
      }
      error := None;
    }

    /** The owner process gets its window and the keyboard back. */
    method EndProcessModal(allowed: bool, owner: nat, modal: nat) returns (error: Option<Status>)
      requires Valid()
      modifies this`surfaces, this`windows, this`nextZ, this`wrapped, this`keyboardFocus, this`sessions
      ensures Valid() && Handled(old(Now()), EndModal(allowed, owner, modal), Now())
    {
      hide Sound, UnderCounter, ActivatesProcess;
      if !allowed { return Some(AccessDenied); }
      if owner == 0 || modal == 0 || owner == modal { return Some(BadRequest); }
      var n := 0;
      while n < |sessions| && sessions[n] != Session(owner, modal)
        invariant n <= |sessions| && ExactIndex(sessions, owner, modal, 0) == ExactIndex(sessions, owner, modal, n)
      {
        n := n + 1;
      }
      if n == |sessions| { return Some(BadRequest); }
      sessions := sessions[..n] + sessions[n + 1..];
      var _ := ActivateProcess(owner);
      error := None;
    }

    /** Dispatch one request; at most its own token is issued. */
    method Handle(r: Request)
      requires Valid() && (TokenOf(r).Some? ==> TokenOf(r).value !in issued)
      modifies this
      ensures Valid() && Handled(old(Now()), r, Now())
      ensures issued.Keys <= old(issued).Keys + (if TokenOf(r).Some? then {TokenOf(r).value} else {})
    {
      hide Desk.Valid, Handled;
      match r
      case MakeSurface(client, role, secure, compat, width, height, parent, anchorInside, token, windowToken, process) =>
        var _ := Create(client, role, secure, compat, width, height, parent, anchorInside, token, windowToken, process);
      case MakeDecoration(client, capable, window, width, height, token) =>
        var _ := CreateDecoration(client, capable, window, width, height, token);
      case Attach(client, capable, window, decoration, insetsFit) =>
        var _ := AttachDecoration(client, capable, window, decoration, insetsFit);
      case Detach(client, capable, window) =>
        var _ := DetachDecoration(client, capable, window);
      case Rearrange(client, capable, window, minimize) =>
        var _ := Arrange(client, capable, window, minimize);
      case BringToFront(client, process, handle) =>
        var _ := Activate(client, process, handle);
      case Remove(client, handle) =>
        var _ := Destroy(client, handle);
      case Leave(client) => CleanupClient(client);
      case MovePointer(accepts) => PointerMoved(accepts);
      case Press(accepts, captured) => PointerPressed(accepts, captured);
      case Type(captured) => KeyPressed(captured);
      case Refresh(protects) => RefreshProtection(protects);
      case EndMenu(accepted, client, listens) => MenuCompleted(accepted, client, listens);
      case BeginModal(allowed, owner, modal) =>
        var _ := BeginProcessModal(allowed, owner, modal);
      case EndModal(allowed, owner, modal) =>
        var _ := EndProcessModal(allowed, owner, modal);
    }
  }

  datatype Request =
    | MakeSurface(client: nat, role: Option<Role>, secure: bool, compat: bool, width: u32, height: u32, parent: Option<nat>,
                  anchorInside: bool, token: Result<nat, Status>, windowToken: Result<nat, Status>, process: nat)
    | MakeDecoration(client: nat, capable: bool, window: nat, width: u32, height: u32, token: Result<nat, Status>)
    | Attach(client: nat, capable: bool, window: nat, decoration: nat, insetsFit: bool)
    | Detach(client: nat, capable: bool, window: nat)
    | Rearrange(client: nat, capable: bool, window: nat, minimize: bool)
    | BringToFront(client: nat, process: nat, handle: nat)
    | Remove(client: nat, handle: nat)
    | Leave(client: nat)
    | MovePointer(accepts: nat -> bool)
    | Press(accepts: nat -> bool, captured: bool)
    | Type(captured: bool)
    | Refresh(protects: nat -> bool)
    | EndMenu(accepted: bool, client: nat, listens: nat -> bool)
    | BeginModal(allowed: bool, owner: nat, modal: nat)
    | EndModal(allowed: bool, owner: nat, modal: nat)

  /** What requests and input change. */
  datatype View = View(surfaces: Surfaces, windows: Windows, pointer: Option<nat>, keyboard: Option<nat>, nextZ: u32,
                       sessions: seq<Session>)

  /** While it lasts, the windows of `owner` give way to those of `modal`. */
  datatype Session = Session(owner: nat, modal: nat)

  function Nothing(): View {
    View(seq(MAX_SURFACES, _ => Surface(false, 0, 0, 0, Toplevel, false, None, 0, false, true, 0, 0)),
         seq(MAX_WINDOWS, _ => EMPTY_WINDOW), None, None, 0, [])
  }

  // What each request does to the view, and when it is refused.

  ghost predicate Handled(v: View, r: Request, v': View) {
    match r
    case MakeSurface(_, _, _, _, _, _, _, _, _, _, _) =>
      if Creatable(v, r) then CreatedBy(v, r, v') else v' == v.(nextZ := v'.nextZ)
    case MakeDecoration(client, capable, window, width, height, token) =>
      if capable && Sized(width, height) && token.Ok? && HasFree(v.surfaces) && HasWindow(v.windows, window)
      then DecorationMade(v, window, client, token.value, v') else v' == v
    case Attach(client, capable, window, decoration, insetsFit) =>
      if capable && insetsFit && CanAttach(v, client, window, decoration)
      then Redecorated(v, window, Some(decoration), client, v') else v' == v
    case Detach(client, capable, window) =>
      if capable && IsDecorated(v.windows, client, window) then Redecorated(v, window, None, 0, v') else v' == v
    case Rearrange(client, capable, window, minimize) =>
      if capable && IsDecorated(v.windows, client, window) then Rearranged(v, window, minimize, v') else v' == v
    case BringToFront(client, process, handle) =>
      if Blocking(v.sessions, process).Some? then ActivatesProcess(v, Blocking(v.sessions, process).value, v')
      else BroughtBy(v, client, handle, v')
    case Remove(client, handle) => RemovedBy(v, client, handle, v')
    case Leave(client) =>
      if client != 0 then Departed(v.surfaces, v.windows, client, v'.surfaces, v'.windows) && FocusAfter(v, v') else v' == v
    case MovePointer(accepts) => PointedAt(v, accepts, v')
    case Press(accepts, captured) => PressedBy(v, accepts, captured, v')
    case Type(captured) =>
      if captured || Blocker(v, v.keyboard).None? then v' == v else GivesWay(v, Blocker(v, v.keyboard), v')
    case Refresh(protects) => v' == v.(surfaces := v'.surfaces) && Protected(v.surfaces, v'.surfaces, protects)
    case EndMenu(accepted, client, listens) =>
      if accepted then v' == v.(keyboard := v'.keyboard) && GivenTo(v.surfaces, client, listens, v'.keyboard) else v' == v
    case BeginModal(allowed, owner, modal) =>
      if allowed && Pairs(owner, modal) && Admits(v.sessions, owner)
      then ModalBegun(Withdrawn(v, owner).(sessions := Joined(v.sessions, owner, modal)), owner, modal, v') else v' == v
    case EndModal(allowed, owner, modal) =>
      if allowed && Pairs(owner, modal) && ExactIndex(v.sessions, owner, modal, 0).Some?
      then ActivatesProcess(v.(sessions := Parted(v.sessions, owner, modal)), owner, v') else v' == v
  }

  predicate HasWindow(w: Windows, token: nat) { exists a: nat :: a < |w| && WindowNamed(w, token, a) }

  ghost predicate DecorationMade(v: View, window: nat, client: nat, handle: nat, v': View) {
    exists a: nat, i: nat :: DecorationFor(v, v', window, client, handle, a, i)
  }

  ghost predicate CanAttach(v: View, client: nat, window: nat, decoration: nat) {
    exists a: nat, d: nat :: Attachable(v, client, window, decoration, a, d)
  }

  ghost predicate IsDecorated(w: Windows, client: nat, window: nat) { exists a: nat :: Decorated(w, client, window, a) }

  /** Only the decoration and the decorator of the window of that token changed. */
  ghost predicate Redecorated(v: View, window: nat, decoration: Option<nat>, client: nat, v': View) {
    exists a: nat :: WindowNamed(v.windows, window, a)
      && v' == v.(windows := v.windows[a := v.windows[a].(decoration := decoration, decorator := client)])
  }

  ghost predicate Rearranged(v: View, window: nat, minimize: bool, v': View) {
    exists a: nat :: WindowNamed(v.windows, window, a)
      && v' == v.(windows := v.windows[a := Arranged(v.windows[a], minimize)], surfaces := v'.surfaces)
      && Shows(v.surfaces, v'.surfaces, v'.windows[a], v'.windows[a].arrangement != Minimized)
  }

  ghost predicate BroughtBy(v: View, client: nat, handle: nat, v': View) {
    if exists i: nat :: CanFront(v, client, handle, i)
    then exists i: nat :: CanFront(v, client, handle, i) && TakesFront(v, i, v')
    else v' == v
  }

  ghost predicate RemovedBy(v: View, client: nat, handle: nat, v': View) {
    if exists i: nat :: Owned(v.surfaces, client, handle, i)
    then exists i: nat :: Owned(v.surfaces, client, handle, i)
           && Destroyed(v.surfaces, v.windows, i, v'.surfaces, v'.windows) && FocusAfter(v, v')
    else v' == v
  }

  ghost predicate PointedAt(v: View, accepts: nat -> bool, v': View) {
    exists hit :: IsHit(v.surfaces, accepts, hit) && v' == v.(pointer := if Blocker(v, hit).None? then hit else None)
  }

  ghost predicate PressedBy(v: View, accepts: nat -> bool, captured: bool, v': View) {
    exists hit :: IsHit(v.surfaces, accepts, hit) && PressedAt(v, hit, captured, v')
  }

  /** The keyboard goes to the frontmost window of the modal process, if it has one. */
  ghost predicate GivesWay(v: View, modal: Option<nat>, v': View) {
    exists front :: IsFrontmost(v.surfaces, modal, front)
                    && v' == v.(keyboard := if front.Some? then front else v.keyboard)
  }

  ghost predicate ModalBegun(v: View, owner: nat, modal: nat, v': View) {
    exists front :: IsFrontmost(v.surfaces, Some(modal), front)
      && if front.Some? then TakesFront(v, front.value, v') else v' == WithoutKeyboard(v, owner)
  }

  /** Only the protection of surfaces changed, to what is demanded. */
  predicate Protected(s: Surfaces, s': Surfaces, protects: nat -> bool) {
    && |s'| == |s|
    && forall k: nat :: k < |s| ==> s'[k] == s[k].(underProtection := s[k].live && protects(k))
  }

  predicate Sized(width: u32, height: u32) { 0 < width <= MAX_DIMENSION && 0 < height <= MAX_DIMENSION }

  predicate Owned(s: Surfaces, client: nat, handle: nat, i: nat) { Names(s, i, handle) && s[i].owner == client }

  predicate HasFree(s: Surfaces) { exists i: nat :: i < |s| && !s[i].live }

  predicate HasRoom(w: Windows) { exists a: nat :: a < |w| && !w[a].live }

  /** The first open window with that token. */
  predicate WindowNamed(w: Windows, token: nat, a: nat) {
    OpenAt(w, a) && w[a].token == token && forall k: nat :: k < a && OpenAt(w, k) ==> w[k].token != token
  }

  /** The first open window with that id, from slot `n` on. */
  function WindowIndex(w: Windows, id: nat, n: nat): Option<nat>
    decreases |w| - n
  {
    if n >= |w| then None else if w[n].live && w[n].id == id then Some(n) else WindowIndex(w, id, n + 1)
  }

  /** The first live surface with that handle as its token, from slot `n` on. */
  function SurfaceIndex(s: Surfaces, handle: nat, n: nat): Option<nat>
    decreases |s| - n
  {
    if n >= |s| then None
    else if s[n].live && s[n].handle == handle && s[n].token == handle then Some(n)
    else SurfaceIndex(s, handle, n + 1)
  }

  ghost predicate Admissible(s: Surfaces, client: nat, role: Option<Role>, secure: bool, compat: bool, width: u32,
                             height: u32, parent: Option<nat>, anchorInside: bool)
  {
    && role.Some? && MayCreate(role.value, secure, compat) && Sized(width, height)
    && (role.value == Popup ==>
          && parent.Some? && anchorInside
          && exists k: nat :: Owned(s, client, parent.value, k) && s[k].role in {Toplevel, Popup})
  }

  /** The request is allowed, well formed and there is room for it. */
  ghost predicate Creatable(v: View, r: Request)
    requires r.MakeSurface?
  {
    && Admissible(v.surfaces, r.client, r.role, r.secure, r.compat, r.width, r.height, r.parent, r.anchorInside)
    && HasFree(v.surfaces) && r.token.Ok?
    && (r.role.value == Toplevel ==> HasRoom(v.windows) && r.windowToken.Ok?)
  }

  /** A surface of the client in a free slot, on top, with a window if it is top-level; it may take the keyboard. */
  ghost predicate CreatedBy(v: View, r: Request, v': View)
    requires r.MakeSurface? && Creatable(v, r)
  {
    && v'.pointer == v.pointer && v'.sessions == v.sessions
    && v'.nextZ == (if r.role.value == Background then v.nextZ else NextZ(v.nextZ))
    && exists i: nat, window: nat :: Added(v, r, v', i, window)
  }

  ghost predicate Added(v: View, r: Request, v': View, i: nat, window: nat)
    requires r.MakeSurface? && Creatable(v, r)
  {
    && Created(v.surfaces, v'.surfaces, i, r.client, r.token.value, r.role.value,
               if r.role.value == Popup then r.parent else None, r.process,
               if r.role.value == Background then 0 else v'.nextZ, window)
    && v'.keyboard == (if TakesFocus(r.role.value) then Some(i) else v.keyboard)
    && if r.role.value == Toplevel then OpenedBy(v.windows, v'.windows, window, r.windowToken.value, r.token.value)
       else window == 0 && v'.windows == v.windows
  }

  ghost predicate OpenedBy(w: Windows, w': Windows, id: nat, token: nat, content: nat) {
    exists a: nat :: Opened(w, w', a, id, token, content)
  }

  /** Surface `d` of the client was made as a decoration for the window of that token. */
  predicate Attachable(v: View, client: nat, window: nat, decoration: nat, a: nat, d: nat) {
    && WindowNamed(v.windows, window, a) && Owned(v.surfaces, client, decoration, d)
    && v.surfaces[d].isDecoration && v.surfaces[d].window == v.windows[a].id
  }

  /** The window of that token is decorated by the client. */
  predicate Decorated(w: Windows, client: nat, window: nat, a: nat) {
    WindowNamed(w, window, a) && w[a].decorator == client
  }

  /** The client's top-level surface and its window. */
  predicate CanFront(v: View, client: nat, handle: nat, i: nat) {
    && Owned(v.surfaces, client, handle, i) && v.surfaces[i].role == Toplevel
    && WindowIndex(v.windows, v.surfaces[i].window, 0).Some?
  }

  /** Surface `i` gets the keyboard, and its window, if it has one, is shown in front. */
  ghost predicate TakesFront(v: View, i: nat, v': View) {
    && i < |v.surfaces| && v'.keyboard == Some(i)
    && var a := WindowIndex(v.windows, v.surfaces[i].window, 0);
       if a.Some? then InFront(v, a.value, v'.(keyboard := v.keyboard)) else v' == v.(keyboard := Some(i))
  }

  /** Window `a` is shown in normal arrangement and raised. */
  ghost predicate InFront(v: View, a: nat, v': View) {
    && OpenAt(v.windows, a)
    && v' == v.(surfaces := v'.surfaces, windows := v.windows[a := v.windows[a].(arrangement := Normal)],
                nextZ := NextRaise(v.nextZ))
    && exists shown :: FrontVia(v.surfaces, shown, v'.surfaces, v'.windows[a], v'.nextZ)
  }

  /** The frontmost window of a process comes to the front, if there is one. */
  ghost predicate ActivatesProcess(v: View, process: nat, v': View) {
    exists front :: IsFrontmost(v.surfaces, Some(process), front)
                    && if front.Some? then TakesFront(v, front.value, v') else v' == v
  }

  predicate Candidate(s: Surfaces, process: Option<nat>, i: nat) {
    Focusable(s, i) && (process.Some? ==> s[i].process == process.value)
  }

  ghost predicate IsFrontmost(s: Surfaces, process: Option<nat>, front: Option<nat>) {
    if front.None? then forall i: nat :: !Candidate(s, process, i)
    else
      && Candidate(s, process, front.value)
      && forall i: nat :: Candidate(s, process, i) && i != front.value ==> Below(s, i, front.value)
  }

  /** The keyboard stays where it is; from nowhere it goes to the frontmost window. */
  ghost predicate Restored(s: Surfaces, before: Option<nat>, after: Option<nat>) {
    if before.Some? then after == before else IsFrontmost(s, None, after)
  }

  /** After surfaces were destroyed: the pointer leaves what is gone, the keyboard finds another window. */
  ghost predicate FocusAfter(v: View, v': View) {
    && v'.nextZ == v.nextZ && v'.sessions == v.sessions
    && v'.pointer == ClearedFocus(v.pointer, v'.surfaces)
    && Restored(v'.surfaces, ClearedFocus(v.keyboard, v'.surfaces), v'.keyboard)
  }

  ghost predicate IsHit(s: Surfaces, accepts: nat -> bool, hit: Option<nat>) {
    if hit.None? then forall i: nat :: Shown(s, i) ==> !accepts(i) else Topmost(s, accepts, hit.value)
  }

  lemma HitIs(s: Surfaces, accepts: nat -> bool, hit: Option<nat>)
    requires hit.None? ==> forall i: nat :: Shown(s, i) ==> !accepts(i)
    requires hit.Some? ==> Shown(s, hit.value) && accepts(hit.value)
                           && forall i: nat :: Shown(s, i) && accepts(i) && i != hit.value ==> Below(s, i, hit.value)
    ensures IsHit(s, accepts, hit)
  {
  }

  /** The process a surface stands for: its own, or for a decoration that of the window's content. */
  function StandsFor(s: Surfaces, w: Windows, i: nat): Option<nat> {
    if !Live(s, i) then None
    else if !s[i].isDecoration then Known(s[i].process)
    else
      var a := WindowIndex(w, s[i].window, 0);
      if a.None? || a.value >= |w| then None else
      var c := SurfaceIndex(s, w[a.value].content, 0);
      if c.None? || c.value >= |s| then None else Known(s[c.value].process)
  }

  function Known(process: nat): Option<nat> { if process == 0 then None else Some(process) }

  /** The modal process of the latest session of a process. */
  function Blocking(sessions: seq<Session>, process: nat): Option<nat> {
    if sessions == [] then None else
    var n := |sessions| - 1;
    if sessions[n].owner == process then Some(sessions[n].modal) else Blocking(sessions[..n], process)
  }

  /** The modal process that stands before a surface. */
  function Blocker(v: View, i: Option<nat>): Option<nat> {
    if i.None? then None else
    var process := StandsFor(v.surfaces, v.windows, i.value);
    if process.None? then None else Blocking(v.sessions, process.value)
  }

  /** Where the keyboard goes when a surface is pressed. */
  function FocusTarget(v: View, hit: Option<nat>): Option<nat> {
    if hit.None? || hit.value >= |v.surfaces| then None else
    var target := v.surfaces[hit.value];
    if target.isDecoration then
      var a := WindowIndex(v.windows, target.window, 0);
      if a.None? || a.value >= |v.windows| then None else SurfaceIndex(v.surfaces, v.windows[a.value].content, 0)
    else match target.role
         case Panel => v.keyboard
         case Background => None
         case _ => hit
  }

  /** The surfaces of the window with that id, if there is one, are raised; nothing else changes. */
  ghost predicate RaisesWindow(v: View, id: nat, v': View) {
    var a := WindowIndex(v.windows, id, 0);
    if a.None? || a.value >= |v.windows| then v' == v
    else
      && v' == v.(surfaces := v'.surfaces, nextZ := NextRaise(v.nextZ))
      && Raised(v.surfaces, v'.surfaces, v.windows[a.value], v'.nextZ)
  }

  ghost predicate PressedAt(v: View, hit: Option<nat>, captured: bool, v': View) {
    if Blocker(v, hit).Some? then
      exists front :: IsFrontmost(v.surfaces, Blocker(v, hit), front)
                      && if front.None? then v' == v else RaisesTo(v, front, front, v')
    else if captured then v' == v
    else RaisesTo(v, hit, FocusTarget(v, hit), v')
  }

  /** The window of surface `i`, if there is one, is raised and the keyboard goes to `focus`. */
  ghost predicate RaisesTo(v: View, i: Option<nat>, focus: Option<nat>, v': View) {
    && v'.keyboard == focus
    && if i.None? || i.value >= |v.surfaces| then v'.(keyboard := v.keyboard) == v
       else RaisesWindow(v, v.surfaces[i.value].window, v'.(keyboard := v.keyboard))
  }

  predicate Listening(s: Surfaces, client: nat, listens: nat -> bool, i: nat) {
    Live(s, i) && !s[i].isDecoration && s[i].owner == client && listens(i)
  }

  predicate FirstListening(s: Surfaces, client: nat, listens: nat -> bool, i: nat) {
    Listening(s, client, listens, i) && forall k: nat :: k < i ==> !Listening(s, client, listens, k)
  }

  predicate GivenTo(s: Surfaces, client: nat, listens: nat -> bool, focus: Option<nat>) {
    if focus.None? then forall k: nat :: k < |s| ==> !Listening(s, client, listens, k)
    else FirstListening(s, client, listens, focus.value)
  }

  predicate Pairs(owner: nat, modal: nat) { owner != 0 && modal != 0 && owner != modal }

  function SessionIndex(sessions: seq<Session>, owner: nat, n: nat): Option<nat>
    decreases |sessions| - n
  {
    if n >= |sessions| then None
    else if sessions[n].owner == owner then Some(n) else SessionIndex(sessions, owner, n + 1)
  }

  function ExactIndex(sessions: seq<Session>, owner: nat, modal: nat, n: nat): Option<nat>
    decreases |sessions| - n
  {
    if n >= |sessions| then None
    else if sessions[n] == Session(owner, modal) then Some(n) else ExactIndex(sessions, owner, modal, n + 1)
  }

  /** There is a session of the owner to replace, or room for a new one. */
  predicate Admits(sessions: seq<Session>, owner: nat) {
    SessionIndex(sessions, owner, 0).Some? || |sessions| < MAX_MODAL_SESSIONS
  }

  function Joined(sessions: seq<Session>, owner: nat, modal: nat): seq<Session> {
    var n := SessionIndex(sessions, owner, 0);
    if n.Some? && n.value < |sessions| then sessions[n.value := Session(owner, modal)] else sessions + [Session(owner, modal)]
  }

  function Parted(sessions: seq<Session>, owner: nat, modal: nat): seq<Session> {
    var n := ExactIndex(sessions, owner, modal, 0);
    if n.Some? && n.value < |sessions| then sessions[..n.value] + sessions[n.value + 1..] else sessions
  }

  /** A pointer on a window of the owner leaves it, and takes the keyboard away from that window. */
  function Withdrawn(v: View, owner: nat): View {
    if v.pointer.Some? && StandsFor(v.surfaces, v.windows, v.pointer.value) == Some(owner)
    then v.(pointer := None, keyboard := if v.keyboard == v.pointer then None else v.keyboard)
    else v
  }

  function WithoutKeyboard(v: View, owner: nat): View {
    if v.keyboard.Some? && StandsFor(v.surfaces, v.windows, v.keyboard.value) == Some(owner)
    then v.(keyboard := None) else v
  }

  /** The surface token a request would use. */
  function TokenOf(r: Request): Option<nat> {
    match r
    case MakeSurface(_, _, _, _, _, _, _, _, Ok(token), _, _) => Some(token)
    case MakeDecoration(_, _, _, _, _, Ok(token)) => Some(token)
    case _ => None
  }

  /** Random tokens never repeat. */
  ghost predicate FreshTokens(requests: seq<Request>) {
    forall i, j :: 0 <= i < j < |requests| && TokenOf(requests[i]).Some? ==> TokenOf(requests[i]) != TokenOf(requests[j])
  }

  /** Tokens issued so far come from the first `n` requests. */
  ghost predicate IssuedBy(issued: map<nat, nat>, requests: seq<Request>, n: nat)
    requires n <= |requests|
  {
    forall t :: t in issued ==> exists i :: 0 <= i < n && TokenOf(requests[i]) == Some(t)
  }

  /** Once a modal session has begun, neither the pointer nor the keyboard is on a window of its owner. */
  lemma ModalTakesFocus(v: View, owner: nat, modal: nat, v': View)
    requires Handled(v, BeginModal(true, owner, modal), v') && Pairs(owner, modal) && Admits(v.sessions, owner)
    ensures v'.pointer.Some? ==> StandsFor(v'.surfaces, v'.windows, v'.pointer.value) != Some(owner)
    ensures v'.keyboard.Some? ==> StandsFor(v'.surfaces, v'.windows, v'.keyboard.value) != Some(owner)
    ensures Blocking(v'.sessions, owner).Some?
  {
    hide StandsFor, Handled;
    var v1 := Withdrawn(v, owner).(sessions := Joined(v.sessions, owner, modal));
    JoinedBlocks(v.sessions, owner, modal);
    BegunIs(v, owner, modal, v');
    var front :| IsFrontmost(v1.surfaces, Some(modal), front)
                 && if front.Some? then TakesFront(v1, front.value, v') else v' == WithoutKeyboard(v1, owner);
    if front.Some? {
      FrontKeepsProcesses(v1, front.value, v');
      FrontStandsFor(v1, modal, front.value);
    }
  }

  lemma BegunIs(v: View, owner: nat, modal: nat, v': View)
    requires Handled(v, BeginModal(true, owner, modal), v') && Pairs(owner, modal) && Admits(v.sessions, owner)
    ensures ModalBegun(Withdrawn(v, owner).(sessions := Joined(v.sessions, owner, modal)), owner, modal, v')
  {
  }

  lemma FrontStandsFor(v: View, modal: nat, i: nat)
    requires Candidate(v.surfaces, Some(modal), i) && modal != 0
    ensures StandsFor(v.surfaces, v.windows, i) == Some(modal)
  {
  }

  /** Bringing a window to the front changes nothing about who stands for which process. */
  lemma FrontKeepsProcesses(v: View, i: nat, v': View)
    requires TakesFront(v, i, v')
    ensures forall k: nat :: StandsFor(v'.surfaces, v'.windows, k) == StandsFor(v.surfaces, v.windows, k)
    ensures v'.pointer == v.pointer && v'.sessions == v.sessions
  {
    hide StandsFor;
    var a := WindowIndex(v.windows, v.surfaces[i].window, 0);
    if a.Some? {
      var shown :| FrontVia(v.surfaces, shown, v'.surfaces, v'.windows[a.value], v'.nextZ);
      FrontRestyles(v.surfaces, shown, v'.surfaces, v'.windows[a.value], v'.nextZ);
    }
    forall k: nat ensures StandsFor(v'.surfaces, v'.windows, k) == StandsFor(v.surfaces, v.windows, k) {
      StandsSame(v.surfaces, v.windows, v'.surfaces, v'.windows, k);
    }
  }

  lemma FrontRestyles(s: Surfaces, shown: Surfaces, s': Surfaces, w: Window, z: u32)
    requires FrontVia(s, shown, s', w, z)
    ensures Restyled(s, s')
  {
  }

  /** Two tables with the same surfaces up to visibility and stacking. */
  predicate Restyled(s: Surfaces, s': Surfaces) {
    |s'| == |s| && forall i: nat :: i < |s| ==> s'[i] == s[i].(visible := s'[i].visible, z := s'[i].z)
  }

  predicate Rearrangement(w: Windows, w': Windows) {
    |w'| == |w| && forall a: nat :: a < |w| ==> w'[a] == w[a].(arrangement := w'[a].arrangement)
  }

  /** Looking up the content of an open window finds it; no other window has its id. */
  lemma ContentIsFound(s: Surfaces, w: Windows, issued: map<nat, nat>, last: nat, a: nat, r: Option<nat>)
    requires Sound(s, w, issued, last) && OpenAt(w, a) && Found(s, w[a].content, r)
    ensures r.Some? && ContentAt(s, r.value, w[a])
    ensures forall b: nat :: OpenAt(w, b) && w[b].id == w[a].id ==> b == a
  {
    var i: nat :| ContentAt(s, i, w[a]);
  }

  lemma {:induction false} SameWindowIndex(w: Windows, w': Windows, id: nat, n: nat)
    requires Rearrangement(w, w')
    ensures WindowIndex(w', id, n) == WindowIndex(w, id, n)
    decreases |w| - n
  {
    if n < |w| { SameWindowIndex(w, w', id, n + 1); }
  }

  lemma {:induction false} SameSurfaceIndex(s: Surfaces, s': Surfaces, handle: nat, n: nat)
    requires Restyled(s, s')
    ensures SurfaceIndex(s', handle, n) == SurfaceIndex(s, handle, n)
    decreases |s| - n
  {
    if n < |s| { SameSurfaceIndex(s, s', handle, n + 1); }
  }

  lemma StandsSame(s: Surfaces, w: Windows, s': Surfaces, w': Windows, i: nat)
    requires Restyled(s, s') && Rearrangement(w, w')
    ensures StandsFor(s', w', i) == StandsFor(s, w, i)
  {
    if Live(s, i) && s[i].isDecoration {
      SameWindowIndex(w, w', s[i].window, 0);
      var a := WindowIndex(w, s[i].window, 0);
      if a.Some? && a.value < |w| { SameSurfaceIndex(s, s', w[a.value].content, 0); }
    }
  }

  lemma {:induction false} SessionFound(sessions: seq<Session>, owner: nat, n: nat)
    requires n <= |sessions|
    ensures match SessionIndex(sessions, owner, n)
            case Some(k) => n <= k < |sessions| && sessions[k].owner == owner
            case None => true
    decreases |sessions| - n
  {
    if n < |sessions| && sessions[n].owner != owner { SessionFound(sessions, owner, n + 1); }
  }

  lemma {:induction false} OwnerIsBlocked(sessions: seq<Session>, owner: nat, k: nat)
    requires k < |sessions| && sessions[k].owner == owner
    ensures Blocking(sessions, owner).Some?
  {
    var n := |sessions| - 1;
    if sessions[n].owner != owner { OwnerIsBlocked(sessions[..n], owner, k); }
  }

  lemma JoinedBlocks(sessions: seq<Session>, owner: nat, modal: nat)
    ensures Blocking(Joined(sessions, owner, modal), owner).Some?
  {
    SessionFound(sessions, owner, 0);
    var n := SessionIndex(sessions, owner, 0);
    OwnerIsBlocked(Joined(sessions, owner, modal), owner, if n.Some? then n.value else |sessions|);
  }

  /** A run of requests: every step is what its request does. */
  ghost predicate IsHistory(trace: seq<View>, requests: seq<Request>) {
    && |trace| == |requests| + 1 && trace[0] == Nothing()
    && forall k :: 0 <= k < |requests| ==> Handled(trace[k], requests[k], trace[k + 1])
  }

  /** Both focuses are on live surfaces. */
  predicate FocusesLive(v: View) { FocusLive(v.surfaces, v.pointer) && FocusLive(v.surfaces, v.keyboard) }

  /** Handles are distinct, popups younger than their parents, and windows have their content and decoration. */
  ghost predicate SoundView(v: View) { exists issued, last :: Sound(v.surfaces, v.windows, issued, last) }

  lemma ViewIsSound(v: View, issued: map<nat, nat>, last: nat)
    requires Sound(v.surfaces, v.windows, issued, last)
    ensures SoundView(v)
  {
  }

  /** Any sequence of requests and input is carried out step by step; the table stays sound and both focuses live. */
  method Replay(requests: seq<Request>) returns (desk: Desk, ghost trace: seq<View>)
    requires FreshTokens(requests)
    ensures desk.Valid() && IsHistory(trace, requests) && desk.Now() == trace[|requests|]
    ensures forall k :: 0 <= k < |trace| ==> FocusesLive(trace[k]) && SoundView(trace[k])
  {
    hide Handled, Sound, SoundView;
    desk := new Desk();
    trace := [Nothing()];
    ViewIsSound(trace[0], desk.issued, desk.nextWindowId);
    for n := 0 to |requests|
      invariant desk.Valid() && IssuedBy(desk.issued, requests, n) && fresh(desk)
      invariant |trace| == n + 1 && trace[0] == Nothing() && trace[n] == desk.Now()
      invariant forall k :: 0 <= k < n ==> Handled(trace[k], requests[k], trace[k + 1])
      invariant forall k :: 0 <= k < |trace| ==> FocusesLive(trace[k]) && SoundView(trace[k])
    {
      ghost var before := desk.issued;
      desk.Handle(requests[n]);
      ViewIsSound(desk.Now(), desk.issued, desk.nextWindowId);
      trace := trace + [desk.Now()];
      forall t | t in desk.issued ensures exists i :: 0 <= i < n + 1 && TokenOf(requests[i]) == Some(t) {
        if t in before {
          var i :| 0 <= i < n && TokenOf(requests[i]) == Some(t);
        } else {
          assert TokenOf(requests[n]) == Some(t);
        }
      }
    }
  }

  /** Minimizing, or toggling between maximized and normal. */
  function Arranged(w: Window, minimize: bool): Window {
    w.(arrangement := if minimize then Minimized else if w.arrangement == Maximized then Normal else Maximized)
  }

  /** The content and decoration of the window are shown or hidden; every other surface is as before. */
  ghost predicate Shows(s: Surfaces, s': Surfaces, w: Window, visible: bool) {
    && |s'| == |s|
    && forall i: nat :: i < |s| ==>
         s'[i] == if ContentAt(s, i, w) || DecorationAt(s, i, w) then s[i].(visible := visible) else s[i]
  }

  /** The window's surfaces carry the two highest z values handed out, the decoration the higher one. */
  ghost predicate Raised(s: Surfaces, s': Surfaces, w: Window, z: u32) {
    && |s'| == |s|
    && forall i: nat :: i < |s| ==>
      s'[i] == s[i].(z := if DecorationAt(s, i, w) then z else if ContentAt(s, i, w) then Max(z - 1, 0) else s[i].z)
  }

  /** The window was shown and then raised. */
  ghost predicate FrontVia(s: Surfaces, shown: Surfaces, s': Surfaces, w: Window, z: u32) {
    Shows(s, shown, w, true) && Raised(shown, s', w, z)
  }

  /** Of the surfaces in its layer only the window's own decoration is above its content, and nothing is above that. */
  ghost predicate OnTop(s: Surfaces, w: Window) {
    forall c: nat, i: nat :: Live(s, i) && c < |s| && i != c && s[i].Layer() == s[c].Layer() ==>
      && (DecorationAt(s, c, w) ==> Below(s, i, c))
      && (ContentAt(s, c, w) && !DecorationAt(s, i, w) ==> Below(s, i, c))
  }

  lemma RaisedLives(s: Surfaces, s': Surfaces, w: Window, z: u32)
    requires Raised(s, s', w, z)
    ensures forall i: nat :: Live(s', i) <==> Live(s, i)
  {
  }

  /** Until the counter wraps, raising a window puts it on top. */
  lemma RaisedOnTop(s: Surfaces, s': Surfaces, w: Window, z: u32)
    requires UnderCounter(s, z) && z <= NextRaise(z) && Raised(s, s', w, NextRaise(z))
    requires forall i: nat, j: nat, h :: Names(s, i, h) && Names(s, j, h) ==> i == j
    ensures OnTop(s', w)
  {
    assert z + 2 < U32_LIMIT || z <= 2;
    forall c: nat, i: nat | Live(s', i) && c < |s'| && i != c && s'[i].Layer() == s'[c].Layer()
      ensures DecorationAt(s', c, w) ==> Below(s', i, c)
      ensures ContentAt(s', c, w) && !DecorationAt(s', i, w) ==> Below(s', i, c)
    {
      assert DecorationAt(s', c, w) <==> DecorationAt(s, c, w);
      assert ContentAt(s', c, w) <==> ContentAt(s, c, w);
      assert DecorationAt(s', i, w) <==> DecorationAt(s, i, w);
      assert ContentAt(s', i, w) <==> ContentAt(s, i, w);
      assert ContentAt(s, c, w) ==> Names(s, c, w.content);
      assert ContentAt(s, i, w) ==> Names(s, i, w.content);
    }
  }

  /** The topmost shown surface that accepts the point. */
  ghost predicate Topmost(s: Surfaces, accepts: nat -> bool, h: nat) {
    Shown(s, h) && accepts(h) && forall i: nat :: Shown(s, i) && accepts(i) && i != h ==> Below(s, i, h)
  }

  lemma ShowsKeeps(s: Surfaces, s': Surfaces, w: Window, visible: bool)
    requires Shows(s, s', w, visible)
    ensures |s'| == |s| && forall i: nat :: i < |s| ==> s'[i] == s[i].(visible := s'[i].visible)
  {
  }

  /** Every z value was handed out by the counter. */
  predicate UnderCounter(s: Surfaces, z: u32) { forall i :: 0 <= i < |s| ==> s[i].z <= z }

  lemma FocusFalls(s: Surfaces, d: Option<nat>, i: nat, focus: Option<nat>)
    requires i < |s| && FocusLive(s, focus)
    ensures var s' := WithoutDecoration(s, d)[i := s[i].Reset()];
      && ClearedFocus(focus, s') == (if focus == Some(i) || (focus.Some? && focus == d) then None else focus)
      && FocusLive(s', ClearedFocus(focus, s'))
  {
  }

  lemma SameZ(s: Surfaces, s': Surfaces, z: u32)
    requires |s'| == |s| && forall i: nat :: i < |s| ==> s'[i].z == s[i].z
    ensures UnderCounter(s, z) ==> UnderCounter(s', z)
  {
  }

  lemma ResetUnder(s: Surfaces, d: Option<nat>, i: nat, z: u32)
    requires i < |s|
    ensures UnderCounter(s, z) ==> UnderCounter(WithoutDecoration(s, d)[i := s[i].Reset()], z)
  {
  }

  /** Two fresh values for a window and its decoration; the counter wraps at 32 bits. */
  function NextRaise(z: u32): u32 { Max((z + 2) % U32_LIMIT, 2) }

  predicate AllUnder(s: Surfaces, z: u32) { forall i :: 0 <= i < |s| ==> s[i].z < z }

  /** Even the lower of them is above everything handed out before, exactly until the counter wraps. */
  lemma RaiseTopsIff(z: u32)
    ensures (forall s: Surfaces :: UnderCounter(s, z) ==> AllUnder(s, NextRaise(z) - 1)) <==> z + 2 < U32_LIMIT
  {
    if z + 2 >= U32_LIMIT {
      var s := [Surface(true, 1, 1, 1, Toplevel, false, None, 0, false, true, 1, 0)];
      assert UnderCounter(s, z) && s[0].z == NextRaise(z) - 1;
    }
  }

  /** The z counter wraps at 32 bits. */
  function NextZ(z: u32): u32 { if z + 1 == U32_LIMIT then 0 else z + 1 }

  /** A free window slot now holds a plain window for that content; no other window changed. */
  predicate Opened(w: Windows, w': Windows, a: nat, id: nat, token: nat, content: nat) {
    a < |w| && !w[a].live && w' == w[a := Window(true, id, token, content, None, 0, Normal)]
  }

  /** Slot `i` was free and now holds the new surface; nothing else changed. */
  predicate Created(s: Surfaces, s': Surfaces, i: nat, client: nat, handle: nat, role: Role, parent: Option<nat>,
                    process: nat, z: u32, window: nat)
  {
    && i < |s| && !s[i].live
    && s' == s[i := Surface(true, client, handle, handle, role, s[i].underProtection, parent, window, false, true, z, process)]
  }

  /** Slot `i` was free and now holds a decoration surface for the window of that token. */
  predicate DecorationFor(v: View, v': View, window: nat, client: nat, handle: nat, a: nat, i: nat) {
    && WindowNamed(v.windows, window, a) && i < |v.surfaces| && !v.surfaces[i].live
    && v' == v.(surfaces := v.surfaces[i := Surface(true, client, handle, handle, Popup, v.surfaces[i].underProtection, None,
                                                    v.windows[a].id, true, true, NextZ(v.nextZ), 0)],
                nextZ := NextZ(v.nextZ))
  }

  lemma CreatedLives(s: Surfaces, s': Surfaces, i: nat, client: nat, handle: nat, role: Role, parent: Option<nat>,
                     process: nat, z: u32, window: nat)
    requires Created(s, s', i, client, handle, role, parent, process, z, window)
    ensures Live(s', i)
  {
  }

  /** A request that cannot be met changes at most the z counter. */
  lemma RefusedIs(v: View, r: Request)
    requires r.MakeSurface?
    ensures
      || !Admissible(v.surfaces, r.client, r.role, r.secure, r.compat, r.width, r.height, r.parent, r.anchorInside)
      || !HasFree(v.surfaces) || r.token.Err? || (r.role == Some(Toplevel) && (!HasRoom(v.windows) || r.windowToken.Err?))
      ==> forall z: u32 :: Handled(v, r, v.(nextZ := z))
  {
  }

  lemma AdmittedIs(s: Surfaces, client: nat, role: Option<Role>, secure: bool, compat: bool, width: u32, height: u32,
                   parent: Option<nat>, anchorInside: bool)
    requires Admissible(s, client, role, secure, compat, width, height, parent, anchorInside)
    ensures role.Some? && (role.value == Popup ==> parent.Some? && exists k: nat :: Owned(s, client, parent.value, k))
  {
  }

  lemma MadeIs(v: View, r: Request, v': View, i: nat, slot: Option<nat>, window: nat)
    requires r.MakeSurface? && r.token.Ok?
    requires Admissible(v.surfaces, r.client, r.role, r.secure, r.compat, r.width, r.height, r.parent, r.anchorInside)
    requires r.role.Some? && v'.pointer == v.pointer && v'.sessions == v.sessions
    requires v'.nextZ == if r.role.value == Background then v.nextZ else NextZ(v.nextZ)
    requires Created(v.surfaces, v'.surfaces, i, r.client, r.token.value, r.role.value,
                     if r.role.value == Popup then r.parent else None, r.process,
                     if r.role.value == Background then 0 else v'.nextZ, window)
    requires v'.keyboard == if TakesFocus(r.role.value) then Some(i) else v.keyboard
    requires if r.role.value == Toplevel
             then slot.Some? && r.windowToken.Ok?
                  && Opened(v.windows, v'.windows, slot.value, window, r.windowToken.value, r.token.value)
             else window == 0 && v'.windows == v.windows
    ensures Handled(v, r, v')
  {
    hide Admissible, Owned;
    assert HasFree(v.surfaces) by { assert !v.surfaces[i].live; }
    if slot.Some? && r.role.value == Toplevel { assert HasRoom(v.windows) by { assert !v.windows[slot.value].live; } }
    assert Creatable(v, r);
    assert Added(v, r, v', i, window);
  }

  /** What a lookup by handle answers. */
  ghost predicate Found(s: Surfaces, handle: nat, r: Option<nat>) {
    if r.Some? then Names(s, r.value, handle) && s[r.value].token == handle
    else forall i: nat :: Names(s, i, handle) ==> s[i].token != handle
  }

  function WithVisible(s: Surfaces, i: Option<nat>, visible: bool): Surfaces {
    if i.Some? && i.value < |s| then s[i.value := s[i.value].(visible := visible)] else s
  }

  function WithZ(s: Surfaces, i: Option<nat>, z: u32): Surfaces {
    if i.Some? && i.value < |s| then s[i.value := s[i.value].(z := z)] else s
  }

  /** The surfaces looked up for a window are exactly its content and its decoration. */
  lemma WindowParts(s: Surfaces, w: Windows, issued: map<nat, nat>, last: nat, a: nat, c: Option<nat>, d: Option<nat>)
    requires Sound(s, w, issued, last) && OpenAt(w, a) && Found(s, w[a].content, c)
    requires if w[a].decoration.Some? then Found(s, w[a].decoration.value, d) else d.None?
    ensures forall i: nat :: ContentAt(s, i, w[a]) <==> c == Some(i) && i < |s|
    ensures forall i: nat :: DecorationAt(s, i, w[a]) <==> d == Some(i) && i < |s|
    ensures c != d || c.None?
  {
    WindowLookup(s, w, issued, last, a);
    hide Sound;
  }

  lemma ShowsBy(s: Surfaces, w: Windows, issued: map<nat, nat>, last: nat, z: u32, a: nat, c: Option<nat>,
                d: Option<nat>, visible: bool, pointer: Option<nat>, keyboard: Option<nat>)
    requires Sound(s, w, issued, last) && OpenAt(w, a) && Found(s, w[a].content, c)
    requires if w[a].decoration.Some? then Found(s, w[a].decoration.value, d) else d.None?
    ensures var s' := WithVisible(WithVisible(s, c, visible), d, visible);
      && |s'| == |s| && Sound(s', w, issued, last) && Shows(s, s', w[a], visible)
      && (UnderCounter(s, z) ==> UnderCounter(s', z))
      && (FocusLive(s, pointer) ==> FocusLive(s', pointer)) && (FocusLive(s, keyboard) ==> FocusLive(s', keyboard))
  {
    hide Sound, ContentAt, DecorationAt, Found;
    WindowParts(s, w, issued, last, a, c, d);
    RestyleKeeps(s, w, issued, last, WithVisible(WithVisible(s, c, visible), d, visible), w);
  }

  lemma RaisedBy(s: Surfaces, w: Windows, issued: map<nat, nat>, last: nat, z: u32, a: nat, c: Option<nat>,
                 d: Option<nat>, pointer: Option<nat>, keyboard: Option<nat>)
    requires Sound(s, w, issued, last) && OpenAt(w, a) && z >= 2 && Found(s, w[a].content, c)
    requires if w[a].decoration.Some? then Found(s, w[a].decoration.value, d) else d.None?
    ensures var s' := WithZ(WithZ(s, c, z - 1), d, z);
      && |s'| == |s| && Sound(s', w, issued, last) && Raised(s, s', w[a], z)
      && (UnderCounter(s, z) ==> UnderCounter(s', z))
      && (FocusLive(s, pointer) ==> FocusLive(s', pointer)) && (FocusLive(s, keyboard) ==> FocusLive(s', keyboard))
  {
    hide Sound, ContentAt, DecorationAt, Found;
    WindowParts(s, w, issued, last, a, c, d);
    RestyleKeeps(s, w, issued, last, WithZ(WithZ(s, c, z - 1), d, z), w);
  }

  lemma LiveTokens(s: Surfaces, w: Windows, issued: map<nat, nat>, last: nat)
    requires Sound(s, w, issued, last)
    ensures forall i: nat :: Live(s, i) ==> s[i].token == s[i].handle
  {
  }

  lemma OneOwner(s: Surfaces, w: Windows, issued: map<nat, nat>, last: nat, client: nat, handle: nat, i: nat)
    requires Sound(s, w, issued, last) && Owned(s, client, handle, i)
    ensures forall k: nat :: Owned(s, client, handle, k) ==> k == i
  {
  }

  lemma ContentFound(s: Surfaces, w: Windows, issued: map<nat, nat>, last: nat, a: nat, found: Option<nat>)
    requires Sound(s, w, issued, last) && OpenAt(w, a)
    requires found.None? ==> forall i: nat :: Names(s, i, w[a].content) ==> s[i].token != w[a].content
    ensures found.Some?
  {
    var c: nat :| ContentAt(s, c, w[a]);
    assert Names(s, c, w[a].content);
  }

  lemma {:induction false} FirstWindow(w: Windows, id: nat, a: nat)
    requires OpenAt(w, a) && w[a].id == id && forall b: nat :: OpenAt(w, b) && w[b].id == id ==> b == a
    ensures WindowIndex(w, id, 0) == Some(a)
  {
    FirstWindowFrom(w, id, a, 0);
  }

  lemma {:induction false} FirstWindowFrom(w: Windows, id: nat, a: nat, n: nat)
    requires n <= a && OpenAt(w, a) && w[a].id == id && forall b: nat :: OpenAt(w, b) && w[b].id == id ==> b == a
    ensures WindowIndex(w, id, n) == Some(a)
    decreases a - n
  {
    if n < a {
      assert OpenAt(w, n) ==> w[n].id != id;
      FirstWindowFrom(w, id, a, n + 1);
    }
  }

  lemma ClearedTwice(focus: Option<nat>, s1: Surfaces, s2: Surfaces)
    requires forall i: nat :: Live(s2, i) ==> Live(s1, i)
    ensures ClearedFocus(ClearedFocus(focus, s1), s2) == ClearedFocus(focus, s2)
  {
  }

  lemma NewcomerLives(s: Surfaces, n: Surface, issued: map<nat, nat>)
    requires Newcomer(s, n, issued)
    ensures n.live
  {
  }

  lemma LaterIds(s: Surfaces, w: Windows, issued: map<nat, nat>, last: nat)
    requires Sound(s, w, issued, last)
    ensures Sound(s, w, issued, last + 1)
  {
  }

  lemma NewcomerFits(s: Surfaces, w: Windows, issued: map<nat, nat>, last: nat, n: Surface)
    requires Sound(s, w, issued, last) && n.live && n.token == n.handle && n.handle !in issued
    requires n.parent.Some? ==>
               && n.role == Popup && !n.isDecoration && n.window == 0
               && exists k: nat :: Names(s, k, n.parent.value) && s[k].owner == n.owner
    ensures Newcomer(s, n, issued)
  {
  }

  /** Looking up a window's surfaces by handle finds its content and decoration. */
  lemma WindowLookup(s: Surfaces, w: Windows, issued: map<nat, nat>, last: nat, a: nat)
    requires Sound(s, w, issued, last) && OpenAt(w, a)
    ensures forall i: nat :: Names(s, i, w[a].content) <==> ContentAt(s, i, w[a])
    ensures w[a].decoration.Some? ==> forall i: nat :: Names(s, i, w[a].decoration.value) <==> DecorationAt(s, i, w[a])
    ensures forall i: nat, j: nat, h :: Names(s, i, h) && Names(s, j, h) ==> i == j
    ensures forall i: nat :: Live(s, i) ==> s[i].token == s[i].handle
    ensures forall b: nat :: OpenAt(w, b) && w[b].id == w[a].id ==> b == a
  {
    var c: nat :| ContentAt(s, c, w[a]);
    if w[a].decoration.Some? { var d: nat :| DecorationAt(s, d, w[a]); }
  }

  lemma HandleIsGone(s: Surfaces, w: Windows, issued: map<nat, nat>, last: nat, root: nat, s': Surfaces, w': Windows)
    requires Sound(s, w, issued, last) && Live(s, root) && Destroyed(s, w, root, s', w')
    ensures forall j: nat :: Live(s', j) ==> s'[j].handle != s[root].handle && s'[j].parent != Some(s[root].handle)
  {
    RootInTree(s, root);
    forall j: nat | Live(s', j) ensures s'[j].handle != s[root].handle && s'[j].parent != Some(s[root].handle) {
      assert Live(s, j) && s'[j] == s[j];
      assert Names(s, j, s[j].handle) && Names(s, root, s[root].handle);
      if s[j].parent == Some(s[root].handle) { TreeGrows(s, root, root, j); }
    }
  }

  /** A tree belongs to one client, so other clients lose at most a decoration. */
  lemma OwnerFalls(s: Surfaces, w: Windows, issued: map<nat, nat>, last: nat, root: nat, s': Surfaces, w': Windows)
    requires Sound(s, w, issued, last) && Live(s, root) && Destroyed(s, w, root, s', w')
    ensures |s'| == |s| && LiveSet(s') < LiveSet(s)
    ensures forall i: nat :: Live(s', i) ==> s'[i] == s[i] && Live(s, i)
    ensures forall i: nat :: Live(s, i) && s[i].owner != s[root].owner && !s[i].isDecoration ==> s'[i] == s[i]
  {
    RootInTree(s, root);
    assert root in LiveSet(s) && root !in LiveSet(s');
    forall i: nat | Live(s, i) && s[i].owner != s[root].owner && !s[i].isDecoration ensures !Doomed(s, w, root, i) {
      AttachedIsDecoration(s, w, last, root, i);
      if InTree(s, root, i) {
        var path :| Links(s, path, root, i);
        ChainHasOneOwner(s, path, |path| - 1);
      }
    }
  }

  lemma ChildIsYounger(s: Surfaces, w: Windows, issued: map<nat, nat>, births: nat, last: nat, root: nat, child: nat)
    requires Sound(s, w, issued, last) && Issued(issued, births) && Live(s, root) && Live(s, child)
    requires s[child].parent == Some(s[root].handle)
    ensures s[root].handle in issued && s[child].handle in issued
    ensures issued[s[root].handle] < issued[s[child].handle] < births
  {
  }

  function WithoutDecoration(s: Surfaces, d: Option<nat>): Surfaces {
    if d.Some? && d.value < |s| then s[d.value := s[d.value].Reset()] else s
  }

  /** Looking the decoration up by its handle finds exactly the attached surface. */
  lemma RootStepBy(s: Surfaces, w: Windows, issued: map<nat, nat>, last: nat, root: nat, found: Option<nat>,
                   d: Option<nat>)
    requires Sound(s, w, issued, last) && Live(s, root)
    requires found.Some? ==> OpenAt(w, found.value) && w[found.value].id == s[root].window
    requires found.None? ==> forall a: nat :: OpenAt(w, a) ==> w[a].id != s[root].window
    requires if found.Some? && !s[root].isDecoration && w[found.value].decoration.Some?
             then var h := w[found.value].decoration.value;
               if d.Some? then Names(s, d.value, h) else forall i: nat :: Names(s, i, h) ==> s[i].token != h
             else d.None?
    ensures d.Some? ==> d.value != root && Live(s, d.value)
    ensures RootStep(s, w, root, WithoutDecoration(s, d)[root := s[root].Reset()])
  {
    forall j: nat | Live(s, j) ensures Attached(s, w, root, j) <==> d == Some(j) {
      if found.Some? && !s[root].isDecoration {
        AttachedFound(s, w, issued, last, root, found.value, j);
      }
    }
    if d.Some? { AttachedIsDecoration(s, w, last, root, d.value); }
  }

  /** At most one window has the id, so updating the one found is the whole change. */
  lemma WindowFound(s: Surfaces, w: Windows, issued: map<nat, nat>, last: nat, gone: Surface, found: Option<nat>)
    requires Sound(s, w, issued, last)
    requires found.Some? ==> OpenAt(w, found.value) && w[found.value].id == gone.window
    requires found.None? ==> forall a: nat :: OpenAt(w, a) ==> w[a].id != gone.window
    ensures WindowsAfter(w, gone) == if found.Some? then w[found.value := WindowAfter(w[found.value], gone)] else w
  {
    forall a: nat | a < |w| && found != Some(a) ensures WindowAfter(w[a], gone) == w[a] {
      assert OpenAt(w, a) <==> w[a].live;
    }
  }

  lemma TreeStarts(s: Surfaces, root: nat)
    requires Live(s, root)
    ensures Partly(s, s, root) && Sealed(s, s)
  {
  }

  /** Destroying a child is a step of destroying its parent, and leaves the windows alone. */
  lemma ChildFalls(s0: Surfaces, s: Surfaces, s': Surfaces, w: Windows, w': Windows, issued: map<nat, nat>, last: nat,
                   root: nat, child: nat)
    requires Sound(s, w, issued, last) && Partly(s0, s, root) && Sealed(s0, s)
    requires Live(s, child) && s[child].parent == Some(s[root].handle)
    requires Destroyed(s, w, child, s', w')
    ensures Partly(s0, s', root) && Sealed(s0, s') && w' == w
    ensures LiveSet(s') < LiveSet(s) && Live(s', root) && s'[root] == s0[root]
    ensures forall i: nat :: Live(s', i) ==> Live(s, i)
  {
    assert forall j: nat :: !Attached(s, w, child, j);
    ChildGone(s0, s, s', issued, root, child);
    RootInTree(s, child);
    assert WindowsAfter(w, s[child]) == w;
    assert child in LiveSet(s) && child !in LiveSet(s');
  }
}
