/**
The compositor's table of surfaces, windows and focus, and the requests that
change it. Random tokens are parameters that are never issued twice.
*/
module SurfaceTable {
  import opened Base

  datatype Role = Toplevel | Popup | Background | Panel | SecureOverlay | SystemModal

  function RoleLayer(role: Role): nat {
    match role
    case Background => 0
    case Toplevel => 1
    case Popup => 1
    case Panel => 2
    case SystemModal => 3
    case SecureOverlay => 4
  }

  datatype Surface = Surface(
    live: bool,
    owner: nat,
    handle: nat,
    token: nat,
    role: Role,
    underProtection: bool,
    parent: Option<nat>,
    window: nat,
    isDecoration: bool,
    visible: bool,
    z: u32,
    process: nat)
  {
    function Layer(): nat { if underProtection then RoleLayer(SystemModal) else RoleLayer(role) }

    /** What `reset` leaves behind: everything cleared but the protection flag. */
    function Reset(): Surface {
      Surface(false, 0, 0, 0, Toplevel, underProtection, None, 0, false, true, 0, 0)
    }
  }

  datatype Arrangement = Normal | Minimized | Maximized

  datatype Window = Window(
    live: bool,
    id: nat,
    token: nat,
    content: nat,
    decoration: Option<nat>,
    decorator: nat,
    arrangement: Arrangement)

  const EMPTY_WINDOW := Window(false, 0, 0, 0, None, 0, Normal)

  type Surfaces = seq<Surface>

  type Windows = seq<Window>

  predicate Live(s: Surfaces, i: nat) { i < |s| && s[i].live }

  predicate OpenAt(w: Windows, a: nat) { a < |w| && w[a].live }

  /** Surface `i` is live and is named by handle `h`. */
  predicate Names(s: Surfaces, i: nat, h: nat) { Live(s, i) && s[i].handle == h }

  ghost predicate HandlesDistinct(s: Surfaces) {
    forall i: nat, j: nat, h :: Names(s, i, h) && Names(s, j, h) ==> i == j
  }

  /** Live handles are issued tokens; a popup is younger than its parent and never belongs to a window. */
  ghost predicate Family(s: Surfaces, issued: map<nat, nat>) {
    forall i: nat :: Live(s, i) ==>
      && s[i].token == s[i].handle && s[i].handle in issued
      && (s[i].parent.Some? ==>
            && s[i].role == Popup && !s[i].isDecoration && s[i].window == 0
            && s[i].parent.value in issued && issued[s[i].parent.value] < issued[s[i].handle])
  }

  ghost predicate SameOwner(s: Surfaces) {
    forall i: nat, k: nat :: Live(s, i) && Live(s, k) && s[i].parent == Some(s[k].handle) ==> s[i].owner == s[k].owner
  }

  predicate ContentAt(s: Surfaces, i: nat, w: Window) {
    Names(s, i, w.content) && s[i].role == Toplevel && !s[i].isDecoration && s[i].window == w.id
  }

  predicate DecorationAt(s: Surfaces, i: nat, w: Window) {
    w.decoration.Some? && Names(s, i, w.decoration.value) && s[i].isDecoration && s[i].window == w.id
  }

  /** A live window has its content surface, and its decoration when one is attached. */
  ghost predicate WindowsHold(s: Surfaces, w: Windows) {
    forall a: nat :: OpenAt(w, a) ==>
      && (exists i: nat :: ContentAt(s, i, w[a]))
      && (w[a].decoration.Some? ==> exists i: nat :: DecorationAt(s, i, w[a]))
  }

  /** A content surface that carries a window id belongs to that open window. */
  ghost predicate ContentsHeld(s: Surfaces, w: Windows) {
    forall i: nat :: Live(s, i) && s[i].window != 0 && !s[i].isDecoration ==>
      exists a: nat :: OpenAt(w, a) && w[a].id == s[i].window && w[a].content == s[i].handle
  }

  ghost predicate WindowIds(w: Windows, last: nat) {
    && (forall a: nat :: OpenAt(w, a) ==> 1 <= w[a].id <= last)
    && (forall a: nat, b: nat :: OpenAt(w, a) && OpenAt(w, b) && w[a].id == w[b].id ==> a == b)
  }

  ghost predicate Issued(issued: map<nat, nat>, births: nat) {
    forall t :: t in issued ==> issued[t] < births
  }

  ghost predicate Sound(s: Surfaces, w: Windows, issued: map<nat, nat>, last: nat) {
    && HandlesDistinct(s) && Family(s, issued) && SameOwner(s)
    && WindowsHold(s, w) && ContentsHeld(s, w) && WindowIds(w, last)
  }

  predicate FocusLive(s: Surfaces, focus: Option<nat>) { focus.Some? ==> Live(s, focus.value) }

  // The surfaces that go when one is destroyed.

  /** Consecutive live surfaces, each the parent of the next. */
  ghost predicate Chain(s: Surfaces, path: seq<nat>) {
    && |path| > 0
    && (forall k :: 0 <= k < |path| ==> Live(s, path[k]))
    && (forall k :: 0 < k < |path| ==> s[path[k]].parent == Some(s[path[k - 1]].handle))
  }

  ghost predicate Links(s: Surfaces, path: seq<nat>, root: nat, j: nat) {
    Chain(s, path) && path[0] == root && path[|path| - 1] == j
  }

  /** Surface `j` is `root` or descends from it through live parents. */
  ghost predicate InTree(s: Surfaces, root: nat, j: nat) {
    exists path :: Links(s, path, root, j)
  }

  /** Surface `j` is the decoration attached to the window whose content is `root`. */
  ghost predicate Attached(s: Surfaces, w: Windows, root: nat, j: nat) {
    && Live(s, root) && Live(s, j) && !s[root].isDecoration
    && exists a: nat :: OpenAt(w, a) && w[a].id == s[root].window && w[a].decoration == Some(s[j].handle)
  }

  ghost predicate Doomed(s: Surfaces, w: Windows, root: nat, j: nat) {
    InTree(s, root, j) || Attached(s, w, root, j)
  }

  /** The windows after `gone` has been destroyed. */
  function WindowsAfter(w: Windows, gone: Surface): (r: Windows)
    ensures |r| == |w|
    ensures forall a: nat :: a < |w| ==> r[a] == WindowAfter(w[a], gone)
  {
    seq(|w|, a requires 0 <= a < |w| => WindowAfter(w[a], gone))
  }

  function WindowAfter(w: Window, gone: Surface): Window {
    if !w.live || w.id != gone.window then w
    else if gone.isDecoration then w.(decoration := None, decorator := 0)
    else EMPTY_WINDOW
  }

  /** Exactly the doomed surfaces are reset, and every other surface is untouched. */
  ghost predicate Destroyed(s: Surfaces, w: Windows, root: nat, s': Surfaces, w': Windows)
    requires Live(s, root)
  {
    && |s'| == |s|
    && (forall j: nat :: j < |s| ==> s'[j] == if Doomed(s, w, root, j) then s[j].Reset() else s[j])
    && w' == WindowsAfter(w, s[root])
  }

  lemma RootInTree(s: Surfaces, root: nat)
    requires Live(s, root)
    ensures InTree(s, root, root)
  {
    assert Links(s, [root], root, root);
  }

  lemma TreeGrows(s: Surfaces, root: nat, k: nat, j: nat)
    requires InTree(s, root, k) && Live(s, j) && s[j].parent == Some(s[k].handle)
    ensures InTree(s, root, j)
  {
    var path :| Links(s, path, root, k);
    assert Links(s, path + [j], root, j);
  }

  /** A child's tree lies inside its parent's tree, also when other surfaces are already gone. */
  lemma ChildTree(s0: Surfaces, s: Surfaces, root: nat, child: nat, j: nat)
    requires |s| == |s0| && (forall i: nat :: Live(s, i) ==> s[i] == s0[i])
    requires Live(s, root) && Live(s, child) && s[child].parent == Some(s[root].handle) && InTree(s, child, j)
    ensures InTree(s0, root, j)
  {
    var path :| Links(s, path, child, j);
    forall k | 0 <= k < |path| ensures Live(s, path[k]) && s[path[k]] == s0[path[k]] {
    }
    assert Links(s0, [root] + path, root, j);
  }

  /** Ages grow along a chain, so a child's tree never comes back to an older surface. */
  lemma {:induction false} ChainAges(s: Surfaces, issued: map<nat, nat>, path: seq<nat>, k: nat)
    requires Family(s, issued) && Chain(s, path) && k < |path|
    ensures issued[s[path[0]].handle] <= issued[s[path[k]].handle]
  {
    if k > 0 { ChainAges(s, issued, path, k - 1); }
  }

  lemma TreeIsYounger(s: Surfaces, issued: map<nat, nat>, root: nat, j: nat)
    requires Family(s, issued) && InTree(s, root, j)
    ensures Live(s, root) && Live(s, j) && issued[s[root].handle] <= issued[s[j].handle]
  {
    var path :| Links(s, path, root, j);
    ChainAges(s, issued, path, |path| - 1);
  }

  // Destroying the children one after another.

  /** Some strict descendants of `root` are gone and nothing else changed. */
  ghost predicate Partly(s0: Surfaces, s: Surfaces, root: nat) {
    && |s| == |s0| && Live(s, root)
    && forall j: nat :: j < |s| ==> s[j] == s0[j] || (s[j] == s0[j].Reset() && InTree(s0, root, j))
  }

  /** No survivor names a surface that is gone. */
  ghost predicate Sealed(s0: Surfaces, s: Surfaces) {
    forall j: nat, k: nat :: Live(s, j) && Live(s0, k) && !Live(s, k) ==> s[j].parent != Some(s0[k].handle)
  }

  lemma ChildGone(s0: Surfaces, s: Surfaces, s': Surfaces, issued: map<nat, nat>, root: nat, child: nat)
    requires Partly(s0, s, root) && Sealed(s0, s) && Family(s, issued)
    requires Live(s, child) && s[child].parent == Some(s[root].handle)
    requires |s'| == |s|
    requires forall j: nat :: j < |s| ==> s'[j] == if InTree(s, child, j) then s[j].Reset() else s[j]
    ensures Partly(s0, s', root) && Sealed(s0, s')
  {
    forall j: nat | j < |s| && InTree(s, child, j) ensures InTree(s0, root, j) && j != root {
      ChildTree(s0, s, root, child, j);
      TreeIsYounger(s, issued, child, j);
    }
    forall j: nat, k: nat | Live(s', j) && Live(s0, k) && !Live(s', k) ensures s'[j].parent != Some(s0[k].handle) {
      if Live(s, k) && s[j].parent == Some(s[k].handle) {
        TreeGrows(s, child, k, j);
      }
    }
  }

  /** Once no live child is left, the whole tree but its root is gone. */
  lemma {:induction false} PathGone(s0: Surfaces, s: Surfaces, root: nat, path: seq<nat>, m: nat)
    requires Partly(s0, s, root) && Sealed(s0, s)
    requires forall i: nat :: Live(s, i) ==> s[i].parent != Some(s[root].handle)
    requires Chain(s0, path) && path[0] == root && 0 < m < |path|
    ensures !Live(s, path[m])
  {
    if m > 1 { PathGone(s0, s, root, path, m - 1); }
  }

  lemma TreeIsGone(s0: Surfaces, s: Surfaces, root: nat, j: nat)
    requires Partly(s0, s, root) && Sealed(s0, s)
    requires forall i: nat :: Live(s, i) ==> s[i].parent != Some(s[root].handle)
    requires InTree(s0, root, j) && j != root
    ensures s[j] == s0[j].Reset()
  {
    var path :| Links(s0, path, root, j);
    PathGone(s0, s, root, path, |path| - 1);
  }

  // Removing a surface without live children, with its window.

  /** Each surface is kept or no longer live. */
  ghost predicate Pruned(s: Surfaces, s': Surfaces) {
    |s'| == |s| && forall i: nat :: i < |s| ==> s'[i] == s[i] || !s'[i].live
  }

  lemma PruneKeepsFamily(s: Surfaces, s': Surfaces, issued: map<nat, nat>)
    requires HandlesDistinct(s) && Family(s, issued) && SameOwner(s) && Pruned(s, s')
    ensures HandlesDistinct(s') && Family(s', issued) && SameOwner(s')
  {
    assert forall i: nat :: Live(s', i) ==> Live(s, i) && s'[i] == s[i];
    assert forall i: nat, h :: Names(s', i, h) ==> Names(s, i, h);
  }

  /** The root and the decoration of its window are reset. */
  ghost predicate RootStep(s: Surfaces, w: Windows, root: nat, s': Surfaces) {
    && Live(s, root) && |s'| == |s|
    && forall j: nat :: j < |s| ==> s'[j] == if j == root || Attached(s, w, root, j) then s[j].Reset() else s[j]
  }

  /** After the children, removing the root completes the destruction of its tree. */
  lemma RootFalls(s0: Surfaces, s: Surfaces, w: Windows, root: nat, s': Surfaces)
    requires Partly(s0, s, root) && Sealed(s0, s) && RootStep(s, w, root, s')
    requires forall i: nat :: Live(s, i) ==> s[i].parent != Some(s[root].handle)
    ensures Live(s0, root) && s0[root] == s[root]
    ensures Destroyed(s0, w, root, s', WindowsAfter(w, s0[root]))
  {
    assert s0[root] == s[root];
    forall j: nat | j < |s0| ensures s'[j] == if Doomed(s0, w, root, j) then s0[j].Reset() else s0[j] {
      if j == root {
        RootInTree(s0, root);
      } else if InTree(s0, root, j) {
        TreeIsGone(s0, s, root, j);
      } else {
        assert s[j] == s0[j];
      }
    }
  }

  /** The decoration found through the window is the attached one. */
  lemma AttachedFound(s: Surfaces, w: Windows, issued: map<nat, nat>, last: nat, root: nat, a: nat, j: nat)
    requires Sound(s, w, issued, last) && Live(s, root) && !s[root].isDecoration
    requires OpenAt(w, a) && w[a].id == s[root].window
    ensures Attached(s, w, root, j) <==> w[a].decoration.Some? && Names(s, j, w[a].decoration.value)
  {
  }

  /** The root goes with its window; so does the window's decoration. */
  lemma RemoveKeepsWindows(s: Surfaces, w: Windows, issued: map<nat, nat>, last: nat, root: nat, s': Surfaces)
    requires Sound(s, w, issued, last) && RootStep(s, w, root, s')
    ensures Sound(s', WindowsAfter(w, s[root]), issued, last)
  {
    PruneKeepsFamily(s, s', issued);
    hide Attached, Family, SameOwner, ContentAt, DecorationAt, HandlesDistinct;
    var w' := WindowsAfter(w, s[root]);
    assert forall a: nat :: OpenAt(w', a) ==> OpenAt(w, a) && w'[a].id == w[a].id;
    forall a: nat | OpenAt(w', a)
      ensures exists i: nat :: ContentAt(s', i, w'[a])
      ensures w'[a].decoration.Some? ==> exists i: nat :: DecorationAt(s', i, w'[a])
    {
      OtherWindowKeeps(s, w, issued, last, root, a, s');
    }
    RemoveKeepsContents(s, w, issued, last, root, s');
  }

  lemma RemoveKeepsContents(s: Surfaces, w: Windows, issued: map<nat, nat>, last: nat, root: nat, s': Surfaces)
    requires Sound(s, w, issued, last) && RootStep(s, w, root, s')
    ensures ContentsHeld(s', WindowsAfter(w, s[root]))
  {
    hide Attached, Family, SameOwner, WindowsHold;
    var w' := WindowsAfter(w, s[root]);
    forall i: nat | Live(s', i) && s'[i].window != 0 && !s'[i].isDecoration
      ensures exists a: nat :: OpenAt(w', a) && w'[a].id == s'[i].window && w'[a].content == s'[i].handle
    {
      var a: nat :| OpenAt(w, a) && w[a].id == s[i].window && w[a].content == s[i].handle;
      if !s[root].isDecoration && s[root].window == s[i].window {
        ContentIsUnique(s, w, last, root, i);
      }
      assert OpenAt(w', a);
    }
  }

  /** One window has one content surface. */
  lemma ContentIsUnique(s: Surfaces, w: Windows, last: nat, i: nat, j: nat)
    requires HandlesDistinct(s) && ContentsHeld(s, w) && WindowIds(w, last)
    requires Live(s, i) && Live(s, j) && s[i].window == s[j].window != 0 && !s[i].isDecoration && !s[j].isDecoration
    ensures i == j
  {
    assert Names(s, i, s[i].handle) && Names(s, j, s[j].handle);
  }

  /** A window that stays open keeps its content, and its decoration unless that was the root. */
  lemma OtherWindowKeeps(s: Surfaces, w: Windows, issued: map<nat, nat>, last: nat, root: nat, a: nat, s': Surfaces)
    requires Sound(s, w, issued, last) && RootStep(s, w, root, s')
    requires OpenAt(WindowsAfter(w, s[root]), a)
    ensures exists i: nat :: ContentAt(s', i, WindowsAfter(w, s[root])[a])
    ensures WindowsAfter(w, s[root])[a].decoration.Some? ==>
              exists i: nat :: DecorationAt(s', i, WindowsAfter(w, s[root])[a])
  {
    hide Family, SameOwner;
    var w' := WindowsAfter(w, s[root]);
    assert OpenAt(w, a);
    var i: nat :| ContentAt(s, i, w[a]);
    AttachedIsDecoration(s, w, last, root, i);
    assert ContentAt(s', i, w'[a]);
    if w'[a].decoration.Some? {
      var d: nat :| DecorationAt(s, d, w[a]);
      AttachedIsDecoration(s, w, last, root, d);
      assert DecorationAt(s', d, w'[a]);
    }
  }

  lemma AttachedIsDecoration(s: Surfaces, w: Windows, last: nat, root: nat, j: nat)
    requires HandlesDistinct(s) && WindowsHold(s, w) && WindowIds(w, last) && Live(s, root) && Live(s, j)
    ensures Attached(s, w, root, j) ==> s[j].isDecoration && s[j].window == s[root].window && !s[root].isDecoration
  {
    if Attached(s, w, root, j) {
      var a: nat :| OpenAt(w, a) && w[a].id == s[root].window && w[a].decoration == Some(s[j].handle);
      var d: nat :| DecorationAt(s, d, w[a]);
      assert Names(s, d, s[j].handle) && Names(s, j, s[j].handle);
    }
  }
}
