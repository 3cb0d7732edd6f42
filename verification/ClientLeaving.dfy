/**
What goes when a client leaves: first its windows and everything on them, then
the decorations it made for the windows of others. Both passes destroy one
surface after another; together they remove an exactly described part.
*/
module ClientLeaving {
  import opened Base
  import opened SurfaceTable

  /** The content of the window belongs to the client. */
  predicate OwnContent(s: Surfaces, w: Window, client: nat) {
    exists c: nat :: c < |s| && ContentAt(s, c, w) && s[c].owner == client
  }

  /** The client has made a decoration for the window with that id, attached or not. */
  predicate OwnDecoration(s: Surfaces, id: nat, client: nat) {
    exists d: nat :: d < |s| && DecorationOf(s, d, id, client)
  }

  predicate DecorationOf(s: Surfaces, d: nat, id: nat, client: nat) {
    Live(s, d) && s[d].isDecoration && s[d].owner == client && s[d].window == id
  }

  /** Surface `i` is the decoration attached to a window of the client. */
  ghost predicate Dragged(s: Surfaces, w: Windows, client: nat, i: nat) {
    Live(s, i) && exists a: nat :: OpenAt(w, a) && w[a].decoration == Some(s[i].handle) && OwnContent(s, w[a], client)
  }

  /** What is left of a window: its own content takes it away, a decoration of the client clears its decoration. */
  function WindowLeft(s: Surfaces, w: Window, client: nat): Window {
    if !w.live then w
    else if OwnContent(s, w, client) then EMPTY_WINDOW
    else if OwnDecoration(s, w.id, client) then w.(decoration := None, decorator := 0)
    else if w.decorator == client then w.(decorator := 0)
    else w
  }

  /** Exactly the client's surfaces and the decorations of its windows are reset, and the windows follow. */
  ghost predicate Departed(s: Surfaces, w: Windows, client: nat, s': Surfaces, w': Windows) {
    && |s'| == |s| && |w'| == |w|
    && (forall i: nat :: i < |s| ==>
          s'[i] == if Live(s, i) && (s[i].owner == client || Dragged(s, w, client, i)) then s[i].Reset() else s[i])
    && (forall a: nat :: a < |w| ==> w'[a] == WindowLeft(s, w[a], client))
  }

  // Trees of one client.

  lemma {:induction false} ChainHasOneOwner(s: Surfaces, path: seq<nat>, k: nat)
    requires SameOwner(s) && Chain(s, path) && k < |path|
    ensures s[path[k]].owner == s[path[0]].owner
  {
    if k > 0 { ChainHasOneOwner(s, path, k - 1); }
  }

  /** A tree belongs to one client, and below its root there are only popups. */
  lemma TreeIsOwn(s: Surfaces, issued: map<nat, nat>, root: nat, j: nat)
    requires SameOwner(s) && Family(s, issued) && InTree(s, root, j)
    ensures Live(s, j) && s[j].owner == s[root].owner
    ensures j != root ==> s[j].role == Popup && !s[j].isDecoration && s[j].window == 0
  {
    var path :| Links(s, path, root, j);
    ChainHasOneOwner(s, path, |path| - 1);
    assert j != root ==> |path| > 1 && s[path[|path| - 1]].parent == Some(s[path[|path| - 2]].handle);
  }

  /** A surface that carries the id of an open window and is no decoration is its content. */
  lemma RootIsContent(s: Surfaces, w: Windows, issued: map<nat, nat>, last: nat, root: nat, a: nat)
    requires Sound(s, w, issued, last) && Live(s, root) && !s[root].isDecoration
    requires OpenAt(w, a) && w[a].id == s[root].window
    ensures ContentAt(s, root, w[a])
  {
    var b: nat :| OpenAt(w, b) && w[b].id == s[root].window && w[b].content == s[root].handle;
    var k: nat :| ContentAt(s, k, w[a]);
    assert Names(s, k, w[a].content) && Names(s, root, w[a].content);
  }

  lemma DraggedIsDecoration(s: Surfaces, w: Windows, issued: map<nat, nat>, last: nat, client: nat, i: nat)
    requires Sound(s, w, issued, last) && Dragged(s, w, client, i)
    ensures s[i].isDecoration
    ensures exists a: nat :: OpenAt(w, a) && DecorationAt(s, i, w[a]) && OwnContent(s, w[a], client)
  {
    hide Family, SameOwner, ContentsHeld, OwnContent, ContentAt;
    var a: nat :| OpenAt(w, a) && w[a].decoration == Some(s[i].handle) && OwnContent(s, w[a], client);
    var d: nat :| DecorationAt(s, d, w[a]);
    assert Names(s, d, s[i].handle) && Names(s, i, s[i].handle);
  }

  /**
  A window can lose its attachment while the attached decoration `d` lives on: exactly when some other decoration
  made for that window is destroyed.
  */
  lemma AttachmentLostIff(s: Surfaces, w: Windows, issued: map<nat, nat>, last: nat, root: nat, s': Surfaces, w': Windows,
                          a: nat, d: nat)
    requires Sound(s, w, issued, last) && Live(s, root) && Destroyed(s, w, root, s', w')
    requires OpenAt(w, a) && DecorationAt(s, d, w[a])
    ensures Live(s', d) && OpenAt(w', a) && w'[a].decoration.None?
            <==> root != d && s[root].isDecoration && s[root].window == w[a].id
  {
    RootInTree(s, root);
    if InTree(s, root, d) { TreeIsOwn(s, issued, root, d); }
    assert w'[a] == WindowAfter(w[a], s[root]);
  }

  /** A window closes exactly when its content is destroyed; else it changes only with a decoration made for it. */
  lemma WindowClosesIff(s: Surfaces, w: Windows, issued: map<nat, nat>, last: nat, root: nat, s': Surfaces, w': Windows,
                        a: nat)
    requires Sound(s, w, issued, last) && Live(s, root) && Destroyed(s, w, root, s', w') && OpenAt(w, a)
    ensures !OpenAt(w', a) <==> ContentAt(s, root, w[a])
    ensures OpenAt(w', a) && w'[a] != w[a] ==> s[root].isDecoration && s[root].window == w[a].id
  {
    assert w'[a] == WindowAfter(w[a], s[root]);
    if !s[root].isDecoration && s[root].window == w[a].id { RootIsContent(s, w, issued, last, root, a); }
  }

  // The first pass: the client's windows, popups and other surfaces of its own.

  ghost predicate ContentGone(s0: Surfaces, s: Surfaces, w0: Windows, a: nat) {
    OpenAt(w0, a) && exists c: nat :: ContentAt(s0, c, w0[a]) && !Live(s, c)
  }

  ghost predicate LosesContent(s: Surfaces, w: Windows, client: nat, i: nat) {
    Live(s, i) && ((s[i].owner == client && !s[i].isDecoration) || Dragged(s, w, client, i))
  }

  ghost predicate LosingContents(s0: Surfaces, w0: Windows, client: nat, s: Surfaces, w: Windows) {
    && |s| == |s0| && |w| == |w0|
    && (forall i: nat :: i < |s0| ==> s[i] == s0[i] || (s[i] == s0[i].Reset() && LosesContent(s0, w0, client, i)))
    && (forall a: nat :: a < |w0| ==> w[a] == if ContentGone(s0, s, w0, a) then EMPTY_WINDOW else w0[a])
    && (forall a: nat, d: nat :: ContentGone(s0, s, w0, a) && DecorationAt(s0, d, w0[a]) ==> !Live(s, d))
  }

  lemma ContentsStart(s: Surfaces, w: Windows, client: nat)
    ensures LosingContents(s, w, client, s, w)
  {
  }

  lemma ContentStep(s0: Surfaces, w0: Windows, client: nat, s: Surfaces, w: Windows, issued: map<nat, nat>, last: nat,
                    root: nat, s': Surfaces, w': Windows)
    requires LosingContents(s0, w0, client, s, w) && Sound(s, w, issued, last)
    requires Live(s, root) && s[root].owner == client && !s[root].isDecoration && Destroyed(s, w, root, s', w')
    ensures LosingContents(s0, w0, client, s', w')
  {
    hide LosingContents;
    StepSurfaces(s0, w0, client, s, w, issued, last, root, s', w');
    StepWindows(s0, w0, client, s, w, issued, last, root, s', w');
    StepDecorations(s0, w0, client, s, w, issued, last, root, s', w');
    SizesKept(s0, w0, client, s, w, root, s', w');
    LosingIs(s0, w0, client, s', w');
  }

  lemma SizesKept(s0: Surfaces, w0: Windows, client: nat, s: Surfaces, w: Windows, root: nat, s': Surfaces, w': Windows)
    requires LosingContents(s0, w0, client, s, w) && Live(s, root) && Destroyed(s, w, root, s', w')
    ensures |s'| == |s0| && |w'| == |w0|
  {
  }

  lemma LosingIs(s0: Surfaces, w0: Windows, client: nat, s: Surfaces, w: Windows)
    requires |s| == |s0| && |w| == |w0|
    requires forall i: nat :: i < |s0| ==> s[i] == s0[i] || (s[i] == s0[i].Reset() && LosesContent(s0, w0, client, i))
    requires forall a: nat :: a < |w0| ==> w[a] == if ContentGone(s0, s, w0, a) then EMPTY_WINDOW else w0[a]
    requires forall a: nat, d: nat :: ContentGone(s0, s, w0, a) && DecorationAt(s0, d, w0[a]) ==> !Live(s, d)
    ensures LosingContents(s0, w0, client, s, w)
  {
    hide ContentGone, LosesContent;
  }

  lemma StepSurfaces(s0: Surfaces, w0: Windows, client: nat, s: Surfaces, w: Windows, issued: map<nat, nat>, last: nat,
                     root: nat, s': Surfaces, w': Windows)
    requires LosingContents(s0, w0, client, s, w) && Sound(s, w, issued, last)
    requires Live(s, root) && s[root].owner == client && !s[root].isDecoration && Destroyed(s, w, root, s', w')
    ensures |s'| == |s0|
    ensures forall i: nat :: i < |s0| ==> s'[i] == s0[i] || (s'[i] == s0[i].Reset() && LosesContent(s0, w0, client, i))
  {
    hide Family, SameOwner, HandlesDistinct, WindowsHold, ContentsHeld, InTree;
    forall i: nat | i < |s0| ensures s'[i] == s0[i] || (s'[i] == s0[i].Reset() && LosesContent(s0, w0, client, i)) {
      if InTree(s, root, i) {
        TreeIsOwn(s, issued, root, i);
      } else if Attached(s, w, root, i) {
        var a: nat :| OpenAt(w, a) && w[a].id == s[root].window && w[a].decoration == Some(s[i].handle);
        RootIsContent(s, w, issued, last, root, a);
        assert w[a] == w0[a] && s[root] == s0[root] && s[i] == s0[i];
        assert ContentAt(s0, root, w0[a]) && OwnContent(s0, w0[a], client);
        assert Dragged(s0, w0, client, i);
      }
    }
  }

  /** A content surface other than the root survives the destruction of the root. */
  lemma ContentStays(s: Surfaces, w: Windows, issued: map<nat, nat>, last: nat, root: nat, s': Surfaces, w': Windows, c: nat)
    requires Sound(s, w, issued, last) && Live(s, root) && Destroyed(s, w, root, s', w')
    requires Live(s, c) && s[c].role == Toplevel && !s[c].isDecoration && c != root
    ensures Live(s', c)
  {
    hide WindowsAfter;
    if InTree(s, root, c) { TreeIsOwn(s, issued, root, c); }
    AttachedIsDecoration(s, w, last, root, c);
  }

  lemma StepWindows(s0: Surfaces, w0: Windows, client: nat, s: Surfaces, w: Windows, issued: map<nat, nat>, last: nat,
                    root: nat, s': Surfaces, w': Windows)
    requires LosingContents(s0, w0, client, s, w) && Sound(s, w, issued, last)
    requires Live(s, root) && s[root].owner == client && !s[root].isDecoration && Destroyed(s, w, root, s', w')
    ensures |w'| == |w0|
    ensures forall a: nat :: a < |w0| ==> w'[a] == if ContentGone(s0, s', w0, a) then EMPTY_WINDOW else w0[a]
  {
    hide Sound, Destroyed, LosesContent;
    RootDies(s, w, root, s', w');
    forall a: nat | a < |w0| ensures w'[a] == if ContentGone(s0, s', w0, a) then EMPTY_WINDOW else w0[a] {
      assert w'[a] == WindowAfter(w[a], s[root]);
      if ContentGone(s0, s, w0, a) {
        var c: nat :| ContentAt(s0, c, w0[a]) && !Live(s, c);
        assert !Live(s', c);
      } else if OpenAt(w0, a) && w0[a].id == s[root].window {
        RootIsContent(s, w, issued, last, root, a);
        assert ContentAt(s0, root, w0[a]);
      } else {
        forall c: nat | OpenAt(w0, a) && ContentAt(s0, c, w0[a]) ensures Live(s', c) {
          assert Live(s, c);
          ContentStays(s, w, issued, last, root, s', w', c);
        }
      }
    }
  }

  lemma RootDies(s: Surfaces, w: Windows, root: nat, s': Surfaces, w': Windows)
    requires Live(s, root) && Destroyed(s, w, root, s', w')
    ensures |s'| == |s| && |w'| == |w| && !Live(s', root) && forall i: nat :: Live(s', i) ==> Live(s, i)
    ensures forall a: nat :: a < |w| ==> w'[a] == WindowAfter(w[a], s[root])
  {
    RootInTree(s, root);
  }

  lemma StepDecorations(s0: Surfaces, w0: Windows, client: nat, s: Surfaces, w: Windows, issued: map<nat, nat>, last: nat,
                        root: nat, s': Surfaces, w': Windows)
    requires LosingContents(s0, w0, client, s, w) && Sound(s, w, issued, last)
    requires Live(s, root) && s[root].owner == client && !s[root].isDecoration && Destroyed(s, w, root, s', w')
    ensures forall a: nat, d: nat :: ContentGone(s0, s', w0, a) && DecorationAt(s0, d, w0[a]) ==> !Live(s', d)
  {
    hide Sound, LosesContent;
    RootDies(s, w, root, s', w');
    forall a: nat, d: nat | ContentGone(s0, s', w0, a) && DecorationAt(s0, d, w0[a]) ensures !Live(s', d) {
      if Live(s, d) && !ContentGone(s0, s, w0, a) {
        var c: nat :| ContentAt(s0, c, w0[a]) && !Live(s', c);
        assert Live(s, c);
        if c != root { ContentStays(s, w, issued, last, root, s', w', c); }
        assert w[a] == w0[a];
        assert Attached(s, w, root, d);
      }
    }
  }

  /** Once none of its own surfaces is left but decorations, the first pass is complete. */
  lemma ContentsDone(s0: Surfaces, w0: Windows, client: nat, s: Surfaces, w: Windows, issued: map<nat, nat>, last: nat)
    requires Sound(s0, w0, issued, last) && LosingContents(s0, w0, client, s, w)
    requires forall i: nat :: Live(s, i) ==> s[i].owner != client || s[i].isDecoration
    ensures forall i: nat :: i < |s0| ==> s[i] == if LosesContent(s0, w0, client, i) then s0[i].Reset() else s0[i]
    ensures forall a: nat :: a < |w0| ==>
      w[a] == if OpenAt(w0, a) && OwnContent(s0, w0[a], client) then EMPTY_WINDOW else w0[a]
  {
    hide Sound;
    forall a: nat | OpenAt(w0, a) ensures ContentGone(s0, s, w0, a) <==> OwnContent(s0, w0[a], client) {
      if ContentGone(s0, s, w0, a) {
        var c: nat :| ContentAt(s0, c, w0[a]) && !Live(s, c);
        if Dragged(s0, w0, client, c) { DraggedIsDecoration(s0, w0, issued, last, client, c); }
      }
    }
    forall i: nat | i < |s0| && LosesContent(s0, w0, client, i) ensures s[i] == s0[i].Reset() {
      assert Live(s, i) ==> s[i] == s0[i];
      if Dragged(s0, w0, client, i) {
        DraggedIsDecoration(s0, w0, issued, last, client, i);
        var a: nat :| OpenAt(w0, a) && DecorationAt(s0, i, w0[a]) && OwnContent(s0, w0[a], client);
        assert ContentGone(s0, s, w0, a);
      }
    }
  }

  // The second pass: the decorations it made for others.

  ghost predicate DecorationGone(s1: Surfaces, s: Surfaces, id: nat, client: nat) {
    exists d: nat :: DecorationOf(s1, d, id, client) && !Live(s, d)
  }

  ghost predicate LosingDecorations(s1: Surfaces, w1: Windows, client: nat, s: Surfaces, w: Windows) {
    && |s| == |s1| && |w| == |w1|
    && (forall i: nat :: i < |s1| ==>
          s[i] == s1[i] || (s[i] == s1[i].Reset() && Live(s1, i) && s1[i].owner == client && s1[i].isDecoration))
    && (forall a: nat :: a < |w1| ==>
          w[a] == if w1[a].live && DecorationGone(s1, s, w1[a].id, client)
                  then w1[a].(decoration := None, decorator := 0) else w1[a])
  }

  lemma DecorationsStart(s: Surfaces, w: Windows, client: nat)
    ensures LosingDecorations(s, w, client, s, w)
  {
  }

  lemma DecorationStep(s1: Surfaces, w1: Windows, client: nat, s: Surfaces, w: Windows, issued: map<nat, nat>, last: nat,
                       root: nat, s': Surfaces, w': Windows)
    requires LosingDecorations(s1, w1, client, s, w) && Sound(s, w, issued, last)
    requires forall i: nat :: Live(s1, i) ==> s1[i].owner != client || s1[i].isDecoration
    requires Live(s, root) && s[root].owner == client && s[root].isDecoration && Destroyed(s, w, root, s', w')
    ensures LosingDecorations(s1, w1, client, s', w')
  {
    OnlyRootFalls(s1, w1, client, s, w, issued, last, root, s', w');
    hide Sound, Destroyed, DecorationOf;
    RootDies(s, w, root, s', w');
    assert DecorationOf(s1, root, s[root].window, client) by { DecorationIs(s1, s, root, client); }
    forall a: nat | a < |w1|
      ensures w'[a] == if w1[a].live && DecorationGone(s1, s', w1[a].id, client)
                       then w1[a].(decoration := None, decorator := 0) else w1[a]
    {
      if w1[a].live && w1[a].id != s[root].window {
        OtherDecorations(s1, s, s', root, w1[a].id, client);
      }
    }
  }

  lemma DecorationIs(s1: Surfaces, s: Surfaces, d: nat, client: nat)
    requires |s| == |s1| && Live(s, d) && s[d] == s1[d] && s[d].isDecoration && s[d].owner == client
    ensures DecorationOf(s1, d, s[d].window, client)
  {
  }

  lemma OtherDecorations(s1: Surfaces, s: Surfaces, s': Surfaces, root: nat, id: nat, client: nat)
    requires |s| == |s1| == |s'| && Live(s, root) && s[root] == s1[root] && s[root].window != id
    requires forall i: nat :: i < |s| && i != root ==> s'[i] == s[i]
    ensures DecorationGone(s1, s', id, client) <==> DecorationGone(s1, s, id, client)
  {
    if DecorationGone(s1, s', id, client) {
      var d: nat :| DecorationOf(s1, d, id, client) && !Live(s', d);
      assert d != root && !Live(s, d);
    }
    if DecorationGone(s1, s, id, client) {
      var d: nat :| DecorationOf(s1, d, id, client) && !Live(s, d);
      assert d != root && !Live(s', d);
    }
  }

  /** A decoration of a client without other surfaces falls alone. */
  lemma OnlyRootFalls(s1: Surfaces, w1: Windows, client: nat, s: Surfaces, w: Windows, issued: map<nat, nat>, last: nat,
                      root: nat, s': Surfaces, w': Windows)
    requires LosingDecorations(s1, w1, client, s, w) && Sound(s, w, issued, last)
    requires forall i: nat :: Live(s1, i) ==> s1[i].owner != client || s1[i].isDecoration
    requires Live(s, root) && s[root].owner == client && s[root].isDecoration && Destroyed(s, w, root, s', w')
    ensures |s'| == |s| && s'[root] == s[root].Reset() && s[root] == s1[root]
    ensures forall i: nat :: i < |s| && i != root ==> s'[i] == s[i]
  {
    hide DecorationGone;
    RootInTree(s, root);
    forall i: nat | i < |s| && i != root ensures s'[i] == s[i] {
      if InTree(s, root, i) {
        TreeIsOwn(s, issued, root, i);
      }
    }
  }

  lemma DecorationsDone(s1: Surfaces, w1: Windows, client: nat, s: Surfaces, w: Windows)
    requires LosingDecorations(s1, w1, client, s, w)
    requires forall i: nat :: Live(s, i) ==> s[i].owner != client || !s[i].isDecoration
    ensures forall i: nat :: i < |s1| ==>
      s[i] == if Live(s1, i) && s1[i].owner == client && s1[i].isDecoration then s1[i].Reset() else s1[i]
    ensures forall a: nat :: a < |w1| ==>
      w[a] == if w1[a].live && OwnDecoration(s1, w1[a].id, client) then w1[a].(decoration := None, decorator := 0) else w1[a]
  {
    forall a: nat | a < |w1| ensures DecorationGone(s1, s, w1[a].id, client) <==> OwnDecoration(s1, w1[a].id, client) {
    }
  }

  // Both passes, and the decorators at the end.

  /** After the first pass a window that stayed has lost none of the decorations the client made for it. */
  lemma DecorationsSurvive(s0: Surfaces, w0: Windows, client: nat, s1: Surfaces, issued: map<nat, nat>, last: nat, a: nat)
    requires Sound(s0, w0, issued, last) && |s1| == |s0|
    requires forall i: nat :: i < |s0| ==> s1[i] == if LosesContent(s0, w0, client, i) then s0[i].Reset() else s0[i]
    requires OpenAt(w0, a) && !OwnContent(s0, w0[a], client)
    ensures OwnDecoration(s1, w0[a].id, client) <==> OwnDecoration(s0, w0[a].id, client)
  {
    hide OwnContent, HandlesDistinct, Family, SameOwner, ContentsHeld, WindowsHold;
    forall d: nat | DecorationOf(s0, d, w0[a].id, client) ensures s1[d] == s0[d] {
      if Dragged(s0, w0, client, d) {
        DraggedIsDecoration(s0, w0, issued, last, client, d);
      }
    }
    if OwnDecoration(s0, w0[a].id, client) {
      var d: nat :| d < |s0| && DecorationOf(s0, d, w0[a].id, client);
      assert DecorationOf(s1, d, w0[a].id, client);
    }
    if OwnDecoration(s1, w0[a].id, client) {
      var d: nat :| d < |s1| && DecorationOf(s1, d, w0[a].id, client);
      assert DecorationOf(s0, d, w0[a].id, client);
    }
  }

  /** The two passes and the final clearing of the client as decorator are the departure described. */
  lemma PassesDepart(s0: Surfaces, w0: Windows, client: nat, s1: Surfaces, w1: Windows, s2: Surfaces, w2: Windows,
                     w3: Windows, issued: map<nat, nat>, last: nat)
    requires Sound(s0, w0, issued, last) && client != 0
    requires LosingContents(s0, w0, client, s1, w1) && LosingDecorations(s1, w1, client, s2, w2)
    requires forall i: nat :: Live(s1, i) ==> s1[i].owner != client || s1[i].isDecoration
    requires forall i: nat :: Live(s2, i) ==> s2[i].owner != client || !s2[i].isDecoration
    requires |w3| == |w2| && forall a: nat :: a < |w2| ==>
      w3[a] == if w2[a].live && w2[a].decorator == client then w2[a].(decorator := 0) else w2[a]
    ensures Departed(s0, w0, client, s2, w3)
  {
    hide Sound, OwnContent, OwnDecoration, Dragged;
    ContentsDone(s0, w0, client, s1, w1, issued, last);
    DecorationsDone(s1, w1, client, s2, w2);
    hide LosingContents, LosingDecorations;
    LosingSizes(s0, w0, client, s1, w1, s2, w2);
    forall a: nat | a < |w0| ensures w3[a] == WindowLeft(s0, w0[a], client) {
      if OpenAt(w0, a) && !OwnContent(s0, w0[a], client) {
        DecorationsSurvive(s0, w0, client, s1, issued, last, a);
      }
    }
  }

  lemma LosingSizes(s0: Surfaces, w0: Windows, client: nat, s1: Surfaces, w1: Windows, s2: Surfaces, w2: Windows)
    requires LosingContents(s0, w0, client, s1, w1) && LosingDecorations(s1, w1, client, s2, w2)
    ensures |s0| == |s1| == |s2| && |w0| == |w1| == |w2|
  {
  }
}
