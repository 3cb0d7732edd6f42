/**
Keyboard evidence for a text-mode approval: the shortcut of a choice, released,
then a new press of Enter. The flags kept by the service are proved equivalent
to a pattern on the whole trace of key events since arming.
*/
module TextEvidence {
  import opened Base
  import opened ConsentModel

  datatype Key = Key(transition: Transition, control: nat)

  /** The scan codes that select a choice. */
  function Shortcut(control: nat): Option<Choice> {
    if control == 0x15 then Some(AllowOnce)
    else if control == 0x1e then Some(AllowPersistently)
    else None
  }

  predicate IsEnter(control: nat) { control == 0x1c || control == 0x9c }

  datatype Flags = Flags(selected: Option<Choice>, confirmed: Option<Choice>, released: bool)

  function Fresh(released: bool): Flags { Flags(None, None, released) }

  function Next(f: Flags, k: Key): Flags {
    match k.transition
    case AllReleased => f.(released := true)
    case PhysicalPress =>
      if !f.released then Flags(None, None, false)
      else if IsEnter(k.control) then Flags(None, f.selected, false)
      else Flags(Shortcut(k.control), None, false)
    case Release => f
    case _ => f.(selected := None, confirmed := None)
  }

  /** The flags after the first `n` events since arming. */
  function After(released: bool, t: seq<Key>, n: nat): Flags
    requires n <= |t|
  {
    if n == 0 then Fresh(released) else Next(After(released, t, n - 1), t[n - 1])
  }

  lemma {:induction false} AfterPrefix(released: bool, t: seq<Key>, u: seq<Key>, n: nat)
    requires t <= u && n <= |t|
    ensures After(released, t, n) == After(released, u, n)
  {
    if n > 0 { AfterPrefix(released, t, u, n - 1); }
  }

  lemma AfterExtends(released: bool, t: seq<Key>, k: Key)
    ensures After(released, t + [k], |t| + 1) == Next(After(released, t, |t|), k)
  {
    AfterPrefix(released, t, t + [k], |t|);
  }

  class Evidence {
    var selected: Option<Choice>
    var confirmed: Option<Choice>
    var released: bool

    function Value(): Flags
      reads this
    {
      Flags(selected, confirmed, released)
    }

    constructor ()
      ensures Value() == Flags(None, None, false)
    {
      selected, confirmed, released := None, None, false;
    }

    method Arm(released: bool)
      modifies this
      ensures Value() == Fresh(released)
    {
      selected, confirmed, this.released := None, None, released;
    }

    method Observe(k: Key)
      modifies this
      ensures Value() == Next(old(Value()), k)
    {
      match k.transition
      case AllReleased => released := true;
      case PhysicalPress =>
        confirmed := None;
        if released {
          if k.control == 0x15 {
            selected := Some(AllowOnce);
          } else if k.control == 0x1e {
            selected := Some(AllowPersistently);
          } else if k.control == 0x1c || k.control == 0x9c {
            confirmed, selected := selected, None;
          } else {
            selected := None;
          }
        } else {
          selected := None;
        }
        released := false;
      case Release =>
      case _ => selected, confirmed := None, None;
    }

    predicate Accepts(choice: Choice)
      reads this
    {
      confirmed == Some(choice)
    }

    /** Arm once, feed a whole trace, and ask: the answer is the trace pattern. */
    method Judge(released: bool, t: seq<Key>, choice: Choice) returns (accepted: bool)
      modifies this
      ensures accepted <==> Confirms(released, t, |t|, choice)
    {
      Arm(released);
      for n := 0 to |t|
        invariant Value() == After(released, t, n)
      {
        Observe(t[n]);
      }
      AcceptsIsPattern(released, t, |t|, choice);
      accepted := Accepts(choice);
    }
  }

  // The same thing said about the trace alone.

  predicate IsPress(k: Key) { k.transition == PhysicalPress }

  predicate IsLetGo(k: Key) { k.transition == AllReleased || k.transition == Release }

  predicate NoPress(t: seq<Key>, from: nat, to: nat)
    requires to <= |t|
  {
    forall k :: from <= k < to ==> !IsPress(t[k])
  }

  predicate OnlyLetGo(t: seq<Key>, from: nat, to: nat)
    requires to <= |t|
  {
    forall k :: from <= k < to ==> IsLetGo(t[k])
  }

  /** Every key is up just before event `n`. */
  predicate AllUp(released: bool, t: seq<Key>, n: nat)
    requires n <= |t|
  {
    || (released && NoPress(t, 0, n))
    || exists k :: 0 <= k < n && t[k].transition == AllReleased && NoPress(t, k, n)
  }

  /** Event `i` presses the shortcut of `c` with every other key up. */
  predicate Selects(released: bool, t: seq<Key>, i: nat, c: Choice)
    requires i < |t|
  {
    IsPress(t[i]) && Shortcut(t[i].control) == Some(c) && AllUp(released, t, i)
  }

  /** `c` is selected after `n` events: its shortcut was the last event other than keys going up. */
  ghost predicate Selected(released: bool, t: seq<Key>, n: nat, c: Choice)
    requires n <= |t|
  {
    exists i: nat :: i < n && Selects(released, t, i, c) && OnlyLetGo(t, i + 1, n)
  }

  /**
  `c` is confirmed after `n` events: its shortcut at `i`, then only keys going up including one
  moment with all of them up, then Enter at `j`, then only keys going up.
  */
  predicate ConfirmedBy(released: bool, t: seq<Key>, n: nat, c: Choice, i: nat, j: nat)
    requires n <= |t|
  {
    && i < j < n
    && Selects(released, t, i, c)
    && OnlyLetGo(t, i + 1, j)
    && (exists k :: i < k < j && t[k].transition == AllReleased)
    && IsPress(t[j]) && IsEnter(t[j].control)
    && OnlyLetGo(t, j + 1, n)
  }

  ghost predicate Confirms(released: bool, t: seq<Key>, n: nat, c: Choice)
    requires n <= |t|
  {
    exists i, j :: ConfirmedBy(released, t, n, c, i, j)
  }

  lemma {:induction false} ReleasedIsAllUp(released: bool, t: seq<Key>, n: nat)
    requires n <= |t|
    ensures After(released, t, n).released <==> AllUp(released, t, n)
  {
    if n > 0 {
      ReleasedIsAllUp(released, t, n - 1);
      if t[n - 1].transition == AllReleased {
        assert NoPress(t, n - 1, n);
      } else if !IsPress(t[n - 1]) && AllUp(released, t, n - 1) && !(released && NoPress(t, 0, n - 1)) {
        var k :| 0 <= k < n - 1 && t[k].transition == AllReleased && NoPress(t, k, n - 1);
        assert NoPress(t, k, n);
      } else if AllUp(released, t, n) && !(released && NoPress(t, 0, n)) {
        var k :| 0 <= k < n && t[k].transition == AllReleased && NoPress(t, k, n);
        assert NoPress(t, k, n - 1);
      }
    }
  }

  lemma {:induction false} SelectedIsPattern(released: bool, t: seq<Key>, n: nat, c: Choice)
    requires n <= |t|
    ensures After(released, t, n).selected == Some(c) <==> Selected(released, t, n, c)
  {
    hide AllUp;
    if n > 0 {
      SelectedIsPattern(released, t, n - 1, c);
      ReleasedIsAllUp(released, t, n - 1);
      if After(released, t, n).selected == Some(c) {
        if IsPress(t[n - 1]) {
          assert Selects(released, t, n - 1, c) && OnlyLetGo(t, n, n);
        } else {
          var i: nat :| i < n - 1 && Selects(released, t, i, c) && OnlyLetGo(t, i + 1, n - 1);
          assert OnlyLetGo(t, i + 1, n);
        }
      }
      if Selected(released, t, n, c) {
        var i: nat :| i < n && Selects(released, t, i, c) && OnlyLetGo(t, i + 1, n);
        if i < n - 1 {
          assert IsLetGo(t[n - 1]) && OnlyLetGo(t, i + 1, n - 1);
        }
      }
    }
  }

  /** Between the shortcut and a press that finds every key up there is a moment with every key up. */
  lemma UpMomentBetween(released: bool, t: seq<Key>, i: nat, j: nat, c: Choice)
    requires i < j <= |t| && Selects(released, t, i, c) && OnlyLetGo(t, i + 1, j)
    ensures AllUp(released, t, j) <==> exists k :: i < k < j && t[k].transition == AllReleased
  {
    if k :| i < k < j && t[k].transition == AllReleased {
      assert NoPress(t, k, j);
    }
    if k :| 0 <= k < j && t[k].transition == AllReleased && NoPress(t, k, j) {
      assert k > i;
    }
  }

  lemma ConfirmedStep(released: bool, t: seq<Key>, m: nat, c: Choice)
    requires m < |t|
    requires Confirms(released, t, m + 1, c)
    ensures if IsPress(t[m])
            then IsEnter(t[m].control) && AllUp(released, t, m) && Selected(released, t, m, c)
            else IsLetGo(t[m]) && Confirms(released, t, m, c)
  {
    hide AllUp, Selects;
    var i, j :| ConfirmedBy(released, t, m + 1, c, i, j);
    if j == m {
      UpMomentBetween(released, t, i, m, c);
    } else {
      assert IsLetGo(t[m]);
      assert ConfirmedBy(released, t, m, c, i, j);
    }
  }

  lemma StepConfirmed(released: bool, t: seq<Key>, m: nat, c: Choice)
    requires m < |t|
    requires if IsPress(t[m])
             then IsEnter(t[m].control) && AllUp(released, t, m) && Selected(released, t, m, c)
             else IsLetGo(t[m]) && Confirms(released, t, m, c)
    ensures Confirms(released, t, m + 1, c)
  {
    hide AllUp, Selects;
    if IsPress(t[m]) {
      var i: nat :| i < m && Selects(released, t, i, c) && OnlyLetGo(t, i + 1, m);
      UpMomentBetween(released, t, i, m, c);
      assert ConfirmedBy(released, t, m + 1, c, i, m);
    } else {
      var i, j :| ConfirmedBy(released, t, m, c, i, j);
      assert ConfirmedBy(released, t, m + 1, c, i, j);
    }
  }

  lemma {:induction false} AcceptsIsPattern(released: bool, t: seq<Key>, n: nat, c: Choice)
    requires n <= |t|
    ensures After(released, t, n).confirmed == Some(c) <==> Confirms(released, t, n, c)
  {
    hide AllUp, Selected, Confirms;
    if n == 0 {
      NothingConfirmed(released, t, c);
    } else {
      var m := n - 1;
      AcceptsIsPattern(released, t, m, c);
      SelectedIsPattern(released, t, m, c);
      ReleasedIsAllUp(released, t, m);
      if After(released, t, n).confirmed == Some(c) { StepConfirmed(released, t, m, c); }
      if Confirms(released, t, n, c) { ConfirmedStep(released, t, m, c); }
    }
  }

  lemma NothingConfirmed(released: bool, t: seq<Key>, c: Choice)
    ensures !Confirms(released, t, 0, c)
  {
  }
}
