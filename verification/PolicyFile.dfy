/**
Crash-safe replacement of a policy file: a temporary file, the previous file and
two renames. Renames and removals are atomic and take effect in order; a write
may stop after any part; any step may fail.
*/
module PolicyFile {
  import opened Base

  type Contents = seq<byte>

  datatype Files = Files(current: Option<Contents>, temporary: Option<Contents>, previous: Option<Contents>)

  /** What a reader gets after recovery: the current file, or the previous one when there is no current file. */
  function Effective(f: Files): Option<Contents> {
    if f.current.Some? then f.current else f.previous
  }

  /** The state a completed recovery leaves. */
  function Recovered(f: Files): Files { Files(Effective(f), None, None) }

  /** How the outside world behaves: which steps fail, and what parts of a file a write leaves on the way. */
  datatype World = World(fails: nat -> bool, parts: seq<Contents>)

  // Every procedure as a function of the log it starts from and the world around it.

  /** The files, how many primitive steps were tried, and every state a crash could have left, the present one last. */
  datatype Log = Log(files: Files, steps: nat, visited: seq<Files>)
  {
    predicate Valid() { |visited| > 0 && visited[|visited| - 1] == files }
  }

  function Start(f: Files): Log { Log(f, 0, [f]) }

  /** A primitive step: it fails and changes nothing, or takes effect at once. */
  function Stepped(l: Log, w: World, next: Files): (Log, bool) {
    if w.fails(l.steps) then (l.(steps := l.steps + 1), false)
    else (Log(next, l.steps + 1, l.visited + [next]), true)
  }

  /** Looking or syncing: it may fail but changes nothing. */
  function Looked(l: Log, w: World): (Log, bool) { (l.(steps := l.steps + 1), !w.fails(l.steps)) }

  /** The first `n` parts of the temporary file. */
  function Wrote(l: Log, w: World, n: nat): (Log, bool)
    requires n <= |w.parts|
  {
    if n == 0 then (l, true) else
    var (l1, ok) := Wrote(l, w, n - 1);
    if !ok then (l1, false) else Stepped(l1, w, l1.files.(temporary := Some(w.parts[n - 1])))
  }

  function Written(l: Log, w: World, bytes: Contents): (Log, bool) {
    var (l1, ok) := Wrote(l, w, |w.parts|);
    if !ok then (l1, false) else Stepped(l1, w, l1.files.(temporary := Some(bytes)))
  }

  /** The previous file is put back, or removed when there is a current one; then the directory is synced. */
  function Restored(l: Log, w: World): (Log, bool) {
    if l.files.previous.None? then (l, true) else
    var next := l.files.(current := Effective(l.files), previous := None);
    var (l1, ok) := Stepped(l, w, next);
    if !ok then (l1, false) else Looked(l1, w)
  }

  function Cleaned(l: Log, w: World): (Log, bool) {
    if l.files.temporary.None? then (l, true) else
    var (l1, ok) := Stepped(l, w, l.files.(temporary := None));
    if !ok then (l1, false) else Looked(l1, w)
  }

  function Recovering(l: Log, w: World): (Log, bool) {
    var (l1, a) := Looked(l, w);
    if !a then (l1, false) else
    var (l2, b) := Looked(l1, w);
    if !b then (l2, false) else
    var (l3, c) := Restored(l2, w);
    if !c then (l3, false) else
    var (l4, d) := Looked(l3, w);
    if !d then (l4, false) else Cleaned(l4, w)
  }

  function Preparing(l: Log, w: World, bytes: Contents): (Log, bool) {
    var (l1, a) := Recovering(l, w);
    if !a then (l1, false) else
    var (l2, b) := Written(l1, w, bytes);
    if !b then (l2, false) else Looked(l2, w)
  }

  /** Put the previous file back after a failed swap; whether that works is not looked at. */
  function Undone(l: Log, w: World, hadCurrent: bool): Log {
    if hadCurrent then Looked(Stepped(l, w, l.files.(current := l.files.previous, previous := None)).0, w).0
    else Looked(l, w).0
  }

  function Swapping(l: Log, w: World): (Log, bool) {
    var hadCurrent := l.files.current.Some?;
    var (l1, a) := if hadCurrent then Stepped(l, w, l.files.(previous := l.files.current, current := None)) else (l, true);
    if !a then (l1, false) else
    var (l2, b) := Stepped(l1, w, l1.files.(current := l1.files.temporary, temporary := None));
    if !b then (Undone(l2, w, hadCurrent), false) else (l2, true)
  }

  function Replacing(l: Log, w: World, bytes: Contents): (Log, bool) {
    var (l1, a) := Preparing(l, w, bytes);
    if !a then (l1, false) else
    var (l2, b) := Looked(l1, w);
    if !b then (l2, false) else
    var (l3, c) := Swapping(l2, w);
    if !c then (l3, false) else
    var (l4, d) := Looked(l3, w);
    if !d then (l4, false) else
    if l2.files.current.None? then (l4, true) else
    var (l5, e) := Stepped(l4, w, l4.files.(previous := None));
    if !e then (l5, false) else Looked(l5, w)
  }

  // What they do to a reader.

  /** From position `from` a reader gets `before`, and from position `m` on `after`. */
  predicate Turns(visited: seq<Files>, from: nat, m: nat, before: Option<Contents>, after: Option<Contents>) {
    forall i :: from <= i < |visited| ==> Effective(visited[i]) == if i < m then before else after
  }

  /** The log grew, and every new state gives a reader the same. */
  ghost predicate Keeps(l: Log, l': Log) {
    && l'.Valid() && l.visited <= l'.visited && Effective(l'.files) == Effective(l.files)
    && forall i :: |l.visited| <= i < |l'.visited| ==> Effective(l'.visited[i]) == Effective(l.files)
  }

  /** Nothing recovery does, finished or not, changes what a reader gets; finished, it leaves one current file. */
  lemma RecoveryKeeps(l: Log, w: World)
    requires l.Valid()
    ensures var (l', ok) := Recovering(l, w);
      && Keeps(l, l') && (ok ==> l'.files == Recovered(l.files)) && (!ok ==> Failed(w))
  {
    hide Restored, Cleaned;
    var l2 := Looked(Looked(l, w).0, w).0;
    RestoredKeeps(l2, w);
    CleanedKeeps(Looked(Restored(l2, w).0, w).0, w);
  }

  ghost predicate Failed(w: World) { exists n :: w.fails(n) }

  lemma RestoredKeeps(l: Log, w: World)
    requires l.Valid()
    ensures var (l', ok) := Restored(l, w);
      && Keeps(l, l') && l'.files.temporary == l.files.temporary
      && (if ok then l'.files == Files(Effective(l.files), l.files.temporary, None) else Failed(w))
  {
  }

  lemma CleanedKeeps(l: Log, w: World)
    requires l.Valid()
    ensures var (l', ok) := Cleaned(l, w);
      Keeps(l, l') && (if ok then l'.files == l.files.(temporary := None) else Failed(w))
  {
  }

  /** Whatever part is written, the current and the previous file are untouched. */
  ghost predicate OnlyTemporary(l: Log, l': Log) {
    && l'.Valid() && l.visited <= l'.visited
    && l'.files.current == l.files.current && l'.files.previous == l.files.previous
    && forall i :: |l.visited| <= i < |l'.visited| ==>
         l'.visited[i].current == l.files.current && l'.visited[i].previous == l.files.previous
  }

  lemma {:induction false} PartsTouchOnlyTemporary(l: Log, w: World, n: nat)
    requires l.Valid() && n <= |w.parts|
    ensures var (l', ok) := Wrote(l, w, n); OnlyTemporary(l, l') && (!ok ==> Failed(w))
  {
    if n > 0 { PartsTouchOnlyTemporary(l, w, n - 1); }
  }

  lemma WritingTouchesOnlyTemporary(l: Log, w: World, bytes: Contents)
    requires l.Valid()
    ensures var (l', ok) := Written(l, w, bytes);
      OnlyTemporary(l, l') && (if ok then l'.files.temporary == Some(bytes) else Failed(w))
  {
    PartsTouchOnlyTemporary(l, w, |w.parts|);
  }

  /** Before the renames a reader gets the old contents. */
  lemma PreparationKeeps(l: Log, w: World, bytes: Contents)
    requires l.Valid()
    ensures var (l', ok) := Preparing(l, w, bytes);
      && Keeps(l, l')
      && (if ok then l'.files == Files(Effective(l.files), Some(bytes), None) else Failed(w))
  {
    hide Recovering, Written;
    RecoveryKeeps(l, w);
    var l1 := Recovering(l, w).0;
    WritingTouchesOnlyTemporary(l1, w, bytes);
    if w.fails(Written(l1, w, bytes).0.steps) { assert Failed(w); }
  }

  /** A failed swap leaves the old contents in effect; a successful one turns them at its last step. */
  lemma SwapTurns(l: Log, w: World)
    requires l.Valid() && l.files.previous.None? && l.files.temporary.Some?
    ensures var (l', ok) := Swapping(l, w);
      if ok then
        && l'.files == Files(l.files.temporary, None, l.files.current)
        && l'.Valid() && l.visited <= l'.visited && |l.visited| < |l'.visited|
        && Turns(l'.visited, |l.visited|, |l'.visited| - 1, Effective(l.files), l.files.temporary)
      else Keeps(l, l') && Failed(w)
  {
  }

  /**
  A replacement turns what a reader gets at one moment, if at all, whichever steps fail: success means the turn
  was made and the new file is the only one.
  */
  lemma ReplacementTurns(l: Log, w: World, bytes: Contents) returns (m: nat)
    requires l.Valid()
    ensures var (l', ok) := Replacing(l, w, bytes);
      && l'.Valid() && l.visited <= l'.visited && |l.visited| <= m <= |l'.visited|
      && Turns(l'.visited, |l.visited|, m, Effective(l.files), Some(bytes))
      && (if ok then m < |l'.visited| && l'.files == Files(Some(bytes), None, None) else Failed(w))
  {
    hide Preparing, Swapping;
    PreparationKeeps(l, w, bytes);
    var (l1, a) := Preparing(l, w, bytes);
    m := |l1.visited|;
    var (l2, b) := Looked(l1, w);
    if a && b {
      SwapTurns(l2, w);
      var (l3, c) := Swapping(l2, w);
      m := if c then |l3.visited| - 1 else |l3.visited|;
      assert Turns(l3.visited, |l.visited|, m, Effective(l.files), Some(bytes));
    }
  }

  // Crashes.

  /** The state a crash leaves: the one after `killed` steps took effect, or the last when there are fewer. */
  function Left(l: Log, killed: nat): Files
    requires l.Valid()
  {
    if killed < |l.visited| then l.visited[killed] else l.files
  }

  /** A recovery that is killed, and where. */
  datatype Attempt = Attempt(world: World, killed: nat)

  /** What is on the disk after a replacement was killed and then `n` recoveries were killed as well. */
  function Survivor(start: Files, w: World, bytes: Contents, killed: nat, attempts: seq<Attempt>, n: nat): Files
    requires n <= |attempts|
  {
    StartIsValid(start, w, bytes);
    if n == 0 then Left(Replacing(Start(start), w, bytes).0, killed) else
    var before := Survivor(start, w, bytes, killed, attempts, n - 1);
    StartIsValid(before, attempts[n - 1].world, bytes);
    Left(Recovering(Start(before), attempts[n - 1].world).0, attempts[n - 1].killed)
  }

  lemma StartIsValid(start: Files, w: World, bytes: Contents)
    ensures Replacing(Start(start), w, bytes).0.Valid() && Recovering(Start(start), w).0.Valid()
  {
    var _ := ReplacementTurns(Start(start), w, bytes);
    RecoveryKeeps(Start(start), w);
  }

  /** Killed recoveries do not change what a reader gets. */
  lemma {:induction false} KilledRecoveriesKeep(start: Files, w: World, bytes: Contents, killed: nat, attempts: seq<Attempt>,
                                                n: nat)
    requires n <= |attempts|
    ensures Effective(Survivor(start, w, bytes, killed, attempts, n)) == Effective(Survivor(start, w, bytes, killed, attempts, 0))
  {
    hide Recovering, Replacing;
    if n > 0 {
      KilledRecoveriesKeep(start, w, bytes, killed, attempts, n - 1);
      var before := Survivor(start, w, bytes, killed, attempts, n - 1);
      RecoveryKeeps(Start(before), attempts[n - 1].world);
      StartIsValid(before, attempts[n - 1].world, bytes);
    }
  }

  /**
  Kill a replacement at any point and any number of recoveries after it at any points, then let one recovery
  finish: it leaves exactly the old or the new contents as the only file. Which one is decided by the moment of the
  first crash alone: the old before one point of the replacement, the new from there on.
  */
  lemma CrashIsSafe(start: Files, w: World, bytes: Contents, attempts: seq<Attempt>, last: World) returns (turn: nat)
    ensures forall killed: nat ::
      var (l, ok) := Recovering(Start(Survivor(start, w, bytes, killed, attempts, |attempts|)), last);
      && (ok ==> l.files == Files(Decided(start, w, bytes, killed, turn), None, None))
      && (!ok ==> Failed(last))
    ensures Replacing(Start(start), w, bytes).1 ==> turn < |Replacing(Start(start), w, bytes).0.visited|
  {
    hide Recovering, Replacing;
    turn := ReplacementTurns(Start(start), w, bytes);
    forall killed: nat
      ensures var (l, ok) := Recovering(Start(Survivor(start, w, bytes, killed, attempts, |attempts|)), last);
        && (ok ==> l.files == Files(Decided(start, w, bytes, killed, turn), None, None))
        && (!ok ==> Failed(last))
    {
      KilledRecoveriesKeep(start, w, bytes, killed, attempts, |attempts|);
      RecoveryKeeps(Start(Survivor(start, w, bytes, killed, attempts, |attempts|)), last);
    }
  }

  /** The contents that a crash after `killed` steps leaves in effect, when the replacement turns at `turn`. */
  function Decided(start: Files, w: World, bytes: Contents, killed: nat, turn: nat): Option<Contents> {
    if Min(killed, |Replacing(Start(start), w, bytes).0.visited| - 1) < turn then Effective(start) else Some(bytes)
  }

  // The procedures themselves.

  class Disk {
    var files: Files
    var steps: nat
    var visited: seq<Files>

    constructor (f: Files)
      ensures Now() == Start(f)
    {
      files, steps, visited := f, 0, [f];
    }

    function Now(): Log
      reads this
    {
      Log(files, steps, visited)
    }

    method Step(w: World, next: Files) returns (ok: bool)
      modifies this
      ensures (Now(), ok) == Stepped(old(Now()), w, next)
    {
      ok := !w.fails(steps);
      steps := steps + 1;
      if ok {
        files := next;
        visited := visited + [next];
      }
    }

    method Look(w: World) returns (ok: bool)
      modifies this`steps
      ensures (Now(), ok) == Looked(old(Now()), w)
    {
      ok := !w.fails(steps);
      steps := steps + 1;
    }

    /** Write the temporary file, in parts; each part is a state a crash may leave. */
    method WriteTemporary(w: World, bytes: Contents) returns (ok: bool)
      modifies this
      ensures (Now(), ok) == Written(old(Now()), w, bytes)
    {
      hide Stepped;
      for i := 0 to |w.parts|
        invariant (Now(), true) == Wrote(old(Now()), w, i)
      {
        ok := Step(w, files.(temporary := Some(w.parts[i])));
        if !ok {
          Stays(old(Now()), w, i + 1);
          return;
        }
      }
      ok := Step(w, files.(temporary := Some(bytes)));
    }

    /** Bring the files back to one current file. */
    method Recover(w: World) returns (ok: bool)
      modifies this
      ensures (Now(), ok) == Recovering(old(Now()), w)
    {
      ok := Look(w);
      if !ok { return; }
      var current := files.current.Some?;
      ok := Look(w);
      if !ok { return; }
      var previous := files.previous.Some?;
      if !current && previous {
        ok := Step(w, files.(current := files.previous, previous := None));
        if !ok { return; }
        ok := Look(w);
        if !ok { return; }
      } else if current && previous {
        ok := Step(w, files.(previous := None));
        if !ok { return; }
        ok := Look(w);
        if !ok { return; }
      }
      ok := Look(w);
      if !ok { return; }
      if files.temporary.Some? {
        ok := Step(w, files.(temporary := None));
        if !ok { return; }
        ok := Look(w);
      }
    }

    /** Recover and write the new contents beside the current file. */
    method Prepare(w: World, bytes: Contents) returns (ok: bool)
      modifies this
      ensures (Now(), ok) == Preparing(old(Now()), w, bytes)
    {
      hide Recovering, Written;
      ok := Recover(w);
      if !ok { return; }
      ok := WriteTemporary(w, bytes);
      if !ok { return; }
      ok := Look(w);
    }

    /** Move the current file away and the temporary file into its place; undo the first on failure of the second. */
    method Swap(w: World) returns (ok: bool, hadCurrent: bool)
      modifies this
      ensures (Now(), ok) == Swapping(old(Now()), w) && hadCurrent == old(files.current).Some?
    {
      hadCurrent := files.current.Some?;
      ok := true;
      if hadCurrent {
        ok := Step(w, files.(previous := files.current, current := None));
        if !ok { return; }
      }
      ok := Step(w, files.(current := files.temporary, temporary := None));
      if !ok {
        if hadCurrent {
          var _ := Step(w, files.(current := files.previous, previous := None));
        }
        var _ := Look(w);
      }
    }

    /** Replace the contents. */
    method Replace(w: World, bytes: Contents) returns (ok: bool)
      modifies this
      ensures (Now(), ok) == Replacing(old(Now()), w, bytes)
    {
      hide Preparing, Swapping;
      ok := Prepare(w, bytes);
      if !ok { return; }
      ok := Look(w);
      if !ok { return; }
      var hadCurrent;
      ok, hadCurrent := Swap(w);
      if !ok { return; }
      ok := Look(w);
      if !ok { return; }
      if hadCurrent {
        ok := Step(w, files.(previous := None));
        if !ok { return; }
        ok := Look(w);
      }
    }
  }

  /** Once a part could not be written no further part is. */
  lemma {:induction false} Stays(l: Log, w: World, n: nat)
    requires n <= |w.parts| && !Wrote(l, w, n).1
    ensures Wrote(l, w, |w.parts|) == Wrote(l, w, n)
    decreases |w.parts| - n
  {
    if n < |w.parts| { Stays(l, w, n + 1); }
  }

  /** The same crashes on a disk. */
  method Crash(start: Files, w: World, bytes: Contents, killed: nat, attempts: seq<Attempt>, last: World)
    returns (files: Files, done: bool)
    ensures var (l, ok) := Recovering(Start(Survivor(start, w, bytes, killed, attempts, |attempts|)), last);
      (files, done) == (l.files, ok)
    ensures done ==> files == Recovered(start) || files == Files(Some(bytes), None, None)
    ensures (forall n :: !last.fails(n)) ==> done
  {
    hide Recovering, Replacing;
    var disk := new Disk(start);
    var _ := disk.Replace(w, bytes);
    StartIsValid(start, w, bytes);
    var survivor := Left(disk.Now(), killed);
    for i := 0 to |attempts|
      invariant survivor == Survivor(start, w, bytes, killed, attempts, i)
    {
      disk := new Disk(survivor);
      var _ := disk.Recover(attempts[i].world);
      StartIsValid(survivor, attempts[i].world, bytes);
      survivor := Left(disk.Now(), attempts[i].killed);
    }
    disk := new Disk(survivor);
    done := disk.Recover(last);
    files := disk.files;
    ghost var _ := CrashIsSafe(start, w, bytes, attempts, last);
  }
}
