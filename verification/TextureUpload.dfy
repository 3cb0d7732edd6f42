/**
Texture uploads of the GPU path: a client commits atlas rows, the compositor
sends only rows that changed since the texture it believes the display keeps,
and the display patches its retained textures. A row is an opaque value.
*/
module TextureUpload {
  import opened Base

  type Row = nat

  /** What a surface holds: its pixels and, for a GPU scene, the rows changed by the last generation. */
  datatype Source = Source(width: nat, height: nat, generation: nat, rows: seq<Row>, dirty: Option<(nat, nat)>)
  {
    predicate Valid() { |rows| == height > 0 && generation >= 1 }
  }

  /** A texture retained by the display. */
  datatype Texture = Texture(width: nat, height: nat, generation: nat, rows: seq<Row>)

  /** The compositor's note of a texture it has sent. */
  datatype Requirement = Requirement(key: u64, width: nat, height: nat, generation: nat)

  /** One texture of a scene packet: described only, or with rows from `y` on. */
  datatype Sent = Sent(key: u64, width: nat, height: nat, generation: nat, y: nat, data: seq<Row>)

  function Patch(rows: seq<Row>, y: nat, data: seq<Row>): (r: seq<Row>)
    requires y + |data| <= |rows|
    ensures |r| == |rows|
    ensures forall i :: 0 <= i < |r| ==> r[i] == if y <= i < y + |data| then data[i - y] else rows[i]
  {
    rows[..y] + data + rows[y + |data|..]
  }

  predicate SameOutside(a: seq<Row>, b: seq<Row>, y: nat, h: nat) {
    |a| == |b| && forall i :: 0 <= i < |a| && !(y <= i < y + h) ==> a[i] == b[i]
  }

  // Committing to an atlas.

  /** A commit that carries `data` for the rows from `y` on. */
  datatype Commit = Commit(width: nat, height: nat, y: nat, data: seq<Row>)

  /** `update_gpu_surface_state`, for the atlas: a first commit starts from zeroed rows. */
  function UpdateAtlas(current: Option<Source>, c: Commit): Option<Source> {
    var moved := current.None? || current.value.width != c.width || |current.value.rows| != c.height;
    var rows := if moved then Zeros(c.height) else current.value.rows;
    if c.y + |c.data| > |rows| then None else
    var before := if current.Some? then current.value.generation else 0;
    var patched := Patch(rows, c.y, c.data);
    if moved then Some(Source(c.width, c.height, before + 1, patched, Some((0, c.height))))
    else if c.data != [] then Some(Source(c.width, c.height, before + 1, patched, Some((c.y, |c.data|))))
    else Some(Source(c.width, c.height, before, patched, current.value.dirty))
  }

  function Zeros(n: nat): (r: seq<Row>)
    ensures |r| == n
  {
    seq(n, _ => 0)
  }

  /** The rows a commit carries fit the size it announces. */
  predicate Fits(c: Commit) { c.y + |c.data| <= c.height }

  predicate Covers(c: Commit, row: nat) { c.y <= row < c.y + |c.data| }

  predicate HasSize(s: Source, width: nat, height: nat) { s.width == width && |s.rows| == height }

  predicate Resized(current: Option<Source>, c: Commit) {
    current.Some? ==> !HasSize(current.value, c.width, c.height)
  }

  /**
  A commit is rejected exactly when its rows do not fit. Accepted, the atlas holds the rows it carries, and
  elsewhere the old ones, or zeros when there was no atlas of that size.
  */
  lemma CommitWrites(current: Option<Source>, c: Commit)
    ensures UpdateAtlas(current, c).Some? <==> Fits(c)
    ensures Fits(c) ==> HasSize(UpdateAtlas(current, c).value, c.width, c.height)
    ensures forall i: nat :: i < c.height && Fits(c) && Covers(c, i) ==>
      UpdateAtlas(current, c).value.rows[i] == c.data[i - c.y]
    ensures forall i: nat :: i < c.height && Fits(c) && !Covers(c, i) ==>
      UpdateAtlas(current, c).value.rows[i] == if Resized(current, c) then 0 else current.value.rows[i]
  {
    hide Patch;
  }

  /** A later state of the same surface: equal generations have equal rows, and one generation differs in its dirty rows. */
  predicate Follows(t: Texture, s: Source) {
    && t.generation <= s.generation
    && (t.width == s.width && t.height == s.height ==>
          && (t.generation == s.generation ==> t.rows == s.rows)
          && (t.generation + 1 == s.generation && s.dirty.Some? ==>
                SameOutside(t.rows, s.rows, s.dirty.value.0, s.dirty.value.1)))
  }

  /** Committing again, without losing the state, keeps the relation to every older texture. */
  lemma CommitFollows(t: Texture, s: Source, c: Commit)
    requires Follows(t, s) && s.Valid() && UpdateAtlas(Some(s), c).Some?
    requires |t.rows| == t.height
    ensures Follows(t, UpdateAtlas(Some(s), c).value)
  {
    var s' := UpdateAtlas(Some(s), c).value;
    if t.generation == s.generation && t.width == s'.width && t.height == s'.height && s'.generation == s.generation + 1 {
      assert SameOutside(t.rows, s'.rows, s'.dirty.value.0, s'.dirty.value.1);
    }
    if s'.generation == s.generation { assert s'.rows == s.rows; }
  }

  lemma {:induction false} CommitsFollow(t: Texture, s: Source, commits: seq<Commit>, n: nat)
    requires Follows(t, s) && s.Valid() && |t.rows| == t.height && n <= |commits|
    requires forall i :: 0 <= i < |commits| ==> commits[i].height > 0
    requires After(s, commits, n).Some?
    ensures After(s, commits, n).value.Valid() && Follows(t, After(s, commits, n).value)
  {
    if n > 0 {
      CommitsFollow(t, s, commits, n - 1);
      CommitFollows(t, After(s, commits, n - 1).value, commits[n - 1]);
    }
  }

  /** The state after the first `n` commits; a rejected commit loses it. */
  function After(s: Source, commits: seq<Commit>, n: nat): Option<Source>
    requires n <= |commits|
  {
    if n == 0 then Some(s) else
    var before := After(s, commits, n - 1);
    if before.None? then None else UpdateAtlas(before, commits[n - 1])
  }

  // Choosing what to send.

  predicate Current(c: Requirement, key: u64, s: Source) {
    c.key == key && c.width == s.width && c.height == s.height && c.generation == s.generation
  }

  /** The display has the previous generation in the same size, and the dirty rows are within bounds. */
  predicate Incremental(width: nat, height: nat, generation: nat, s: Source) {
    && width == s.width && height == s.height && generation + 1 == s.generation
    && s.dirty.Some? && s.dirty.value.1 != 0 && s.dirty.value.0 + s.dirty.value.1 <= s.height
  }

  /** What the display holds after a scene that needs `s`, when the compositor trusts `kept`. */
  function Displayed(kept: Option<Texture>, s: Source): (r: seq<Row>)
    requires s.Valid() && (kept.Some? ==> |kept.value.rows| == kept.value.height)
    ensures |r| == s.height
  {
    if kept.None? || kept.value.width != s.width || kept.value.height != s.height then s.rows
    else if kept.value.generation == s.generation then kept.value.rows
    else if Incremental(kept.value.width, kept.value.height, kept.value.generation, s)
    then Patch(kept.value.rows, s.dirty.value.0, s.rows[s.dirty.value.0..s.dirty.value.0 + s.dirty.value.1])
    else s.rows
  }

  /** Along one life of a surface, what is displayed is the whole current atlas. */
  lemma FollowingIsExact(kept: Option<Texture>, s: Source)
    requires s.Valid() && (kept.Some? ==> |kept.value.rows| == kept.value.height && Follows(kept.value, s))
    ensures Displayed(kept, s) == s.rows
  {
  }

  /**
  What the compositor can tell from its note alone: another size, or another generation from which the whole
  atlas is sent.
  */
  predicate Safe(width: nat, height: nat, generation: nat, s: Source) {
    || width != s.width || height != s.height
    || (generation != s.generation && (Incremental(width, height, generation, s) ==> s.dirty.value.1 == s.height))
  }

  /** Whatever rows the display kept under a note, it ends with the current atlas: exactly when the note is safe. */
  lemma SafeIff(width: nat, height: nat, generation: nat, s: Source)
    requires s.Valid()
    ensures (forall rows: seq<Row> | |rows| == height :: Displayed(Some(Texture(width, height, generation, rows)), s) == s.rows)
            <==> Safe(width, height, generation, s)
  {
    if Safe(width, height, generation, s) {
      forall rows: seq<Row> | |rows| == height
        ensures Displayed(Some(Texture(width, height, generation, rows)), s) == s.rows
      {
        SafeIsExact(Texture(width, height, generation, rows), s);
      }
    } else {
      var rows := seq(height, (i: nat) requires i < height => s.rows[i] + 1);
      var i := if generation == s.generation || s.dirty.value.0 > 0 then 0 else s.dirty.value.1;
      assert Displayed(Some(Texture(width, height, generation, rows)), s)[i] == rows[i] != s.rows[i];
    }
  }

  lemma SafeIsExact(t: Texture, s: Source)
    requires s.Valid() && |t.rows| == t.height && Safe(t.width, t.height, t.generation, s)
    ensures Displayed(Some(t), s) == s.rows
  {
    if Incremental(t.width, t.height, t.generation, s) {
      assert s.dirty.value.0 == 0 && s.rows[0..s.height] == s.rows;
      assert Patch(t.rows, 0, s.rows) == s.rows;
    }
  }

  /** After a surface loses its state, its generation counts commits from one again. */
  lemma {:induction false} RestartedGeneration(c: Commit, commits: seq<Commit>, n: nat)
    requires n <= |commits| && UpdateAtlas(None, c).Some? && After(UpdateAtlas(None, c).value, commits, n).Some?
    ensures 1 <= After(UpdateAtlas(None, c).value, commits, n).value.generation <= n + 1
  {
    hide UpdateAtlas;
    CommitCounts(None, c);
    if n > 0 {
      RestartedGeneration(c, commits, n - 1);
      CommitCounts(After(UpdateAtlas(None, c).value, commits, n - 1), commits[n - 1]);
    }
  }

  lemma CommitCounts(current: Option<Source>, c: Commit)
    requires UpdateAtlas(current, c).Some?
    ensures var g, g' := if current.Some? then current.value.generation else 0, UpdateAtlas(current, c).value.generation;
      g <= g' <= g + 1 && (current.None? ==> g' == 1)
  {
  }

  /** A restart can leave stale rows on screen: a rejected commit, then a first commit with other rows. */
  lemma RestartCanBeStale()
    ensures var first := UpdateAtlas(None, Commit(1, 2, 0, [5, 6])).value;
      var kept := Texture(1, 2, first.generation, first.rows);
      && UpdateAtlas(Some(first), Commit(1, 2, 1, [7, 8])).None?
      && var again := UpdateAtlas(None, Commit(1, 2, 0, [9, 9])).value;
      && again.Valid() && Displayed(Some(kept), again) == [5, 6] != again.rows
  {
    assert Patch(Zeros(2), 0, [5, 6]) == [5, 6];
    assert Patch(Zeros(2), 0, [9, 9]) == [9, 9];
  }

  // The compositor, the display and the presenter between them.

  predicate Consistent(textures: map<u64, Texture>) {
    forall key :: key in textures ==> |textures[key].rows| == textures[key].height
  }

  class Display {
    var textures: map<u64, Texture>

    constructor ()
      ensures textures == map[]
    {
      textures := map[];
    }

    /** `sync_textures`: drop what the scene does not use, then bring each texture up to date. */
    method Sync(scene: seq<Sent>, fails: nat -> bool) returns (ok: bool)
      requires Consistent(textures)
      requires forall i, j :: 0 <= i < j < |scene| ==> scene[i].key != scene[j].key
      modifies this
      ensures Consistent(textures)
      ensures forall key :: key in textures ==> InScene(scene, key)
      ensures ok ==> forall i :: 0 <= i < |scene| ==> Accepted(old(textures), scene[i], textures)
      ensures ok <==> forall i :: 0 <= i < |scene| ==> Takes(old(textures), scene[i], fails(i))
    {
      hide Accepted, Consistent, InScene, Takes;
      ghost var before := textures;
      UsedIsConsistent(before, scene);
      textures := Used(textures, scene);
      for n := 0 to |scene|
        invariant Consistent(textures)
        invariant forall key :: key in textures ==> InScene(scene, key)
        invariant forall i :: 0 <= i < n ==> scene[i].key in textures && Accepted(before, scene[i], textures)
        invariant forall i :: n <= i < |scene| ==> SameAt(before, textures, scene[i].key)
        invariant forall i :: 0 <= i < n ==> Takes(before, scene[i], fails(i))
      {
        ghost var now := textures;
        TakesSame(before, now, scene[n], fails(n));
        ok := Take(scene[n], fails(n));
        KeyInScene(scene, n);
        forall key | key in textures ensures InScene(scene, key) {
          if key != scene[n].key { assert SameAt(now, textures, key); }
        }
        if !ok { return; }
        forall i | n < i < |scene| ensures SameAt(before, textures, scene[i].key) {
          assert SameAt(before, now, scene[i].key) && SameAt(now, textures, scene[i].key);
        }
        forall i | 0 <= i <= n ensures scene[i].key in textures && Accepted(before, scene[i], textures) {
          if i < n {
            assert SameAt(now, textures, scene[i].key);
            AcceptedStays(before, scene[i], now, textures);
          } else {
            AcceptedFrom(now, before, scene[n], textures);
          }
        }
      }
      ok := true;
    }

    /** Bring one texture up to date; a failure may leave its rows written but its generation old. */
    method Take(t: Sent, fails: bool) returns (ok: bool)
      requires Consistent(textures)
      modifies this
      ensures Consistent(textures)
      ensures ok ==> t.key in textures && Accepted(old(textures), t, textures)
      ensures ok <==> Takes(old(textures), t, fails)
      ensures forall key :: key != t.key ==> SameAt(old(textures), textures, key)
    {
      if t.key in textures && (textures[t.key].width != t.width || textures[t.key].height != t.height) {
        textures := textures - {t.key};
      }
      if t.key !in textures {
        if t.y != 0 || |t.data| != t.height { return false; }
        if fails { return false; }
        textures := textures[t.key := Texture(t.width, t.height, 0, Zeros(t.height))];
      }
      var cached := textures[t.key];
      if t.data == [] {
        if cached.generation != t.generation { return false; }
      } else {
        if t.y + |t.data| > |cached.rows| { return false; }
        textures := textures[t.key := cached.(rows := Patch(cached.rows, t.y, t.data))];
        if fails { return false; }
        textures := textures[t.key := textures[t.key].(generation := t.generation)];
      }
      ok := true;
    }
  }

  /** The display can take this texture: it has what is not sent, and writing does not fail. */
  predicate Takes(textures: map<u64, Texture>, t: Sent, fails: bool) {
    if t.key in textures && textures[t.key].width == t.width && textures[t.key].height == t.height
    then if t.data == [] then textures[t.key].generation == t.generation
         else t.y + |t.data| <= |textures[t.key].rows| && !fails
    else t.y == 0 && |t.data| == t.height && !fails && (t.data == [] ==> t.generation == 0)
  }

  lemma TakesSame(a: map<u64, Texture>, b: map<u64, Texture>, t: Sent, fails: bool)
    requires SameAt(a, b, t.key)
    ensures Takes(a, t, fails) == Takes(b, t, fails)
  {
  }

  predicate SameAt(a: map<u64, Texture>, b: map<u64, Texture>, key: u64) {
    (key in a <==> key in b) && (key in a ==> a[key] == b[key])
  }

  predicate InScene(scene: seq<Sent>, key: u64) { exists i :: 0 <= i < |scene| && scene[i].key == key }

  /** The textures a scene still uses. */
  function Used(textures: map<u64, Texture>, scene: seq<Sent>): map<u64, Texture> {
    map key | key in textures && InScene(scene, key) :: textures[key]
  }

  lemma KeyInScene(scene: seq<Sent>, n: nat)
    requires n < |scene|
    ensures InScene(scene, scene[n].key)
  {
  }

  lemma UsedIsConsistent(textures: map<u64, Texture>, scene: seq<Sent>)
    requires Consistent(textures)
    ensures Consistent(Used(textures, scene))
    ensures forall i :: 0 <= i < |scene| ==> SameAt(textures, Used(textures, scene), scene[i].key)
    ensures forall key :: key in Used(textures, scene) ==> InScene(scene, key)
  {
  }

  lemma AcceptedStays(before: map<u64, Texture>, t: Sent, a: map<u64, Texture>, b: map<u64, Texture>)
    requires Consistent(before) && t.key in a && Accepted(before, t, a) && SameAt(a, b, t.key)
    ensures Accepted(before, t, b)
  {
  }

  lemma AcceptedFrom(now: map<u64, Texture>, before: map<u64, Texture>, t: Sent, after: map<u64, Texture>)
    requires Consistent(now) && Consistent(before) && SameAt(before, now, t.key) && Accepted(now, t, after)
    ensures Accepted(before, t, after)
  {
  }

  /** The display took one texture of a scene: kept as it was, or patched, or new. */
  ghost predicate Accepted(before: map<u64, Texture>, t: Sent, after: map<u64, Texture>)
    requires Consistent(before)
  {
    && t.key in after && after[t.key].width == t.width && after[t.key].height == t.height
    && after[t.key].generation == t.generation
    && var kept := t.key in before && before[t.key].width == t.width && before[t.key].height == t.height;
    && (t.data == [] ==> (kept && after[t.key] == before[t.key]) || (!kept && t.height == 0))
    && (t.data != [] && kept ==> t.y + |t.data| <= t.height
                                 && after[t.key].rows == Patch(before[t.key].rows, t.y, t.data))
    && (t.data != [] && !kept ==> t.y == 0 && |t.data| == t.height && after[t.key].rows == t.data)
  }

  datatype Wanted = Wanted(key: u64, source: Source)

  /** What the compositor may rely on: the display keeps every texture noted. */
  predicate Noted(notes: seq<Requirement>, textures: map<u64, Texture>) {
    forall i :: 0 <= i < |notes| ==>
      && notes[i].key in textures && textures[notes[i].key].width == notes[i].width
      && textures[notes[i].key].height == notes[i].height && textures[notes[i].key].generation == notes[i].generation
  }

  /** What the compositor relies on between presents: nothing, or the textures it noted. */
  datatype Link = Broken | Live(kept: map<u64, Texture>)

  predicate LinkValid(link: Link) { link.Live? ==> Consistent(link.kept) }

  function Kept(link: Link, key: u64): Option<Texture> {
    if link.Live? && key in link.kept then Some(link.kept[key]) else None
  }

  function LinkOf(valid: bool, notes: seq<Requirement>, textures: map<u64, Texture>): Link {
    if valid then Live(map key | key in KeysOf(notes) && key in textures :: textures[key]) else Broken
  }

  /** Rows have to be sent, unless the display has this very generation. */
  predicate Uploads(link: Link, w: Wanted) {
    Kept(link, w.key).None? || !Matches(Kept(link, w.key).value, w.source)
  }

  predicate Asked(wanted: seq<Wanted>) {
    && (forall i :: 0 <= i < |wanted| ==> wanted[i].source.Valid())
    && forall i, j :: 0 <= i < j < |wanted| ==> wanted[i].key != wanted[j].key
  }

  function Renewed(link: Link, w: Wanted): Texture
    requires LinkValid(link) && w.source.Valid()
  {
    Texture(w.source.width, w.source.height, w.source.generation, Displayed(Kept(link, w.key), w.source))
  }

  function RenewedAll(link: Link, wanted: seq<Wanted>): map<u64, Texture>
    requires LinkValid(link) && Asked(wanted)
  {
    map i | 0 <= i < |wanted| :: wanted[i].key := Renewed(link, wanted[i])
  }

  /** A present succeeds exactly when it is composed, offered and shown and no upload it needs fails. */
  ghost predicate Succeeds(link: Link, wanted: seq<Wanted>, good: bool, fails: nat -> bool) {
    good && forall i: nat :: i < |wanted| && Uploads(link, wanted[i]) ==> !fails(i)
  }

  /** What may be relied on after a present. */
  ghost function Presented(link: Link, wanted: seq<Wanted>, good: bool, fails: nat -> bool): Link
    requires LinkValid(link) && Asked(wanted)
  {
    if Succeeds(link, wanted, good, fails) then Live(RenewedAll(link, wanted)) else Broken
  }

  lemma LinkIs(valid: bool, notes: seq<Requirement>, textures: map<u64, Texture>)
    requires Consistent(textures)
    ensures LinkValid(LinkOf(valid, notes, textures)) && (!valid ==> LinkOf(valid, notes, textures) == Broken)
  {
  }

  lemma RenewedAt(link: Link, wanted: seq<Wanted>, i: nat)
    requires LinkValid(link) && Asked(wanted) && i < |wanted|
    ensures wanted[i].key in RenewedAll(link, wanted)
    ensures RenewedAll(link, wanted)[wanted[i].key] == Renewed(link, wanted[i])
  {
    hide Renewed;
  }

  lemma RenewedKey(link: Link, wanted: seq<Wanted>, key: u64) returns (i: nat)
    requires LinkValid(link) && Asked(wanted) && key in RenewedAll(link, wanted)
    ensures i < |wanted| && wanted[i].key == key
  {
    hide Renewed;
    i :| 0 <= i < |wanted| && wanted[i].key == key;
  }

  /** After a success the notes and the display together are the renewed textures. */
  lemma RenewedLink(link: Link, notes: seq<Requirement>, wanted: seq<Wanted>, textures: map<u64, Texture>)
    requires LinkValid(link) && Asked(wanted) && |notes| == |wanted|
    requires forall i :: 0 <= i < |wanted| ==> notes[i] == Note(wanted[i])
    requires forall i :: 0 <= i < |wanted| ==>
      wanted[i].key in textures && textures[wanted[i].key] == Renewed(link, wanted[i])
    ensures LinkOf(true, notes, textures) == Live(RenewedAll(link, wanted)) && Noted(notes, textures)
  {
    hide Displayed, RenewedAll;
    var kept, all := LinkOf(true, notes, textures).kept, RenewedAll(link, wanted);
    forall key | key in kept ensures key in all && kept[key] == all[key] {
      var i: nat :| i < |notes| && notes[i].key == key;
      RenewedAt(link, wanted, i);
    }
    forall key | key in all ensures key in kept {
      var i := RenewedKey(link, wanted, key);
      assert notes[i].key == key;
    }
    assert kept == all;
  }

  class Presenter {
    const display: Display
    var notes: seq<Requirement>
    var contentsValid: bool

    ghost predicate Valid()
      reads this, display
    {
      && Consistent(display.textures)
      && (forall i, j :: 0 <= i < j < |notes| ==> notes[i].key != notes[j].key)
      && (contentsValid ==> Noted(notes, display.textures))
    }

    /** What the presenter may rely on, apart from how it is stored. */
    ghost function Link(): Link
      reads this, display
    {
      LinkOf(contentsValid, notes, display.textures)
    }

    constructor ()
      ensures Valid() && Link() == Broken && fresh(display)
    {
      display := new Display();
      notes, contentsValid := [], false;
    }

    method FindNote(key: u64) returns (r: Option<nat>)
      ensures r.Some? ==> r.value < |notes| && notes[r.value].key == key
      ensures r.None? ==> forall i :: 0 <= i < |notes| ==> notes[i].key != key
    {
      for i := 0 to |notes|
        invariant forall k :: 0 <= k < i ==> notes[k].key != key
      {
        if notes[i].key == key { return Some(i); }
      }
      r := None;
    }

    /** What to send for one wanted texture. */
    method Choose(w: Wanted) returns (t: Sent)
      requires w.source.Valid() && forall i, j :: 0 <= i < j < |notes| ==> notes[i].key != notes[j].key
      ensures t == Chosen(notes, w)
    {
      var s := w.source;
      var at := FindNote(w.key);
      NoteIs(notes, w.key, at);
      var y, data := 0, s.rows;
      if at.Some? {
        var c := notes[at.value];
        if Current(c, w.key, s) {
          y, data := 0, [];
        } else if Incremental(c.width, c.height, c.generation, s) {
          y := s.dirty.value.0;
          data := s.rows[y..y + s.dirty.value.1];
        }
      }
      t := Sent(w.key, s.width, s.height, s.generation, y, data);
    }

    /**
    One attempt to present. On success the display holds, for each wanted texture, what reuse of its kept
    texture gives; after any failure nothing is trusted and the next attempt sends everything.
    */
    method Present(wanted: seq<Wanted>, composes: bool, offered: bool, fails: nat -> bool, shown: bool) returns (ok: bool)
      requires Valid() && Asked(wanted)
      modifies this, display
      ensures Valid() && contentsValid == ok && LinkValid(old(Link()))
      ensures Link() == Presented(old(Link()), wanted, composes && offered && shown, fails)
    {
      hide Displayed, Accepted, Chosen, Takes, LinkOf, Renewed, RenewedAll, Uploads;
      ghost var before, noted, trust := display.textures, notes, contentsValid;
      ghost var good := composes && offered && shown;
      LinkIs(trust, noted, before);
      if !contentsValid { notes := []; }
      var scene: seq<Sent>, next: seq<Requirement> := [], [];
      for n := 0 to |wanted|
        modifies {}
        invariant |scene| == |next| == n
        invariant forall i :: 0 <= i < n ==> scene[i] == Chosen(notes, wanted[i])
        invariant forall i :: 0 <= i < n ==> next[i] == Note(wanted[i])
      {
        var t := Choose(wanted[n]);
        scene, next := scene + [t], next + [Note(wanted[n])];
      }
      contentsValid := false;
      LinkIs(false, notes, before);
      if !composes { return false; }
      forall i | 0 <= i < |scene| ensures scene[i].key == wanted[i].key {
        ChosenKey(notes, wanted[i]);
      }
      notes := next;
      LinkIs(false, notes, display.textures);
      if !offered { return false; }
      var synced := display.Sync(scene, fails);
      forall i | 0 <= i < |wanted|
        ensures Takes(before, scene[i], fails(i)) <==> (Uploads(LinkOf(trust, noted, before), wanted[i]) ==> !fails(i))
      {
        ChosenTakes(trust, noted, before, wanted[i], fails(i));
      }
      LinkIs(false, notes, display.textures);
      if !synced || !shown { return false; }
      contentsValid := true;
      forall i | 0 <= i < |wanted|
        ensures wanted[i].key in display.textures
        ensures display.textures[wanted[i].key] == Renewed(LinkOf(trust, noted, before), wanted[i])
      {
        AcceptedIsDisplayed(trust, noted, before, wanted[i], display.textures);
      }
      RenewedLink(LinkOf(trust, noted, before), notes, wanted, display.textures);
      ok := true;
    }
  }

  function Note(w: Wanted): Requirement {
    Requirement(w.key, w.source.width, w.source.height, w.source.generation)
  }

  predicate Matches(t: Texture, s: Source) {
    t.width == s.width && t.height == s.height && t.generation == s.generation
  }

  /** The note for a key, if there is one. */
  ghost function NoteFor(notes: seq<Requirement>, key: u64): Option<Requirement> {
    if exists i :: 0 <= i < |notes| && notes[i].key == key
    then var i :| 0 <= i < |notes| && notes[i].key == key; Some(notes[i])
    else None
  }

  lemma NoteIs(notes: seq<Requirement>, key: u64, at: Option<nat>)
    requires forall i, j :: 0 <= i < j < |notes| ==> notes[i].key != notes[j].key
    requires at.Some? ==> at.value < |notes| && notes[at.value].key == key
    requires at.None? ==> forall i :: 0 <= i < |notes| ==> notes[i].key != key
    ensures NoteFor(notes, key) == if at.Some? then Some(notes[at.value]) else None
  {
  }

  ghost function Chosen(notes: seq<Requirement>, w: Wanted): Sent
    requires w.source.Valid()
  {
    var s, c := w.source, NoteFor(notes, w.key);
    if c.None? then Sent(w.key, s.width, s.height, s.generation, 0, s.rows)
    else if Current(c.value, w.key, s) then Sent(w.key, s.width, s.height, s.generation, 0, [])
    else if Incremental(c.value.width, c.value.height, c.value.generation, s)
    then Sent(w.key, s.width, s.height, s.generation, s.dirty.value.0,
              s.rows[s.dirty.value.0..s.dirty.value.0 + s.dirty.value.1])
    else Sent(w.key, s.width, s.height, s.generation, 0, s.rows)
  }

  lemma ChosenKey(notes: seq<Requirement>, w: Wanted)
    requires w.source.Valid()
    ensures Chosen(notes, w).key == w.key
  {
  }

  lemma NoteKept(valid: bool, notes: seq<Requirement>, textures: map<u64, Texture>, key: u64)
    requires valid ==> Noted(notes, textures)
    ensures Kept(LinkOf(valid, notes, textures), key).Some? <==> valid && NoteFor(notes, key).Some?
    ensures valid && NoteFor(notes, key).Some? ==>
      key in textures && Kept(LinkOf(valid, notes, textures), key).value == textures[key]
      && NoteFor(notes, key).value in notes && NoteFor(notes, key).value.key == key
  {
  }

  /** The display can take the chosen upload, unless writing it fails. */
  lemma ChosenTakes(valid: bool, notes: seq<Requirement>, before: map<u64, Texture>, w: Wanted, fails: bool)
    requires Consistent(before) && w.source.Valid() && (valid ==> Noted(notes, before))
    ensures Takes(before, Chosen(if valid then notes else [], w), fails)
            <==> (Uploads(LinkOf(valid, notes, before), w) ==> !fails)
  {
    NoteKept(valid, notes, before, w.key);
    assert NoteFor([], w.key).None?;
    hide LinkOf, NoteFor;
  }

  /** The display's reaction to the chosen upload is exactly the reuse described by `Displayed`. */
  lemma AcceptedIsDisplayed(valid: bool, notes: seq<Requirement>, before: map<u64, Texture>, w: Wanted,
                            after: map<u64, Texture>)
    requires Consistent(before) && w.source.Valid() && (valid ==> Noted(notes, before))
    requires LinkValid(LinkOf(valid, notes, before))
    requires Accepted(before, Chosen(if valid then notes else [], w), after)
    ensures w.key in after && after[w.key] == Renewed(LinkOf(valid, notes, before), w)
  {
    var s := w.source;
    var t := Chosen(if valid then notes else [], w);
    NoteKept(valid, notes, before, w.key);
    assert NoteFor([], w.key).None?;
    if w.key in before && |before[w.key].rows| == |s.rows| {
      assert Patch(before[w.key].rows, 0, s.rows) == s.rows;
    }
  }

  // Whole runs: commits, rejected commits and presents in any order.

  datatype Event =
    | CommitTo(key: u64, commit: Commit)
    | PresentAll(order: seq<u64>, composes: bool, offered: bool, fails: nat -> bool, shown: bool)

  /** A successful present: what was wanted, what the display then held, and which of it is in doubt. */
  datatype Shot = Shot(wanted: seq<Wanted>, textures: map<u64, Texture>, doubt: set<u64>)

  predicate Distinct(order: seq<u64>) { forall i, j :: 0 <= i < j < |order| ==> order[i] != order[j] }

  predicate WellFormed(e: Event) {
    match e
    case CommitTo(_, c) => c.height > 0
    case PresentAll(order, _, _, _, _) => Distinct(order)
  }

  /** Every wanted texture that is not in doubt is on the display whole. */
  predicate Faithful(s: Shot) {
    forall i :: 0 <= i < |s.wanted| && s.wanted[i].key !in s.doubt ==>
      s.wanted[i].key in s.textures && s.textures[s.wanted[i].key].rows == s.wanted[i].source.rows
  }

  predicate WorldValid(world: map<u64, Source>) { forall key :: key in world ==> world[key].Valid() }

  /**
  The surfaces, what the compositor relies on, and the surfaces whose kept texture belongs to an earlier life:
  a surface that loses its state while its texture is relied on is in doubt until a present finds its note safe.
  */
  datatype Stage = Stage(world: map<u64, Source>, link: Link, doubt: set<u64>)

  function StateOf(world: map<u64, Source>, key: u64): Option<Source> {
    if key in world then Some(world[key]) else None
  }

  function Committed(s: Stage, key: u64, c: Commit): Stage {
    var next := UpdateAtlas(StateOf(s.world, key), c);
    if next.Some? then s.(world := s.world[key := next.value])
    else s.(world := s.world - {key}, doubt := if Kept(s.link, key).Some? then s.doubt + {key} else s.doubt)
  }

  /** The surfaces of a scene that have something to show, in order. */
  function WantedOf(world: map<u64, Source>, order: seq<u64>): seq<Wanted> {
    if order == [] then [] else
    var n := |order| - 1;
    WantedOf(world, order[..n]) + if order[n] in world then [Wanted(order[n], world[order[n]])] else []
  }

  function StillDoubted(s: Stage, wanted: seq<Wanted>): set<u64> {
    set i | 0 <= i < |wanted| && wanted[i].key in s.doubt && Kept(s.link, wanted[i].key).Some? && !NoteIsSafe(s.link, wanted[i])
      :: wanted[i].key
  }

  predicate NoteIsSafe(link: Link, w: Wanted)
    requires Kept(link, w.key).Some?
  {
    var t := Kept(link, w.key).value;
    Safe(t.width, t.height, t.generation, w.source)
  }

  ghost function Shown(s: Stage, e: Event): Stage
    requires e.PresentAll? && StageValid(s) && WellFormed(e)
  {
    WantedIsAsked(s.world, e.order);
    var wanted := WantedOf(s.world, e.order);
    var link := Presented(s.link, wanted, e.composes && e.offered && e.shown, e.fails);
    Stage(s.world, link, if link.Live? then StillDoubted(s, wanted) else {})
  }

  ghost predicate StageValid(s: Stage) {
    && WorldValid(s.world) && LinkValid(s.link)
    && forall key :: Kept(s.link, key).Some? && key !in s.doubt ==>
         key in s.world && Follows(Kept(s.link, key).value, s.world[key])
  }

  lemma {:induction false} WantedIsAsked(world: map<u64, Source>, order: seq<u64>)
    requires WorldValid(world) && Distinct(order)
    ensures Asked(WantedOf(world, order))
    ensures forall i :: 0 <= i < |WantedOf(world, order)| ==>
      var w := WantedOf(world, order)[i]; w.key in order && w.key in world && w.source == world[w.key]
  {
    if order != [] { WantedIsAsked(world, order[..|order| - 1]); }
  }

  lemma CommitKeepsStage(s: Stage, key: u64, c: Commit)
    requires StageValid(s) && c.height > 0
    ensures StageValid(Committed(s, key, c))
  {
    var kept, next := Kept(s.link, key), UpdateAtlas(StateOf(s.world, key), c);
    if kept.Some? && next.Some? && key !in s.doubt { CommitFollows(kept.value, s.world[key], c); }
    hide Follows;
    assert next.Some? ==> next.value.Valid();
  }

  /** A present keeps the relation and leaves every wanted texture that is not in doubt whole. */
  lemma PresentKeepsStage(s: Stage, e: Event)
    requires StageValid(s) && e.PresentAll? && WellFormed(e)
    ensures StageValid(Shown(s, e))
    ensures Shown(s, e).link.Live? ==> Faithful(Shot(WantedOf(s.world, e.order), Shown(s, e).link.kept, Shown(s, e).doubt))
  {
    WantedIsAsked(s.world, e.order);
    var wanted, after := WantedOf(s.world, e.order), Shown(s, e);
    if after.link.Live? {
      forall i | 0 <= i < |wanted| && wanted[i].key !in after.doubt
        ensures Renewed(s.link, wanted[i]).rows == wanted[i].source.rows
      {
        var kept := Kept(s.link, wanted[i].key);
        if wanted[i].key in s.doubt && kept.Some? {
          SafeIsExact(kept.value, wanted[i].source);
        } else {
          FollowingIsExact(kept, wanted[i].source);
        }
      }
      RenewedFollows(s, wanted, after.doubt);
    }
  }

  lemma RenewedFollows(s: Stage, wanted: seq<Wanted>, doubt: set<u64>)
    requires StageValid(s) && Asked(wanted)
    requires forall i :: 0 <= i < |wanted| ==> wanted[i].key in s.world && wanted[i].source == s.world[wanted[i].key]
    requires forall i :: 0 <= i < |wanted| && wanted[i].key !in doubt ==>
      Renewed(s.link, wanted[i]).rows == wanted[i].source.rows
    ensures StageValid(Stage(s.world, Live(RenewedAll(s.link, wanted)), doubt))
    ensures Faithful(Shot(wanted, RenewedAll(s.link, wanted), doubt))
  {
    hide Displayed, RenewedAll;
    var all := RenewedAll(s.link, wanted);
    forall key | key in all
      ensures |all[key].rows| == all[key].height
      ensures key !in doubt ==> key in s.world && Follows(all[key], s.world[key])
    {
      var i := RenewedKey(s.link, wanted, key);
      RenewedAt(s.link, wanted, i);
    }
    forall i: nat | i < |wanted| ensures wanted[i].key in all && all[wanted[i].key] == Renewed(s.link, wanted[i]) {
      RenewedAt(s.link, wanted, i);
    }
  }

  /** The stage after the first `n` events. */
  ghost function StageAt(events: seq<Event>, n: nat): (s: Stage)
    requires n <= |events| && forall i :: 0 <= i < |events| ==> WellFormed(events[i])
    ensures StageValid(s)
  {
    if n == 0 then Stage(map[], Broken, {}) else
    var before := StageAt(events, n - 1);
    match events[n - 1]
    case CommitTo(key, c) => CommitKeepsStage(before, key, c); Committed(before, key, c)
    case PresentAll(_, _, _, _, _) => PresentKeepsStage(before, events[n - 1]); Shown(before, events[n - 1])
  }

  /** One shot for each present that succeeded among the first `n` events. */
  ghost function ShotsAt(events: seq<Event>, n: nat): seq<Shot>
    requires n <= |events| && forall i :: 0 <= i < |events| ==> WellFormed(events[i])
  {
    if n == 0 then [] else
    var before, after := StageAt(events, n - 1), StageAt(events, n);
    ShotsAt(events, n - 1)
    + if events[n - 1].PresentAll? && after.link.Live?
      then [Shot(WantedOf(before.world, events[n - 1].order), after.link.kept, after.doubt)] else []
  }

  /** In any run, every successful present shows the current atlas of every surface whose texture is not in doubt. */
  lemma {:induction false} ShotsAreFaithful(events: seq<Event>, n: nat)
    requires n <= |events| && forall i :: 0 <= i < |events| ==> WellFormed(events[i])
    ensures forall i :: 0 <= i < |ShotsAt(events, n)| ==> Faithful(ShotsAt(events, n)[i])
  {
    hide Faithful, Shown;
    if n > 0 {
      ShotsAreFaithful(events, n - 1);
      if events[n - 1].PresentAll? { PresentKeepsStage(StageAt(events, n - 1), events[n - 1]); }
    }
  }

  // Where a displayed row comes from.

  /** The size a surface's atlas has after the first `n` events: that of its last commit, unless it was rejected. */
  function SizeAt(events: seq<Event>, n: nat, key: u64): Option<(nat, nat)>
    requires n <= |events|
  {
    if n == 0 then None
    else if events[n - 1].CommitTo? && events[n - 1].key == key
    then if Fits(events[n - 1].commit) then Some((events[n - 1].commit.width, events[n - 1].commit.height)) else None
    else SizeAt(events, n - 1, key)
  }

  /** Event `k` writes `value` to the row, or starts an atlas that is zero there. */
  predicate Originates(events: seq<Event>, k: nat, key: u64, row: nat, value: Row)
    requires k < |events|
  {
    && events[k].CommitTo? && events[k].key == key
    && var c := events[k].commit;
    && Fits(c) && row < c.height
    && (if Covers(c, row) then value == c.data[row - c.y]
        else value == 0 && SizeAt(events, k, key) != Some((c.width, c.height)))
  }

  /** An event that neither rewrites the row nor rejects or resets an atlas of this size. */
  predicate Spares(e: Event, key: u64, row: nat, size: (nat, nat)) {
    e.CommitTo? && e.key == key ==>
      Fits(e.commit) && (e.commit.width, e.commit.height) == size && !Covers(e.commit, row)
  }

  /** The row is the one written by the last commit covering it since its atlas was last started. */
  ghost predicate LastWritten(events: seq<Event>, n: nat, key: u64, row: nat, value: Row)
    requires n <= |events|
  {
    && SizeAt(events, n, key).Some?
    && exists k: nat :: k < n && Originates(events, k, key, row, value)
                        && forall j :: k < j < n ==> Spares(events[j], key, row, SizeAt(events, n, key).value)
  }

  /** At every moment of a run every row of every atlas is the last written one. */
  lemma {:induction false} RowsAreLastWritten(events: seq<Event>, n: nat, key: u64)
    requires n <= |events| && forall i :: 0 <= i < |events| ==> WellFormed(events[i])
    ensures key in StageAt(events, n).world <==> SizeAt(events, n, key).Some?
    ensures key in StageAt(events, n).world ==>
      && var s := StageAt(events, n).world[key];
      && SizeAt(events, n, key) == Some((s.width, |s.rows|))
      && forall row: nat :: row < |s.rows| ==> LastWritten(events, n, key, row, s.rows[row])
  {
    hide StageValid, UpdateAtlas, Covers;
    if n > 0 {
      RowsAreLastWritten(events, n - 1, key);
      var e, before, after := events[n - 1], StageAt(events, n - 1).world, StageAt(events, n).world;
      if e.CommitTo? { CommitWrites(StateOf(before, e.key), e.commit); }
      if key in after {
        forall row: nat | row < |after[key].rows| ensures LastWritten(events, n, key, row, after[key].rows[row]) {
          RowStaysWritten(events, n - 1, key, row);
        }
      }
    }
  }

  lemma RowStaysWritten(events: seq<Event>, n: nat, key: u64, row: nat)
    requires n < |events| && forall i :: 0 <= i < |events| ==> WellFormed(events[i])
    requires key in StageAt(events, n).world <==> SizeAt(events, n, key).Some?
    requires key in StageAt(events, n).world ==>
      && var s := StageAt(events, n).world[key];
      && SizeAt(events, n, key) == Some((s.width, |s.rows|))
      && forall i: nat :: i < |s.rows| ==> LastWritten(events, n, key, i, s.rows[i])
    requires key in StageAt(events, n + 1).world && row < |StageAt(events, n + 1).world[key].rows|
    ensures LastWritten(events, n + 1, key, row, StageAt(events, n + 1).world[key].rows[row])
  {
    hide StageValid, UpdateAtlas, Covers;
    var e, before, after := events[n], StageAt(events, n).world, StageAt(events, n + 1).world;
    if e.CommitTo? { CommitWrites(StateOf(before, e.key), e.commit); }
    var value := after[key].rows[row];
    if e.CommitTo? && e.key == key && (Covers(e.commit, row) || SizeAt(events, n, key) != SizeAt(events, n + 1, key)) {
      assert Originates(events, n, key, row, value);
    } else {
      assert before[key].rows[row] == value && LastWritten(events, n, key, row, value);
      var k: nat :| k < n && Originates(events, k, key, row, value)
                    && forall j :: k < j < n ==> Spares(events[j], key, row, SizeAt(events, n, key).value);
      assert Spares(e, key, row, SizeAt(events, n, key).value);
    }
  }

  /** What the present at event `n` shows: the last written rows of every surface it asks for that is not in doubt. */
  ghost predicate ShowsWrites(events: seq<Event>, n: nat, doubt: set<u64>, textures: map<u64, Texture>)
    requires n < |events| && events[n].PresentAll?
  {
    forall key :: key in events[n].order && SizeAt(events, n, key).Some? && key !in doubt ==>
      && key in textures && |textures[key].rows| == SizeAt(events, n, key).value.1
      && AllLastWritten(events, n, key, textures[key].rows)
  }

  ghost predicate AllLastWritten(events: seq<Event>, n: nat, key: u64, rows: seq<Row>)
    requires n <= |events|
  {
    forall row: nat :: row < |rows| ==> LastWritten(events, n, key, row, rows[row])
  }

  /** Every successful present of a run shows, row by row, what the surfaces last wrote. */
  lemma PresentShowsWrites(events: seq<Event>, n: nat)
    requires n < |events| && events[n].PresentAll? && forall i :: 0 <= i < |events| ==> WellFormed(events[i])
    requires StageAt(events, n + 1).link.Live?
    ensures ShowsWrites(events, n, StageAt(events, n + 1).doubt, StageAt(events, n + 1).link.kept)
  {
    hide StageValid, UpdateAtlas, LastWritten;
    var world, order, after := StageAt(events, n).world, events[n].order, StageAt(events, n + 1);
    PresentKeepsStage(StageAt(events, n), events[n]);
    forall key | key in order && SizeAt(events, n, key).Some? && key !in after.doubt
      ensures key in after.link.kept && |after.link.kept[key].rows| == SizeAt(events, n, key).value.1
      ensures AllLastWritten(events, n, key, after.link.kept[key].rows)
    {
      RowsAreLastWritten(events, n, key);
      var i := WantedHas(world, order, key);
    }
  }

  /** The presents among the first `n` events that succeeded: one for each shot. */
  ghost function PresentsAt(events: seq<Event>, n: nat): (r: seq<nat>)
    requires n <= |events| && forall i :: 0 <= i < |events| ==> WellFormed(events[i])
    ensures forall i :: 0 <= i < |r| ==> r[i] < n && events[r[i]].PresentAll?
  {
    if n == 0 then [] else
    PresentsAt(events, n - 1) + if events[n - 1].PresentAll? && StageAt(events, n).link.Live? then [n - 1] else []
  }

  /** Every shot of a run shows, row by row, what the surfaces had last written when it was taken. */
  lemma {:induction false} ShotsShowWrites(events: seq<Event>, n: nat)
    requires n <= |events| && forall i :: 0 <= i < |events| ==> WellFormed(events[i])
    ensures |PresentsAt(events, n)| == |ShotsAt(events, n)|
    ensures forall i :: 0 <= i < |ShotsAt(events, n)| ==>
      ShowsWrites(events, PresentsAt(events, n)[i], ShotsAt(events, n)[i].doubt, ShotsAt(events, n)[i].textures)
  {
    hide ShowsWrites, Shown;
    if n > 0 {
      ShotsShowWrites(events, n - 1);
      if events[n - 1].PresentAll? && StageAt(events, n).link.Live? { PresentShowsWrites(events, n - 1); }
    }
  }

  lemma {:induction false} WantedHas(world: map<u64, Source>, order: seq<u64>, key: u64) returns (i: nat)
    requires key in order && key in world
    ensures i < |WantedOf(world, order)| && WantedOf(world, order)[i] == Wanted(key, world[key])
  {
    var n := |order| - 1;
    if order[n] == key { return |WantedOf(world, order[..n])|; }
    i := WantedHas(world, order[..n], key);
  }

  method Gather(world: map<u64, Source>, order: seq<u64>) returns (wanted: seq<Wanted>)
    ensures wanted == WantedOf(world, order)
  {
    wanted := [];
    for n := 0 to |order|
      invariant wanted == WantedOf(world, order[..n])
    {
      assert order[..n + 1][..n] == order[..n];
      if order[n] in world { wanted := wanted + [Wanted(order[n], world[order[n]])]; }
    }
    assert order[..|order|] == order;
  }

  /** Commits, rejected commits and presents in any order: the display takes every run to the stage described. */
  method Interleave(events: seq<Event>) returns (world: map<u64, Source>, shown: seq<map<u64, Texture>>)
    requires forall i :: 0 <= i < |events| ==> WellFormed(events[i])
    ensures world == StageAt(events, |events|).world
    ensures |shown| == |ShotsAt(events, |events|)|
    ensures forall i :: 0 <= i < |shown| ==> shown[i] == ShotsAt(events, |events|)[i].textures
    ensures forall i :: 0 <= i < |shown| ==> Faithful(ShotsAt(events, |events|)[i])
    ensures |PresentsAt(events, |events|)| == |shown|
    ensures forall i :: 0 <= i < |shown| ==>
      ShowsWrites(events, PresentsAt(events, |events|)[i], ShotsAt(events, |events|)[i].doubt, shown[i])
  {
    hide PresentsAt, ShowsWrites, Faithful, UpdateAtlas, WorldValid, Noted, Consistent, StageValid, Presented, LinkOf,
      StillDoubted, WantedOf;
    var presenter := new Presenter();
    world, shown := map[], [];
    for n := 0 to |events|
      invariant presenter.Valid() && fresh(presenter) && fresh(presenter.display)
      invariant world == StageAt(events, n).world && presenter.Link() == StageAt(events, n).link
      invariant |shown| == |ShotsAt(events, n)|
      invariant forall i :: 0 <= i < |shown| ==> shown[i] == ShotsAt(events, n)[i].textures
    {
      assert WellFormed(events[n]);
      match events[n] {
        case CommitTo(key, c) =>
          var next := UpdateAtlas(StateOf(world, key), c);
          world := if next.Some? then world[key := next.value] else world - {key};
        case PresentAll(order, composes, offered, fails, good) =>
          var wanted := Gather(world, order);
          StageWants(StageAt(events, n), order);
          var ok := presenter.Present(wanted, composes, offered, fails, good);
          LinkKept(presenter.contentsValid, presenter.notes, presenter.display.textures);
          if ok {
            shown := shown + [map key | key in KeysOf(presenter.notes) && key in presenter.display.textures
                                :: presenter.display.textures[key]];
          }
      }
    }
    ShotsAreFaithful(events, |events|);
    ShotsShowWrites(events, |events|);
  }

  lemma StageWants(s: Stage, order: seq<u64>)
    requires StageValid(s) && Distinct(order)
    ensures Asked(WantedOf(s.world, order))
  {
    WantedIsAsked(s.world, order);
  }

  lemma LinkKept(valid: bool, notes: seq<Requirement>, textures: map<u64, Texture>)
    ensures LinkOf(valid, notes, textures).Live? <==> valid
    ensures valid ==> LinkOf(valid, notes, textures).kept == map key | key in KeysOf(notes) && key in textures :: textures[key]
  {
  }

  function KeysOf(notes: seq<Requirement>): set<u64> { set i | 0 <= i < |notes| :: notes[i].key }
}
