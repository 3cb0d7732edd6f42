/**
The text database of persistent grants: one tab-separated line per grant, and a
lookup that splits lines and fields. For records with clean identities the
lookup answers exactly whether a matching grant was appended.
*/
module GrantDb {
  import opened Base

  const TAB: byte := 9
  const NEWLINE: byte := 10
  const VERSION: seq<byte> := [118, 50]
  const ALL_USER: seq<byte> := [97, 108, 108, 45, 117, 115, 101, 114]
  const SINGLE: seq<byte> := [115, 105, 110, 103, 108, 101]

  /** Who asks: the fields a record is matched on besides capability and resource. */
  datatype Subject = Subject(uid: u32, package: seq<byte>, developer: seq<byte>, key: seq<byte>, provenance: u32)

  datatype Grant = Grant(subject: Subject, capability: seq<byte>, resource: Option<seq<byte>>, allUser: bool)

  predicate Clean(b: seq<byte>) { TAB !in b && NEWLINE !in b }

  // Splitting.

  function Split(b: seq<byte>, separator: byte): (r: seq<seq<byte>>)
    ensures |r| > 0
  {
    if b == [] then [[]]
    else if b[0] == separator then [[]] + Split(b[1..], separator)
    else
      var rest := Split(b[1..], separator);
      [[b[0]] + rest[0]] + rest[1..]
  }

  /** A part without the separator, followed by one, is the first part. */
  lemma {:induction false} SplitFirst(part: seq<byte>, rest: seq<byte>, separator: byte)
    requires separator !in part
    ensures Split(part + [separator] + rest, separator) == [part] + Split(rest, separator)
  {
    var whole := part + [separator] + rest;
    if part == [] {
      assert whole[1..] == rest;
    } else {
      assert whole[1..] == part[1..] + [separator] + rest;
      SplitFirst(part[1..], rest, separator);
      assert [part[0]] + part[1..] == part;
    }
  }

  lemma {:induction false} SplitLast(part: seq<byte>, separator: byte)
    requires separator !in part
    ensures Split(part, separator) == [part]
  {
    if part != [] {
      SplitLast(part[1..], separator);
      assert [part[0]] + part[1..] == part;
    }
  }

  /** No part contains the separator, and parts contain only bytes of the whole. */
  lemma {:induction false} PartsAreClean(b: seq<byte>, separator: byte, i: nat)
    requires i < |Split(b, separator)|
    ensures separator !in Split(b, separator)[i]
    ensures forall x :: x in Split(b, separator)[i] ==> x in b
  {
    if b != [] {
      assert forall x :: x in b[1..] ==> x in b;
      if b[0] == separator {
        if i > 0 { PartsAreClean(b[1..], separator, i - 1); }
      } else {
        PartsAreClean(b[1..], separator, i);
      }
    }
  }

  function Join(parts: seq<seq<byte>>, separator: byte): seq<byte> {
    if parts == [] then []
    else if |parts| == 1 then parts[0]
    else parts[0] + [separator] + Join(parts[1..], separator)
  }

  lemma {:induction false} SplitJoin(parts: seq<seq<byte>>, separator: byte)
    requires parts != [] && forall i :: 0 <= i < |parts| ==> separator !in parts[i]
    ensures Split(Join(parts, separator), separator) == parts
  {
    if |parts| == 1 {
      SplitLast(parts[0], separator);
    } else {
      SplitJoin(parts[1..], separator);
      SplitFirst(parts[0], Join(parts[1..], separator), separator);
    }
  }

  lemma {:induction false} JoinHasNo(parts: seq<seq<byte>>, separator: byte, x: byte)
    requires x != separator && forall i :: 0 <= i < |parts| ==> x !in parts[i]
    ensures x !in Join(parts, separator)
  {
    if |parts| > 1 { JoinHasNo(parts[1..], separator, x); }
  }

  // Numbers.

  function Decimal(n: nat): seq<byte> {
    if n < 10 then [48 + n] else Decimal(n / 10) + [48 + n % 10]
  }

  lemma {:induction false} DecimalClean(n: nat)
    ensures Clean(Decimal(n)) && |Decimal(n)| > 0
  {
    if n >= 10 { DecimalClean(n / 10); }
  }

  lemma {:induction false} DecimalInjective(m: nat, n: nat)
    requires Decimal(m) == Decimal(n)
    ensures m == n
  {
    DecimalClean(m / 10);
    DecimalClean(n / 10);
    var a, b := Decimal(m), Decimal(n);
    assert a[|a| - 1] == 48 + m % 10 && b[|b| - 1] == 48 + n % 10;
    if m >= 10 && n >= 10 {
      assert a[..|a| - 1] == Decimal(m / 10) && b[..|b| - 1] == Decimal(n / 10);
      DecimalInjective(m / 10, n / 10);
    }
  }

  function Digit(n: nat): byte
    requires n < 16
  {
    if n < 10 then 48 + n else 87 + n
  }

  function Hex(b: seq<byte>): (r: seq<byte>)
    ensures |r| == 2 * |b|
  {
    if b == [] then [] else [Digit(b[0] / 16), Digit(b[0] % 16)] + Hex(b[1..])
  }

  lemma {:induction false} HexClean(b: seq<byte>)
    ensures Clean(Hex(b))
  {
    if b != [] { HexClean(b[1..]); }
  }

  lemma {:induction false} HexInjective(a: seq<byte>, b: seq<byte>)
    requires Hex(a) == Hex(b)
    ensures a == b
  {
    if a != [] && b != [] {
      assert Hex(a)[0] == Hex(b)[0] && Hex(a)[1] == Hex(b)[1];
      assert a[0] == 16 * (a[0] / 16) + a[0] % 16 && b[0] == 16 * (b[0] / 16) + b[0] % 16;
      assert Hex(a)[2..] == Hex(a[1..]) && Hex(b)[2..] == Hex(b[1..]);
      HexInjective(a[1..], b[1..]);
      assert a == [a[0]] + a[1..] && b == [b[0]] + b[1..];
    }
  }

  // Lines.

  /** A missing resource and an empty one are written alike. */
  function ResourceText(resource: Option<seq<byte>>): seq<byte> {
    if resource.Some? then resource.value else []
  }

  function Fields(g: Grant): seq<seq<byte>> {
    [VERSION, Decimal(g.subject.uid), g.subject.package, g.subject.developer, Hex(g.subject.key),
     Decimal(g.subject.provenance), g.capability, if g.allUser then ALL_USER else SINGLE, ResourceText(g.resource)]
  }

  function Line(g: Grant): seq<byte> { Join(Fields(g), TAB) }

  /** The file of a list of grants. */
  function File(grants: seq<Grant>): seq<byte> {
    if grants == [] then [] else File(grants[..|grants| - 1]) + Line(grants[|grants| - 1]) + [NEWLINE]
  }

  predicate CleanSubject(s: Subject) { Clean(s.package) && Clean(s.developer) }

  predicate CleanGrant(g: Grant) {
    CleanSubject(g.subject) && Clean(g.capability) && Clean(ResourceText(g.resource))
  }

  // Lookup.

  /** One line grants the request: the subject's fields agree, and it is for all users or for this very request. */
  predicate LineGrants(line: seq<byte>, s: Subject, capability: seq<byte>, resource: Option<seq<byte>>) {
    var f := Split(line, TAB);
    && line != [] && |f| >= 8 && f[0] == VERSION
    && f[1] == Decimal(s.uid) && f[2] == s.package && f[3] == s.developer && f[4] == Hex(s.key)
    && f[5] == Decimal(s.provenance)
    && (f[7] == ALL_USER
        || (f[7] == SINGLE && f[6] == capability && (if |f| > 8 then f[8] else []) == ResourceText(resource)))
  }

  ghost predicate Granted(data: seq<byte>, s: Subject, capability: seq<byte>, resource: Option<seq<byte>>) {
    exists i :: 0 <= i < |Split(data, NEWLINE)| && LineGrants(Split(data, NEWLINE)[i], s, capability, resource)
  }

  /** `grant_db_matches`: scan the lines and their fields. */
  method Matches(data: seq<byte>, s: Subject, capability: seq<byte>, resource: Option<seq<byte>>) returns (found: bool)
    ensures found <==> Granted(data, s, capability, resource)
  {
    var lines := Split(data, NEWLINE);
    for n := 0 to |lines|
      invariant forall k :: 0 <= k < n ==> !LineGrants(lines[k], s, capability, resource)
    {
      var line := lines[n];
      if line != [] {
        var f := Split(line, TAB);
        if |f| >= 8 && f[0] == VERSION && f[1] == Decimal(s.uid) && f[2] == s.package && f[3] == s.developer
           && f[4] == Hex(s.key) && f[5] == Decimal(s.provenance)
        {
          if f[7] == ALL_USER { return true; }
          var granted := if |f| > 8 then f[8] else [];
          if f[7] == SINGLE && f[6] == capability && granted == ResourceText(resource) { return true; }
        }
      }
    }
    found := false;
  }

  /** The grant answers the request, stated on the records themselves. */
  predicate Answers(g: Grant, s: Subject, capability: seq<byte>, resource: Option<seq<byte>>) {
    g.subject == s
    && (g.allUser || (g.capability == capability && ResourceText(g.resource) == ResourceText(resource)))
  }

  lemma LineSplits(g: Grant)
    requires CleanGrant(g)
    ensures Split(Line(g), TAB) == Fields(g) && NEWLINE !in Line(g) && Line(g) != []
  {
    hide Split, Join, Decimal, Hex;
    DecimalClean(g.subject.uid);
    DecimalClean(g.subject.provenance);
    HexClean(g.subject.key);
    var f := Fields(g);
    assert forall i :: 0 <= i < |f| ==> Clean(f[i]);
    SplitJoin(f, TAB);
    JoinHasNo(f, TAB, NEWLINE);
    SplitOfEmpty(TAB);
  }

  lemma SplitOfEmpty(separator: byte)
    ensures Split([], separator) == [[]]
  {
  }

  /** For a clean record the line grants exactly what the record answers. */
  lemma LineIsExact(g: Grant, s: Subject, capability: seq<byte>, resource: Option<seq<byte>>)
    requires CleanGrant(g)
    ensures LineGrants(Line(g), s, capability, resource) <==> Answers(g, s, capability, resource)
  {
    hide Split, Line, Decimal, Hex;
    LineSplits(g);
    if Decimal(g.subject.uid) == Decimal(s.uid) { DecimalInjective(g.subject.uid, s.uid); }
    if Decimal(g.subject.provenance) == Decimal(s.provenance) { DecimalInjective(g.subject.provenance, s.provenance); }
    if Hex(g.subject.key) == Hex(s.key) { HexInjective(g.subject.key, s.key); }
    assert ALL_USER != SINGLE;
  }

  predicate AllClean(grants: seq<Grant>) { forall i :: 0 <= i < |grants| ==> CleanGrant(grants[i]) }

  function Lines(grants: seq<Grant>): (r: seq<seq<byte>>)
    ensures |r| == |grants| && forall i :: 0 <= i < |r| ==> r[i] == Line(grants[i])
  {
    seq(|grants|, i requires 0 <= i < |grants| => Line(grants[i]))
  }

  /** Splitting a prefix of whole lines and a rest. */
  lemma {:induction false} FileSplits(grants: seq<Grant>, rest: seq<byte>)
    requires AllClean(grants)
    ensures Split(File(grants) + rest, NEWLINE) == Lines(grants) + Split(rest, NEWLINE)
  {
    hide Split, Line;
    if grants == [] {
      assert File(grants) + rest == rest;
    } else {
      var n := |grants| - 1;
      var line := Line(grants[n]);
      LineSplits(grants[n]);
      assert File(grants) + rest == File(grants[..n]) + (line + [NEWLINE] + rest);
      FileSplits(grants[..n], line + [NEWLINE] + rest);
      SplitFirst(line, rest, NEWLINE);
      assert Lines(grants) == Lines(grants[..n]) + [line];
    }
  }

  /** A lookup in a file of clean records finds a grant exactly when some record answers the request. */
  lemma LookupIsExact(grants: seq<Grant>, s: Subject, capability: seq<byte>, resource: Option<seq<byte>>)
    requires AllClean(grants)
    ensures Granted(File(grants), s, capability, resource)
      <==> exists i :: 0 <= i < |grants| && Answers(grants[i], s, capability, resource)
  {
    hide Split, Line, File, LineGrants;
    FileSplits(grants, []);
    SplitOfEmpty(NEWLINE);
    assert File(grants) + [] == File(grants);
    var lines := Split(File(grants), NEWLINE);
    EmptyGrantsNothing(s, capability, resource);
    forall i | 0 <= i < |grants|
      ensures lines[i] == Line(grants[i])
      ensures LineGrants(lines[i], s, capability, resource) <==> Answers(grants[i], s, capability, resource)
    {
      LineIsExact(grants[i], s, capability, resource);
    }
  }

  lemma EmptyGrantsNothing(s: Subject, capability: seq<byte>, resource: Option<seq<byte>>)
    ensures !LineGrants([], s, capability, resource)
  {
  }

  /** A subject with a tab or newline in its identity is never granted anything, whatever the file holds. */
  lemma DirtySubjectIsNeverGranted(data: seq<byte>, s: Subject, capability: seq<byte>, resource: Option<seq<byte>>)
    requires !CleanSubject(s)
    ensures !Granted(data, s, capability, resource)
  {
    hide Split;
    forall i | 0 <= i < |Split(data, NEWLINE)| ensures !LineGrants(Split(data, NEWLINE)[i], s, capability, resource) {
      var line := Split(data, NEWLINE)[i];
      PartsAreClean(data, NEWLINE, i);
      var f := Split(line, TAB);
      forall k | 0 <= k < |f| ensures Clean(f[k]) {
        PartsAreClean(line, TAB, k);
      }
    }
  }

  /** Whatever is in front of a separator, the parts behind it are parts of the whole. */
  lemma {:induction false} SplitBehind(front: seq<byte>, rest: seq<byte>, separator: byte)
    ensures Split(front + [separator] + rest, separator) == Split(front, separator) + Split(rest, separator)
  {
    var whole := front + [separator] + rest;
    if front == [] {
      assert whole[1..] == rest;
    } else {
      assert whole[1..] == front[1..] + [separator] + rest;
      SplitBehind(front[1..], rest, separator);
    }
  }

  /** A line between two newlines is looked at, whatever surrounds it. */
  lemma LineCounts(front: seq<byte>, line: seq<byte>, rest: seq<byte>, s: Subject, capability: seq<byte>,
                   resource: Option<seq<byte>>)
    requires NEWLINE !in line && LineGrants(line, s, capability, resource)
    ensures Granted(front + [NEWLINE] + line + [NEWLINE] + rest, s, capability, resource)
    ensures Granted(line + [NEWLINE] + rest, s, capability, resource)
  {
    hide Split, LineGrants;
    SplitFirst(line, rest, NEWLINE);
    assert Split(line + [NEWLINE] + rest, NEWLINE)[0] == line;
    SplitBehind(front, line + [NEWLINE] + rest, NEWLINE);
    assert front + [NEWLINE] + (line + [NEWLINE] + rest) == front + [NEWLINE] + line + [NEWLINE] + rest;
    var n := |Split(front, NEWLINE)|;
    assert Split(front + [NEWLINE] + line + [NEWLINE] + rest, NEWLINE)[n] == line;
  }

  /** A file is empty or ends with a newline. */
  lemma FileEnds(grants: seq<Grant>) returns (front: seq<byte>)
    ensures if grants == [] then File(grants) == [] else File(grants) == front + [NEWLINE]
  {
    hide Line;
    front := if grants == [] then [] else File(grants[..|grants| - 1]) + Line(grants[|grants| - 1]);
  }

  /** Whatever was stored before, a grant is found again exactly when the identity it was given to is clean. */
  lemma AppendedIsFoundIff(grants: seq<Grant>, g: Grant)
    requires Clean(g.capability) && Clean(ResourceText(g.resource))
    ensures Granted(File(grants + [g]), g.subject, g.capability, g.resource) <==> CleanSubject(g.subject)
  {
    hide Split, Line, LineGrants;
    if CleanSubject(g.subject) {
      LineSplits(g);
      LineIsExact(g, g.subject, g.capability, g.resource);
      var front := FileEnds(grants);
      assert (grants + [g])[..|grants|] == grants;
      LineCounts(front, Line(g), [], g.subject, g.capability, g.resource);
      assert File(grants + [g]) == File(grants) + Line(g) + [NEWLINE] + [];
      assert grants != [] ==> File(grants + [g]) == front + [NEWLINE] + Line(g) + [NEWLINE] + [];
      assert grants == [] ==> File(grants + [g]) == Line(g) + [NEWLINE] + [];
    } else {
      DirtySubjectIsNeverGranted(File(grants + [g]), g.subject, g.capability, g.resource);
    }
  }

  /** What `append` lets through: capability and resource without separators. */
  predicate Writable(grants: seq<Grant>) {
    forall i :: 0 <= i < |grants| ==> Clean(grants[i].capability) && Clean(ResourceText(grants[i].resource))
  }

  ghost predicate Exact(grants: seq<Grant>, s: Subject, capability: seq<byte>, resource: Option<seq<byte>>) {
    Granted(File(grants), s, capability, resource)
    <==> exists i :: 0 <= i < |grants| && Answers(grants[i], s, capability, resource)
  }

  /** The lookup is exact for every request exactly when every stored identity is clean. */
  lemma LookupIsExactIff(grants: seq<Grant>)
    requires Writable(grants)
    ensures (forall s, capability, resource :: Exact(grants, s, capability, resource)) <==> AllClean(grants)
  {
    hide Granted, File;
    if AllClean(grants) {
      forall s, capability, resource ensures Exact(grants, s, capability, resource) {
        LookupIsExact(grants, s, capability, resource);
      }
    } else {
      var i :| 0 <= i < |grants| && !CleanGrant(grants[i]);
      var g := grants[i];
      DirtySubjectIsNeverGranted(File(grants), g.subject, g.capability, g.resource);
      assert Answers(g, g.subject, g.capability, g.resource);
      assert !Exact(grants, g.subject, g.capability, g.resource);
    }
  }

  /** An identity as the requester context stores it: names of bounded length and a key of 32 bytes. */
  predicate Fits(s: Subject, limit: nat) { |s.package| <= limit && |s.developer| <= limit && |s.key| == 32 }

  /** The package of `g` is the line of another record between newlines. */
  predicate HoldsLine(g: Grant, other: Grant) {
    CleanGrant(other) && g.subject.package == [NEWLINE] + Line(other) + [NEWLINE]
  }

  /** Nor is it right in the other direction then: one record whose package holds a line answers for that line. */
  lemma PackageCanHoldLine(g: Grant, other: Grant)
    requires HoldsLine(g, other)
    ensures Granted(File([g]), other.subject, other.capability, other.resource)
    ensures !Answers(g, other.subject, other.capability, other.resource)
  {
    hide Split, LineGrants, Line;
    LineSplits(other);
    LineIsExact(other, other.subject, other.capability, other.resource);
    var f := Fields(g);
    var front := VERSION + [TAB] + f[1] + [TAB];
    var rest := [TAB] + Join(f[3..], TAB) + [NEWLINE];
    LineCounts(front, Line(other), rest, other.subject, other.capability, other.resource);
    LineAround(g);
    assert [g][..0] == [];
    assert File([]) == [];
    assert File([g]) == Line(g) + [NEWLINE];
    assert File([g]) == front + [NEWLINE] + Line(other) + [NEWLINE] + rest;
    assert NEWLINE in g.subject.package;
  }

  /** Whether stored identities can do that depends on the length of the field alone. */
  lemma PackageHoldsLineIff(limit: nat)
    ensures (exists g: Grant, other: Grant ::
               Fits(g.subject, limit) && Fits(other.subject, limit) && HoldsLine(g, other)) <==> limit >= 84
  {
    hide Line;
    if g: Grant, other: Grant :| Fits(g.subject, limit) && Fits(other.subject, limit) && HoldsLine(g, other) {
      LineLength(other);
    }
    if limit >= 84 {
      var key := seq(32, _ => 0);
      var other := Grant(Subject(0, [], [], key, 0), [], None, false);
      LineLength(other);
      var g := Grant(Subject(0, [NEWLINE] + Line(other) + [NEWLINE], [], key, 0), [], None, false);
      assert HoldsLine(g, other) && Fits(g.subject, limit) && Fits(other.subject, limit);
    }
  }

  lemma JoinTail(f: seq<seq<byte>>, k: nat, separator: byte)
    requires k + 1 < |f|
    ensures |Join(f[k..], separator)| == |f[k]| + 1 + |Join(f[k + 1..], separator)|
  {
    assert f[k..][1..] == f[k + 1..];
  }

  /** A record with a key of 32 bytes takes at least 82 bytes, and an empty one exactly that. */
  lemma LineLength(g: Grant)
    requires |g.subject.key| == 32
    ensures |Line(g)| >= 82
    ensures g == Grant(Subject(0, [], [], g.subject.key, 0), [], None, false) ==> |Line(g)| == 82
  {
    hide Join;
    var f := Fields(g);
    DecimalClean(g.subject.uid);
    DecimalClean(g.subject.provenance);
    JoinOne(f[8..], TAB);
    JoinTail(f, 7, TAB);
    JoinTail(f, 6, TAB);
    JoinTail(f, 5, TAB);
    JoinTail(f, 4, TAB);
    JoinTail(f, 3, TAB);
    JoinTail(f, 2, TAB);
    JoinTail(f, 1, TAB);
    JoinTail(f, 0, TAB);
    assert f[0..] == f;
  }

  lemma LineAround(g: Grant)
    ensures Line(g) == VERSION + [TAB] + Fields(g)[1] + [TAB] + g.subject.package + [TAB] + Join(Fields(g)[3..], TAB)
  {
    var f := Fields(g);
    assert f[1..][1..] == f[2..] && f[2..][1..] == f[3..];
    assert Join(f[2..], TAB) == g.subject.package + [TAB] + Join(f[3..], TAB);
    assert Join(f[1..], TAB) == f[1] + [TAB] + Join(f[2..], TAB);
  }

  predicate Blank(resource: Option<seq<byte>>) { resource.None? || resource.value == [] }

  /** A grant for one resource is found for that resource only, except that no resource and an empty one are confused. */
  lemma SingleGrantIsFoundIff(g: Grant, resource: Option<seq<byte>>)
    requires CleanGrant(g) && !g.allUser
    ensures Granted(File([g]), g.subject, g.capability, resource)
            <==> resource == g.resource || (Blank(resource) && Blank(g.resource))
  {
    hide Granted, File;
    LookupIsExact([g], g.subject, g.capability, resource);
    assert [g][0] == g;
  }

  /** A grant without a resource is found for the empty one, and the other way round. */
  lemma MissingResourceReadsAsEmpty(g: Grant)
    requires CleanGrant(g) && !g.allUser && Blank(g.resource)
    ensures Granted(File([g.(resource := None)]), g.subject, g.capability, Some([]))
    ensures Granted(File([g.(resource := Some([]))]), g.subject, g.capability, None)
  {
    SingleGrantIsFoundIff(g.(resource := None), Some([]));
    SingleGrantIsFoundIff(g.(resource := Some([])), None);
  }

  /** The fields of a record, one after the other. */
  method WriteLine(g: Grant) returns (line: seq<byte>)
    ensures line == Line(g)
  {
    hide Join;
    var fields := Fields(g);
    line := fields[0];
    JoinOne(fields[..1], TAB);
    for k := 1 to |fields|
      invariant line == Join(fields[..k], TAB)
    {
      JoinMore(fields, k, TAB);
      line := line + [TAB] + fields[k];
    }
    assert fields[..|fields|] == fields;
  }

  class Database {
    var data: seq<byte>
    ghost var grants: seq<Grant>

    constructor ()
      ensures data == File(grants) && grants == []
    {
      data, grants := [], [];
    }

    /** Append one grant; text with separators or a NUL is refused. `stored` is the outcome of the file replacement. */
    method Append(g: Grant, stored: bool) returns (ok: bool)
      requires data == File(grants)
      modifies this
      ensures data == File(grants)
      ensures ok <==> stored && PlainText(g.capability) && (g.resource.Some? ==> PlainText(g.resource.value))
      ensures grants == if ok then old(grants) + [g] else old(grants)
      ensures Writable(old(grants)) ==> Writable(grants)
    {
      hide File, Line;
      if !PlainText(g.capability) || (g.resource.Some? && !PlainText(g.resource.value)) { return false; }
      if !stored { return false; }
      var line := WriteLine(g);
      FileGrows(grants, g);
      data := data + line + [NEWLINE];
      grants := grants + [g];
      ok := true;
    }

    /** The lookup over everything appended so far. */
    method IsGranted(s: Subject, capability: seq<byte>, resource: Option<seq<byte>>) returns (found: bool)
      requires data == File(grants)
      ensures found <==> Granted(File(grants), s, capability, resource)
      ensures !CleanSubject(s) ==> !found
      ensures AllClean(grants) ==>
        (found <==> exists i :: 0 <= i < |grants| && Answers(grants[i], s, capability, resource))
    {
      found := Matches(data, s, capability, resource);
      if !CleanSubject(s) { DirtySubjectIsNeverGranted(data, s, capability, resource); }
      if AllClean(grants) { LookupIsExact(grants, s, capability, resource); }
    }
  }

  predicate PlainText(b: seq<byte>) { Clean(b) && 0 !in b }

  lemma JoinOne(parts: seq<seq<byte>>, separator: byte)
    requires |parts| == 1
    ensures Join(parts, separator) == parts[0]
  {
  }

  lemma FileGrows(grants: seq<Grant>, g: Grant)
    ensures File(grants + [g]) == File(grants) + Line(g) + [NEWLINE]
  {
    assert (grants + [g])[..|grants|] == grants;
  }

  lemma {:induction false} JoinMore(parts: seq<seq<byte>>, k: nat, separator: byte)
    requires 0 < k < |parts|
    ensures Join(parts[..k + 1], separator) == Join(parts[..k], separator) + [separator] + parts[k]
  {
    if k > 1 {
      JoinMore(parts[1..], k - 1, separator);
      assert parts[..k + 1][1..] == parts[1..][..k] && parts[..k][1..] == parts[1..][..k - 1];
    } else {
      assert parts[..2][1..] == [parts[1]];
    }
  }
}
