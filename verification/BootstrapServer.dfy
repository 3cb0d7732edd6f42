/**
The read-only bootstrap endpoint: file ranges and directory pages of an
immutable tree, within the byte budget of each request. Messages are modelled
after decoding; record sizes and limits of the wire format are parameters.
*/
module BootstrapServer {
  import opened Base

  datatype Limits = Limits(maxTransfer: nat, maxPath: nat, recordHeader: nat, maxName: nat)
  {
    /** A page can always hold one record with the longest name. */
    predicate Valid() { 0 < maxName && 0 < recordHeader && recordHeader + maxName <= maxTransfer < U32_LIMIT }
  }

  const MAX_ENTRIES: nat := 128
  const EOF: nat := 1

  datatype Operation = Read | ReadDir | Status | Other

  datatype Header = Header(operation: Operation, id: u64, offset: u64, flags: nat, status: int, spare: nat)

  /** A request after decoding: `flags` is the byte budget. */
  datatype Request = Request(header: Header, path: string)

  /** A directory entry of the tree; `text` says whether the name is valid text. */
  datatype Entry = Entry(name: seq<byte>, text: bool)

  datatype Node = File(bytes: seq<byte>) | Directory(entries: seq<Entry>) | Absent(errno: nat)

  datatype Body = Bytes(bytes: seq<byte>) | Records(names: seq<seq<byte>>)
  {
    /** The encoded size of a reply body. */
    function Size(l: Limits): nat {
      match this
      case Bytes(b) => |b|
      case Records(names) => Encoded(l, names)
    }
  }

  datatype Reply = Reply(header: Header, body: Body)

  function Encoded(l: Limits, names: seq<seq<byte>>): nat {
    if names == [] then 0 else Encoded(l, names[..|names| - 1]) + l.recordHeader + |names[|names| - 1]|
  }

  const DOT: seq<byte> := [46]
  const DOT_DOT: seq<byte> := [46, 46]

  predicate IsDot(name: seq<byte>) { name == DOT || name == DOT_DOT }

  /** The names of entries `i..j`, without the dot entries, in directory order. */
  function Visible(entries: seq<Entry>, i: nat, j: nat): seq<seq<byte>>
    requires i <= j <= |entries|
  {
    if i == j then []
    else Visible(entries, i, j - 1) + (if IsDot(entries[j - 1].name) then [] else [entries[j - 1].name])
  }

  function NameBytes(names: seq<seq<byte>>): nat {
    if names == [] then 0 else NameBytes(names[..|names| - 1]) + |names[|names| - 1]|
  }

  lemma {:induction false} VisibleSplits(entries: seq<Entry>, i: nat, j: nat, k: nat)
    requires i <= j <= k <= |entries|
    ensures Visible(entries, i, k) == Visible(entries, i, j) + Visible(entries, j, k)
  {
    if j < k { VisibleSplits(entries, i, j, k - 1); }
  }

  lemma {:induction false} EncodedSplits(l: Limits, a: seq<seq<byte>>, b: seq<seq<byte>>)
    ensures Encoded(l, a + b) == Encoded(l, a) + Encoded(l, b)
  {
    if b == [] {
      assert a + b == a;
    } else {
      assert (a + b)[..|a + b| - 1] == a + b[..|b| - 1];
      EncodedSplits(l, a, b[..|b| - 1]);
    }
  }

  lemma {:induction false} EncodedIs(l: Limits, names: seq<seq<byte>>)
    ensures Encoded(l, names) == |names| * l.recordHeader + NameBytes(names)
  {
    if names != [] {
      EncodedIs(l, names[..|names| - 1]);
      assert |names| * l.recordHeader == (|names| - 1) * l.recordHeader + l.recordHeader;
    }
  }

  // Reading a file.

  /** The bytes a read of `budget` bytes at `offset` gives. */
  function Range(file: seq<byte>, offset: nat, budget: nat): (r: seq<byte>)
    ensures |r| <= budget
  {
    if offset >= |file| then [] else file[offset..Min(|file|, offset + budget)]
  }

  /** From call `n` on, with `left` bytes to go, no piece is empty or longer than what is left. */
  predicate PiecesFit(piece: (nat, nat) -> nat, n: nat, left: nat)
    decreases left
  {
    left == 0 || (0 < piece(n, left) <= left && PiecesFit(piece, n + 1, left - piece(n, left)))
  }

  /** A file that hands out something whenever something is left. */
  ghost predicate Obliging(piece: (nat, nat) -> nat) {
    forall n: nat, left: nat :: left > 0 ==> 0 < piece(n, left) <= left
  }

  lemma {:induction false} ObligingFits(piece: (nat, nat) -> nat, n: nat, left: nat)
    requires Obliging(piece)
    ensures PiecesFit(piece, n, left)
    decreases left
  {
    if left > 0 {
      assert 0 < piece(n, left) <= left;
      ObligingFits(piece, n + 1, left - piece(n, left));
    }
  }

  /**
  Fill `output` from a file that hands out pieces of its own choosing; a piece that is empty or too long is
  an error.
  */
  method ReadRange(file: seq<byte>, output: array<byte>, length: nat, offset: nat, piece: (nat, nat) -> nat)
    returns (ok: bool)
    requires length <= output.Length && offset + length <= |file|
    modifies output
    ensures ok ==> output[..length] == file[offset..offset + length]
    ensures ok <==> PiecesFit(piece, 0, length)
  {
    var done, calls := 0, 0;
    while done < length
      invariant done <= length && output[..done] == file[offset..offset + done]
      invariant PiecesFit(piece, 0, length) <==> PiecesFit(piece, calls, length - done)
      decreases length - done
    {
      var count := piece(calls, length - done);
      if count == 0 || count > length - done { return false; }
      ghost var before := output[..done];
      forall k | 0 <= k < count { output[done + k] := file[offset + done + k]; }
      assert output[..done] == before;
      assert output[done..done + count] == file[offset + done..offset + done + count];
      assert output[..done + count] == output[..done] + output[done..done + count];
      done, calls := done + count, calls + 1;
    }
    ok := true;
  }

  // Reading a directory.

  /** One page: entries are consumed until the page is full, a name is not text, or the directory ends. */
  function Scan(entries: seq<Entry>, i: nat, count: nat, bytes: nat, maxEntries: nat, maxBytes: nat)
    : (r: Result<(nat, bool), nat>)
    ensures r.Ok? && i <= |entries| ==> i <= r.value.0 <= |entries|
    ensures r.Err? ==> r.error in {5, 22}
    decreases |entries| - i
  {
    if i >= |entries| then Ok((i, true))
    else if !entries[i].text then Err(5)
    else if IsDot(entries[i].name) then Scan(entries, i + 1, count, bytes, maxEntries, maxBytes)
    else if count == maxEntries || bytes + |entries[i].name| > maxBytes
    then if count == 0 then Err(22) else Ok((i, false))
    else Scan(entries, i + 1, count + 1, bytes + |entries[i].name|, maxEntries, maxBytes)
  }

  predicate AllText(entries: seq<Entry>, i: nat, j: nat)
    requires j <= |entries|
  {
    forall k :: i <= k < j ==> entries[k].text
  }

  /** A page is within both limits, advances unless the directory ends, and stops only before an entry that is left. */
  lemma {:induction false} ScanPage(entries: seq<Entry>, i: nat, count: nat, bytes: nat, maxEntries: nat, maxBytes: nat)
    requires i <= |entries| && count <= maxEntries && bytes <= maxBytes
    requires Scan(entries, i, count, bytes, maxEntries, maxBytes).Ok?
    ensures var (next, eof) := Scan(entries, i, count, bytes, maxEntries, maxBytes).value;
      && i <= next <= |entries| && (eof <==> next == |entries|) && AllText(entries, i, next)
      && count + |Visible(entries, i, next)| <= maxEntries
      && bytes + NameBytes(Visible(entries, i, next)) <= maxBytes
      && (!eof ==> count + |Visible(entries, i, next)| > 0)
    decreases |entries| - i
  {
    hide Visible, NameBytes;
    if i < |entries| {
      var (next, eof) := Scan(entries, i, count, bytes, maxEntries, maxBytes).value;
      if IsDot(entries[i].name) {
        ScanPage(entries, i + 1, count, bytes, maxEntries, maxBytes);
        VisibleFirst(entries, i, next);
      } else if !(count == maxEntries || bytes + |entries[i].name| > maxBytes) {
        ScanPage(entries, i + 1, count + 1, bytes + |entries[i].name|, maxEntries, maxBytes);
        VisibleFirst(entries, i, next);
      } else {
        NothingVisible(entries, i);
      }
    } else {
      NothingVisible(entries, i);
    }
  }

  lemma NothingVisible(entries: seq<Entry>, i: nat)
    requires i <= |entries|
    ensures Visible(entries, i, i) == [] && NameBytes([]) == 0
  {
  }

  lemma VisibleFirst(entries: seq<Entry>, i: nat, j: nat)
    requires i < j <= |entries|
    ensures var dot := IsDot(entries[i].name);
      && |Visible(entries, i, j)| == (if dot then 0 else 1) + |Visible(entries, i + 1, j)|
      && NameBytes(Visible(entries, i, j))
         == (if dot then 0 else |entries[i].name|) + NameBytes(Visible(entries, i + 1, j))
  {
    VisibleSplits(entries, i, i + 1, j);
    assert Visible(entries, i, i) == [];
    if IsDot(entries[i].name) {
      assert [] + Visible(entries, i + 1, j) == Visible(entries, i + 1, j);
    } else {
      assert Visible(entries, i, i + 1) == [entries[i].name];
      NameBytesFirst(entries[i].name, Visible(entries, i + 1, j));
    }
  }

  lemma {:induction false} NameBytesFirst(name: seq<byte>, rest: seq<seq<byte>>)
    ensures NameBytes([name] + rest) == |name| + NameBytes(rest)
  {
    if rest == [] {
      assert [name] + rest == [name];
      assert [name][..0] == [];
    } else {
      assert ([name] + rest)[..|rest|] == [name] + rest[..|rest| - 1];
      NameBytesFirst(name, rest[..|rest| - 1]);
    }
  }

  /** Reading fails only at a name that is not text, when every name fits a page. */
  lemma {:induction false} ScanSucceeds(entries: seq<Entry>, i: nat, count: nat, bytes: nat, maxEntries: nat, maxBytes: nat)
    requires i <= |entries| && 0 < maxEntries && count <= maxEntries && bytes <= maxBytes
    requires count == 0 ==> bytes == 0
    requires forall k :: i <= k < |entries| ==> |entries[k].name| <= maxBytes && entries[k].text
    ensures Scan(entries, i, count, bytes, maxEntries, maxBytes).Ok?
    decreases |entries| - i
  {
    if i < |entries| {
      if IsDot(entries[i].name) {
        ScanSucceeds(entries, i + 1, count, bytes, maxEntries, maxBytes);
      } else if !(count == maxEntries || bytes + |entries[i].name| > maxBytes) {
        ScanSucceeds(entries, i + 1, count + 1, bytes + |entries[i].name|, maxEntries, maxBytes);
      }
    }
  }

  /** `read_directory`: the loop over all entries, skipping those before `start`. */
  method ReadDirectory(entries: seq<Entry>, start: nat, maxEntries: nat, maxBytes: nat)
    returns (names: seq<seq<byte>>, next: nat, eof: bool, errno: nat)
    ensures maxEntries == 0 || maxBytes == 0 ==> errno == 22
    ensures maxEntries > 0 && maxBytes > 0 && start > |entries| ==> errno == 0 && names == [] && next == start && eof
    ensures maxEntries > 0 && maxBytes > 0 && start <= |entries| ==>
      match Scan(entries, start, 0, 0, maxEntries, maxBytes)
      case Err(e) => errno == e
      case Ok((n, e)) => errno == 0 && next == n && eof == e && start <= n <= |entries| && names == Visible(entries, start, n)
  {
    names, next, eof, errno := [], start, true, 0;
    if maxEntries == 0 || maxBytes == 0 { errno := 22; return; }
    var bytes: nat := 0;
    for index := 0 to |entries|
      invariant next == Max(start, index) && bytes <= maxBytes && |names| <= maxEntries && eof && errno == 0
      invariant index < start ==> names == [] && bytes == 0
      invariant index >= start ==> names == Visible(entries, start, index)
      invariant start <= |entries| ==> Scan(entries, start, 0, 0, maxEntries, maxBytes)
                                       == Scan(entries, next, |names|, bytes, maxEntries, maxBytes)
    {
      if index >= start {
        if !entries[index].text { errno := 5; return; }
        var name := entries[index].name;
        if !IsDot(name) {
          if |names| == maxEntries || |name| > maxBytes - bytes {
            if names == [] { errno := 22; return; }
            eof := false;
            return;
          }
          names := names + [name];
          bytes := bytes + |name|;
        }
        next := next + 1;
      }
    }
  }

  // Answering a request.

  predicate PathOk(l: Limits, path: string) {
    0 < |path| <= l.maxPath && path[0] == '/' && forall i :: 0 <= i < |path| ==> path[i] != '\0'
  }

  function Refusal(id: u64, errno: nat): Reply { Reply(Header(Status, id, 0, 0, 0 - errno, 0), Bytes([])) }

  /** How many records a directory page may hold. */
  function PageEntries(l: Limits, budget: nat): nat
    requires l.recordHeader + l.maxName > 0
  {
    Max(1, Min(budget / (l.recordHeader + l.maxName), MAX_ENTRIES))
  }

  function Respond(l: Limits, tree: string -> Node, q: Request): Reply
    requires l.Valid()
  {
    var h := q.header;
    if h.spare != 0 || h.status != 0 then Refusal(h.id, 22)
    else if h.operation != Read && h.operation != ReadDir then Refusal(h.id, 38)
    else if h.flags == 0 || h.flags > l.maxTransfer || !PathOk(l, q.path) then Refusal(h.id, 22)
    else if h.operation == Read then RespondRead(h, tree(q.path))
    else RespondDirectory(l, h, tree(q.path))
  }

  function RespondRead(h: Header, node: Node): Reply {
    if h.offset + h.flags >= U64_LIMIT then Refusal(h.id, 22) else
    match node
    case Absent(errno) => Refusal(h.id, errno)
    case Directory(_) => Refusal(h.id, 21)
    case File(bytes) =>
      var data := Range(bytes, h.offset, h.flags);
      Reply(Header(Status, h.id, h.offset + |data|, if |data| < h.flags then EOF else 0, 0, 0), Bytes(data))
  }

  function RespondDirectory(l: Limits, h: Header, node: Node): Reply
    requires l.Valid()
  {
    var pages := PageEntries(l, h.flags);
    if h.flags <= l.recordHeader || h.flags <= pages * l.recordHeader then Refusal(h.id, 22) else
    match node
    case Absent(errno) => Refusal(h.id, errno)
    case File(_) => Refusal(h.id, 20)
    case Directory(entries) =>
      if h.offset > |entries| then Reply(Header(Status, h.id, h.offset, EOF, 0, 0), Records([])) else
      match Scan(entries, h.offset, 0, 0, pages, h.flags - pages * l.recordHeader)
      case Err(errno) => Refusal(h.id, errno)
      case Ok((next, eof)) =>
        if next >= U64_LIMIT then Refusal(h.id, 22) else
        Reply(Header(Status, h.id, next, if eof then EOF else 0, 0, 0), Records(Visible(entries, h.offset, next)))
  }

  /** Reserving the record headers first leaves room for every name of the page. */
  lemma PageFits(l: Limits, budget: nat, names: seq<seq<byte>>)
    requires l.Valid() && l.recordHeader + l.maxName <= budget
    requires var pages := PageEntries(l, budget);
      |names| <= pages && NameBytes(names) <= budget - pages * l.recordHeader
    ensures Encoded(l, names) <= budget
  {
    EncodedIs(l, names);
    FewerRecords(|names|, PageEntries(l, budget), l.recordHeader);
  }

  /** A page always has room for one more name, of any length, beside its record headers. */
  lemma PageHasRoom(l: Limits, budget: nat)
    requires l.Valid() && l.recordHeader + l.maxName <= budget
    ensures PageEntries(l, budget) >= 1 && PageEntries(l, budget) * l.recordHeader + l.maxName <= budget
  {
    var pages := PageEntries(l, budget);
    PagesFit(pages, l.recordHeader + l.maxName, budget);
    RoomForNames(pages, l.recordHeader, l.maxName, budget);
  }

  lemma FewerRecords(n: nat, pages: nat, header: nat)
    requires n <= pages
    ensures n * header <= pages * header
  {
  }

  lemma RoomForNames(pages: nat, header: nat, name: nat, budget: nat)
    requires 1 <= pages && pages * (header + name) <= budget
    ensures pages * header + name <= budget
  {
    assert pages * (header + name) == pages * header + pages * name;
    assert pages * name >= name;
  }

  lemma PagesFit(pages: nat, record: nat, budget: nat)
    requires 0 < record <= budget && pages == Max(1, Min(budget / record, MAX_ENTRIES))
    ensures pages * record <= budget
  {
    assert budget / record * record <= budget;
    assert pages <= budget / record || pages == 1;
    if pages <= budget / record { assert pages * record <= budget / record * record; }
  }

  /** The responder, step by step; a file that stops short while being read is an input/output error. */
  method Answer(l: Limits, tree: string -> Node, q: Request, piece: (nat, nat) -> nat) returns (r: Reply)
    requires l.Valid()
    ensures r == Respond(l, tree, q) || (q.header.operation == Read && r == Refusal(q.header.id, 5))
    ensures Obliging(piece) ==> r == Respond(l, tree, q)
  {
    var h := q.header;
    if h.spare != 0 || h.status != 0 { return Refusal(h.id, 22); }
    if h.operation != Read && h.operation != ReadDir { return Refusal(h.id, 38); }
    var budget := h.flags;
    if budget == 0 || budget > l.maxTransfer || !PathOk(l, q.path) { return Refusal(h.id, 22); }
    if h.operation == Read {
      if h.offset + budget >= U64_LIMIT { return Refusal(h.id, 22); }
      match tree(q.path)
      case Absent(errno) => return Refusal(h.id, errno);
      case Directory(_) => return Refusal(h.id, 21);
      case File(bytes) =>
        var count := Min(Max(|bytes| - h.offset, 0), budget);
        var output := new byte[budget](_ => 0);
        if count > 0 {
          if Obliging(piece) { ObligingFits(piece, 0, count); }
          var ok := ReadRange(bytes, output, count, h.offset, piece);
          if !ok { return Refusal(h.id, 5); }
        }
        assert output[..count] == Range(bytes, h.offset, budget);
        return Reply(Header(Status, h.id, h.offset + count, if count < budget then EOF else 0, 0, 0),
                     Bytes(output[..count]));
    }
    var pages := PageEntries(l, budget);
    if budget <= l.recordHeader || budget <= pages * l.recordHeader { return Refusal(h.id, 22); }
    match tree(q.path)
    case Absent(errno) => return Refusal(h.id, errno);
    case File(_) => return Refusal(h.id, 20);
    case Directory(entries) =>
      var names, next, eof, errno := ReadDirectory(entries, h.offset, pages, budget - pages * l.recordHeader);
      if errno != 0 { return Refusal(h.id, errno); }
      if next >= U64_LIMIT { return Refusal(h.id, 22); }
      r := Reply(Header(Status, h.id, next, if eof then EOF else 0, 0, 0), Records(names));
  }
}
