/**
The client that reads whole files and directory listings through bounded
exchanges with the bootstrap endpoint, against any server and against the real
responder over an immutable tree.
*/
module BootstrapClient {
  import opened Base
  import opened BootstrapServer

  datatype Failure = InvalidInput | IoError | LimitExceeded | FromServer(status: int)

  /** What the transport brings back: an error of its own, bytes that do not decode, or a message. */
  datatype Delivery = Broken(error: Failure) | Garbled | Delivered(reply: Reply)

  /** Any server: its answer may depend on the number of the call. */
  type Server = (nat, Request) -> Delivery

  const TOO_LARGE := FromServer(-27)

  class Client {
    const limits: Limits
    var nextRequest: u64

    constructor (l: Limits)
      ensures limits == l && nextRequest == 1
    {
      limits, nextRequest := l, 1;
    }

    /** One request and its checked reply. */
    method Exchange(operation: Operation, path: string, offset: u64, budget: nat, call: nat, server: Server)
      returns (r: Result<Reply, Failure>)
      modifies this`nextRequest
      ensures old(nextRequest) <= nextRequest <= old(nextRequest) + 1
      ensures r.Ok? ==> r.value.header.status == 0 && r.value.header.flags in {0, EOF} && r.value.body.Size(limits) <= budget
      ensures var q := Request(Header(operation, old(nextRequest), offset, budget, 0, 0), path);
        PathOk(limits, path) && old(nextRequest) + 1 < U64_LIMIT && server(call, q).Delivered? ==>
          r == Checked(limits, server(call, q).reply, old(nextRequest), budget)
    {
      if !PathOk(limits, path) { return Err(InvalidInput); }
      var id := nextRequest;
      if id + 1 >= U64_LIMIT { return Err(LimitExceeded); }
      nextRequest := id + 1;
      match server(call, Request(Header(operation, id, offset, budget, 0, 0), path))
      case Broken(e) => return Err(e);
      case Garbled => return Err(IoError);
      case Delivered(reply) => r := Checked(limits, reply, id, budget);
    }

    /**
    Read a whole file of at most `maximum` bytes. Any server: it ends, with no more than `maximum` bytes. The real
    responder over any immutable `file`: exactly that file, or the too-large error.
    */
    method ReadFile(path: string, maximum: u64, server: Server, ghost file: seq<byte>)
      returns (r: Result<seq<byte>, Failure>)
      requires limits.Valid()
      modifies this`nextRequest
      ensures r.Ok? ==> |r.value| <= maximum
      ensures ServesFile(limits, server, path, file) && PathOk(limits, path) && |file| + limits.maxTransfer < U64_LIMIT
              && old(nextRequest) + Min(|file|, maximum) + 2 < U64_LIMIT ==>
        r == if |file| <= maximum then Ok(file) else Err(TOO_LARGE)
    {
      hide ServesFile, Range, Checked, PathOk;
      ghost var start := nextRequest;
      ghost var genuine := ServesFile(limits, server, path, file) && PathOk(limits, path)
                           && |file| + limits.maxTransfer < U64_LIMIT && start + Min(|file|, maximum) + 2 < U64_LIMIT;
      var output: seq<byte> := [];
      var call := 0;
      while true
        invariant |output| <= maximum && start <= nextRequest <= start + call && call <= |output|
        invariant genuine ==> |output| <= |file| && output == file[..|output|]
        decreases maximum - |output|
      {
        ghost var at, id := |output|, nextRequest;
        var budget := Min(Min(maximum - |output| + 1, U64_LIMIT - 1), limits.maxTransfer);
        if genuine { FileReplyPasses(limits, server, path, file, at, budget, id, call); }
        var got := Exchange(Read, path, |output|, budget, call, server);
        assert genuine ==> got == Ok(ReadReply(file, at, budget, id));
        if genuine { RangeIs(file, at, budget); }
        if got.Err? { return Err(got.error); }
        var header := got.value.header;
        if got.value.body.Records? { return Err(IoError); }
        var bytes := got.value.body.bytes;
        if header.offset != |output| + |bytes| || (bytes == [] && header.flags == 0) { return Err(IoError); }
        if |bytes| > maximum - |output| { return Err(TOO_LARGE); }
        output := output + bytes;
        call := call + 1;
        if header.flags == EOF {
          assert genuine ==> output == file[..|file|] == file;
          return Ok(output);
        }
      }
    }

    /**
    List the names of a directory. Any server: it ends, within `maximum` encoded bytes. The real responder over
    any immutable directory: every entry but the dot entries, once and in order, exactly when all names are text
    and the listing fits; a page never fails to advance.
    */
    method ReadDirNames(path: string, maximum: nat, server: Server, ghost entries: seq<Entry>)
      returns (r: Result<seq<seq<byte>>, Failure>)
      requires limits.Valid()
      modifies this`nextRequest
      ensures r.Ok? ==> Encoded(limits, r.value) <= maximum
      ensures ServesDirectory(limits, server, path, entries) && PathOk(limits, path)
              && old(nextRequest) + maximum + 2 < U64_LIMIT && |entries| < U64_LIMIT ==>
        && (r.Ok? <==> AllText(entries, 0, |entries|) && Encoded(limits, Visible(entries, 0, |entries|)) <= maximum)
        && (r.Ok? ==> r.value == Visible(entries, 0, |entries|))
        && r != Err(IoError)
    {
      hide ServesDirectory, Checked, PathOk, Scan, Visible, Encoded, AllText;
      ghost var start := nextRequest;
      ghost var genuine := ServesDirectory(limits, server, path, entries) && PathOk(limits, path)
                         && start + maximum + 2 < U64_LIMIT && |entries| < U64_LIMIT;
      var names: seq<seq<byte>> := [];
      var cursor: u64, total, call := 0, 0, 0;
      ListingStarts(limits, entries);
      while true
        invariant start <= nextRequest <= start + call && call <= total <= maximum && total == Encoded(limits, names)
        invariant genuine ==> cursor <= |entries| && names == Visible(entries, 0, cursor) && AllText(entries, 0, cursor)
        decreases maximum - total
      {
        ghost var at, id, before := cursor, nextRequest, names;
        var got := Exchange(ReadDir, path, cursor, limits.maxTransfer, call, server);
        if genuine { PagePasses(limits, server, path, entries, at, id, call); }
        if got.Err? { return Err(got.error); }
        var header := got.value.header;
        var size := got.value.body.Size(limits);
        if header.offset < cursor || (header.flags == 0 && (header.offset == cursor || size == 0)) {
          return Err(IoError);
        }
        if total + size > maximum {
          if genuine { TooLong(limits, entries, at, header.offset, maximum); }
          return Err(LimitExceeded);
        }
        if got.value.body.Bytes? {
          if got.value.body.bytes != [] { return Err(IoError); }
        } else if exists i :: 0 <= i < |got.value.body.names| && IsDot(got.value.body.names[i]) {
          return Err(IoError);
        } else {
          EncodedSplits(limits, names, got.value.body.names);
          names := names + got.value.body.names;
        }
        total, call := total + size, call + 1;
        if header.flags == EOF { return Ok(names); }
        cursor := header.offset;
      }
    }
  }

  /** A range is the next piece of the file, short exactly at its end. */
  lemma RangeIs(file: seq<byte>, at: nat, budget: nat)
    requires at <= |file|
    ensures |Range(file, at, budget)| == Min(|file| - at, budget)
    ensures file[..at] + Range(file, at, budget) == file[..at + |Range(file, at, budget)|]
  {
  }

  /** The client's checks of a decoded reply. */
  function Checked(l: Limits, reply: Reply, id: u64, budget: nat): (r: Result<Reply, Failure>)
    ensures r.Ok? ==> r.value == reply && reply.header.status == 0 && reply.header.flags in {0, EOF}
                      && reply.body.Size(l) <= budget
  {
    var h := reply.header;
    if h.operation != Status || h.id != id || h.spare != 0 || h.flags !in {0, EOF} || reply.body.Size(l) > budget
    then Err(IoError)
    else if h.status != 0 then
      if !(-4095 <= h.status < 0) || reply.body.Size(l) != 0 || h.flags != 0 || h.offset != 0 then Err(IoError)
      else Err(FromServer(h.status))
    else Ok(reply)
  }

  /** The server is the real responder, and the path names this file. */
  ghost predicate ServesFile(l: Limits, server: Server, path: string, file: seq<byte>)
    requires l.Valid()
  {
    exists tree: string -> Node :: tree(path) == File(file) && Responds(l, server, tree)
  }

  ghost predicate Responds(l: Limits, server: Server, tree: string -> Node)
    requires l.Valid()
  {
    forall n: nat, q: Request :: server(n, q) == Delivered(Respond(l, tree, q))
  }

  /** The responder's reply to a read within the file. */
  function ReadReply(file: seq<byte>, offset: nat, budget: nat, id: u64): Reply
    requires offset <= |file| && offset + budget < U64_LIMIT
  {
    var data := Range(file, offset, budget);
    Reply(Header(Status, id, offset + |data|, if |data| < budget then EOF else 0, 0, 0), Bytes(data))
  }

  lemma FileReplyPasses(l: Limits, server: Server, path: string, file: seq<byte>, offset: nat, budget: nat, id: u64,
                        call: nat)
    requires l.Valid() && ServesFile(l, server, path, file) && PathOk(l, path)
    requires offset <= |file| && 0 < budget <= l.maxTransfer && offset + budget < U64_LIMIT
    ensures var q := Request(Header(Read, id, offset, budget, 0, 0), path);
      && server(call, q) == Delivered(ReadReply(file, offset, budget, id))
      && Checked(l, ReadReply(file, offset, budget, id), id, budget) == Ok(ReadReply(file, offset, budget, id))
  {
    var tree: string -> Node :| tree(path) == File(file) && Responds(l, server, tree);
    var q := Request(Header(Read, id, offset, budget, 0, 0), path);
    assert server(call, q) == Delivered(Respond(l, tree, q));
  }

  ghost predicate ServesDirectory(l: Limits, server: Server, path: string, entries: seq<Entry>)
    requires l.Valid()
  {
    && (forall i :: 0 <= i < |entries| ==> 0 < |entries[i].name| <= l.maxName)
    && exists tree: string -> Node :: tree(path) == Directory(entries) && Responds(l, server, tree)
  }

  lemma ListingStarts(l: Limits, entries: seq<Entry>)
    ensures Visible(entries, 0, 0) == [] && AllText(entries, 0, 0) && Encoded(l, []) == 0
  {
  }

  /** The page from entry `at`: text entries only, without the dots, advancing unless it is the last. */
  ghost predicate IsPage(l: Limits, entries: seq<Entry>, at: nat, reply: Reply)
    requires at <= |entries|
  {
    var next := reply.header.offset;
    && at <= next <= |entries| && AllText(entries, 0, next)
    && reply.body == Records(Visible(entries, at, next))
    && Visible(entries, 0, next) == Visible(entries, 0, at) + Visible(entries, at, next)
    && (reply.header.flags == EOF <==> next == |entries|)
    && (reply.header.flags == 0 ==> at < next && reply.body.Size(l) > 0)
    && (forall i :: 0 <= i < |reply.body.names| ==> !IsDot(reply.body.names[i]))
  }

  /**
  The reply to a directory request passes the client's checks. A page consumes text entries only, fits the
  budget, advances unless it is the last, and fails only when a later name is not text.
  */
  lemma PagePasses(l: Limits, server: Server, path: string, entries: seq<Entry>, at: nat, id: u64, call: nat)
    requires l.Valid() && ServesDirectory(l, server, path, entries) && PathOk(l, path)
    requires at <= |entries| < U64_LIMIT && AllText(entries, 0, at)
    ensures var q := Request(Header(ReadDir, id, at, l.maxTransfer, 0, 0), path);
      && server(call, q).Delivered?
      && var checked := Checked(l, server(call, q).reply, id, l.maxTransfer);
      if checked.Err? then checked.error.FromServer? && !AllText(entries, 0, |entries|) else IsPage(l, entries, at, checked.value)
  {
    hide Visible, Encoded, NameBytes, Scan, AllText, PageEntries;
    var tree: string -> Node :| tree(path) == Directory(entries) && Responds(l, server, tree);
    var q := Request(Header(ReadDir, id, at, l.maxTransfer, 0, 0), path);
    assert server(call, q) == Delivered(Respond(l, tree, q));
    PageScan(l, entries, at);
  }

  /** The page the responder scans, within its budget. */
  lemma PageScan(l: Limits, entries: seq<Entry>, at: nat)
    requires l.Valid() && at <= |entries| && AllText(entries, 0, at)
    requires forall i :: 0 <= i < |entries| ==> 0 < |entries[i].name| <= l.maxName
    ensures var pages := PageEntries(l, l.maxTransfer);
      && pages * l.recordHeader < l.maxTransfer
      && var scan := Scan(entries, at, 0, 0, pages, l.maxTransfer - pages * l.recordHeader);
      if scan.Err? then !AllText(entries, 0, |entries|) else
      var (next, eof) := scan.value;
      && AllText(entries, 0, next) && (eof <==> next == |entries|)
      && Visible(entries, 0, next) == Visible(entries, 0, at) + Visible(entries, at, next)
      && Encoded(l, Visible(entries, at, next)) <= l.maxTransfer
      && (!eof ==> at < next && Encoded(l, Visible(entries, at, next)) > 0)
      && forall i :: 0 <= i < |Visible(entries, at, next)| ==> !IsDot(Visible(entries, at, next)[i])
  {
    hide Visible, Encoded, NameBytes, Scan, PageEntries;
    var pages := PageEntries(l, l.maxTransfer);
    PageHasRoom(l, l.maxTransfer);
    var room := l.maxTransfer - pages * l.recordHeader;
    var scan := Scan(entries, at, 0, 0, pages, room);
    if AllText(entries, 0, |entries|) { ScanSucceeds(entries, at, 0, 0, pages, room); }
    if scan.Ok? {
      var next := scan.value.0;
      ScanPage(entries, at, 0, 0, pages, room);
      PageFits(l, l.maxTransfer, Visible(entries, at, next));
      VisibleSplits(entries, 0, at, next);
      NoDots(entries, at, next);
      EncodedIs(l, Visible(entries, at, next));
      SomeRecords(|Visible(entries, at, next)|, l.recordHeader);
    }
  }

  lemma SomeRecords(n: nat, header: nat)
    ensures n > 0 && header > 0 ==> n * header > 0
  {
  }

  lemma {:induction false} NoDots(entries: seq<Entry>, i: nat, j: nat)
    requires i <= j <= |entries|
    ensures forall k :: 0 <= k < |Visible(entries, i, j)| ==> !IsDot(Visible(entries, i, j)[k])
    ensures i == j ==> Visible(entries, i, j) == []
  {
    if i < j { NoDots(entries, i, j - 1); }
  }

  /** What has been listed so far already exceeds the limit, so the whole listing does. */
  lemma TooLong(l: Limits, entries: seq<Entry>, at: nat, next: nat, maximum: nat)
    requires at <= next <= |entries|
    requires Encoded(l, Visible(entries, 0, at)) + Encoded(l, Visible(entries, at, next)) > maximum
    ensures Encoded(l, Visible(entries, 0, |entries|)) > maximum
  {
    VisibleSplits(entries, 0, at, next);
    EncodedSplits(l, Visible(entries, 0, at), Visible(entries, at, next));
    VisibleSplits(entries, 0, next, |entries|);
    EncodedSplits(l, Visible(entries, 0, next), Visible(entries, next, |entries|));
  }
}
