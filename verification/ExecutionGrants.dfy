/**
The database of remembered execution grants: a canonical file format with a
checksum, and a store that keeps its records sorted. The checksum is an
arbitrary function to 32 bytes.
*/
module ExecutionGrants {
  import opened Base

  const MAGIC: seq<byte> := [77, 69, 88, 71, 82, 78, 84, 49]
  const HEADER: nat := 16
  const RECORD: nat := 104
  const CHECKSUM: nat := 32
  const MAX_RECORDS: nat := 4096
  const PAD: seq<byte> := [0, 0, 0, 0]

  datatype Key = Key(uid: u32, source: seq<byte>, requirements: seq<byte>, identity: seq<byte>)
  {
    predicate Valid() { |source| == 32 && |requirements| == 32 && |identity| == 32 }
  }

  datatype Failure = BadFormat | TooMany | Storage

  datatype Hash = Hash(of: seq<byte> -> seq<byte>)
  {
    ghost predicate Valid() { forall b :: |of(b)| == CHECKSUM }
  }

  // Order.

  predicate BytesBelow(a: seq<byte>, b: seq<byte>) {
    if b == [] then false
    else if a == [] then true
    else a[0] < b[0] || (a[0] == b[0] && BytesBelow(a[1..], b[1..]))
  }

  /** Field by field: user, source, requirements, identity. */
  predicate Below(a: Key, b: Key) {
    || a.uid < b.uid
    || (a.uid == b.uid && BytesBelow(a.source, b.source))
    || (a.uid == b.uid && a.source == b.source && BytesBelow(a.requirements, b.requirements))
    || (a.uid == b.uid && a.source == b.source && a.requirements == b.requirements && BytesBelow(a.identity, b.identity))
  }

  lemma {:induction false} BytesOrder(a: seq<byte>, b: seq<byte>)
    ensures a == b || BytesBelow(a, b) || BytesBelow(b, a)
    ensures !(BytesBelow(a, b) && BytesBelow(b, a))
  {
    if a != [] && b != [] {
      BytesOrder(a[1..], b[1..]);
      assert a == [a[0]] + a[1..] && b == [b[0]] + b[1..];
    }
  }

  lemma {:induction false} BytesTransitive(a: seq<byte>, b: seq<byte>, c: seq<byte>)
    requires BytesBelow(a, b) && BytesBelow(b, c)
    ensures BytesBelow(a, c)
  {
    if a != [] && a[0] == b[0] == c[0] { BytesTransitive(a[1..], b[1..], c[1..]); }
  }

  /** The record order is a strict total order. */
  lemma KeyOrder(a: Key, b: Key)
    ensures a == b || Below(a, b) || Below(b, a)
    ensures !(Below(a, b) && Below(b, a)) && !Below(a, a)
  {
    hide BytesBelow;
    BytesOrder(a.source, b.source);
    BytesOrder(a.requirements, b.requirements);
    BytesOrder(a.identity, b.identity);
    BytesOrder(a.source, a.source);
    BytesOrder(a.requirements, a.requirements);
    BytesOrder(a.identity, a.identity);
  }

  lemma KeyTransitive(a: Key, b: Key, c: Key)
    requires Below(a, b) && Below(b, c)
    ensures Below(a, c)
  {
    hide BytesBelow;
    if BytesBelow(a.source, b.source) && BytesBelow(b.source, c.source) { BytesTransitive(a.source, b.source, c.source); }
    if BytesBelow(a.requirements, b.requirements) && BytesBelow(b.requirements, c.requirements) {
      BytesTransitive(a.requirements, b.requirements, c.requirements);
    }
    if BytesBelow(a.identity, b.identity) && BytesBelow(b.identity, c.identity) {
      BytesTransitive(a.identity, b.identity, c.identity);
    }
  }

  predicate Sorted(keys: seq<Key>) {
    forall i :: 0 < i < |keys| ==> Below(keys[i - 1], keys[i])
  }

  lemma {:induction false} SortedPairs(keys: seq<Key>, i: nat, j: nat)
    requires Sorted(keys) && i < j < |keys|
    ensures Below(keys[i], keys[j])
  {
    if i + 1 < j {
      SortedPairs(keys, i, j - 1);
      KeyTransitive(keys[i], keys[j - 1], keys[j]);
    }
  }

  // Format.

  function Little(n: u32): (r: seq<byte>)
    ensures |r| == 4
  {
    [n % 256, n / 0x100 % 256, n / 0x1_0000 % 256, n / 0x100_0000]
  }

  function FromLittle(b: seq<byte>): u32
    requires |b| == 4
  {
    b[0] as int + 0x100 * (b[1] as int) + 0x1_0000 * (b[2] as int) + 0x100_0000 * (b[3] as int)
  }

  lemma LittleRoundTrip(n: u32)
    ensures FromLittle(Little(n)) == n
  {
    var a := n / 0x100;
    var b := a / 0x100;
    assert n / 0x1_0000 == b && n / 0x100_0000 == b / 0x100;
  }

  lemma FromLittleRoundTrip(b: seq<byte>)
    requires |b| == 4
    ensures Little(FromLittle(b)) == b
  {
    var n: int := FromLittle(b);
    var b1: int := b[1];
    var b2: int := b[2];
    var b3: int := b[3];
    assert n / 0x100 == 0x1_0000 * b3 + 0x100 * b2 + b1;
    assert n / 0x1_0000 == 0x100 * b3 + b2;
    assert n / 0x100_0000 == b3;
  }

  function Record(k: Key): (r: seq<byte>)
    requires k.Valid()
    ensures |r| == RECORD
  {
    Little(k.uid) + PAD + k.source + k.requirements + k.identity
  }

  function Parsed(r: seq<byte>): (k: Key)
    requires |r| == RECORD
    ensures k.Valid()
  {
    Key(FromLittle(r[..4]), r[8..40], r[40..72], r[72..104])
  }

  lemma ParseRecord(k: Key)
    requires k.Valid()
    ensures Parsed(Record(k)) == k && Record(k)[4..8] == PAD
  {
    var r := Record(k);
    assert r[..4] == Little(k.uid) && r[8..40] == k.source && r[40..72] == k.requirements && r[72..104] == k.identity;
    LittleRoundTrip(k.uid);
  }

  lemma RecordParsed(r: seq<byte>)
    requires |r| == RECORD && r[4..8] == PAD
    ensures Record(Parsed(r)) == r
  {
    FromLittleRoundTrip(r[..4]);
    assert r == r[..4] + r[4..8] + r[8..40] + r[40..72] + r[72..104];
  }

  predicate AllValid(keys: seq<Key>) { forall i :: 0 <= i < |keys| ==> keys[i].Valid() }

  function Body(keys: seq<Key>): (r: seq<byte>)
    requires AllValid(keys)
    ensures |r| == RECORD * |keys|
  {
    if keys == [] then [] else Body(keys[..|keys| - 1]) + Record(keys[|keys| - 1])
  }

  function Prefix(keys: seq<Key>): (r: seq<byte>)
    requires AllValid(keys) && |keys| <= MAX_RECORDS
    ensures |r| == HEADER + RECORD * |keys|
  {
    MAGIC + Little(|keys|) + PAD + Body(keys)
  }

  /** The file of a list of records: header, records, checksum of both. */
  function Image(h: Hash, keys: seq<Key>): seq<byte>
    requires AllValid(keys) && |keys| <= MAX_RECORDS
  {
    Prefix(keys) + h.of(Prefix(keys))
  }

  /** A list that the format can hold: not too long, strictly ascending. */
  predicate Canonical(keys: seq<Key>) { AllValid(keys) && |keys| <= MAX_RECORDS && Sorted(keys) }

  lemma {:induction false} BodyRecord(keys: seq<Key>, i: nat)
    requires AllValid(keys) && i < |keys|
    ensures RECORD * i + RECORD <= |Body(keys)| && Body(keys)[RECORD * i..RECORD * i + RECORD] == Record(keys[i])
  {
    var n := |keys| - 1;
    if i < n {
      BodyRecord(keys[..n], i);
      assert Body(keys)[RECORD * i..RECORD * i + RECORD] == Body(keys[..n])[RECORD * i..RECORD * i + RECORD];
    }
  }

  /** What decoding finds in the file of a list. */
  lemma ImageShape(h: Hash, keys: seq<Key>)
    requires h.Valid() && AllValid(keys) && |keys| <= MAX_RECORDS
    ensures var bytes := Image(h, keys);
      var end := HEADER + RECORD * |keys|;
      && |bytes| == end + CHECKSUM && bytes[..8] == MAGIC && bytes[12..16] == PAD && FromLittle(bytes[8..12]) == |keys|
      && bytes[..end] == Prefix(keys) && bytes[end..] == h.of(bytes[..end])
  {
    hide Body;
    var bytes := Image(h, keys);
    LittleRoundTrip(|keys|);
    assert bytes[8..12] == Little(|keys|) && bytes[12..16] == PAD && bytes[..8] == MAGIC;
    assert bytes[..HEADER + RECORD * |keys|] == Prefix(keys);
  }

  lemma ImageRecord(h: Hash, keys: seq<Key>, i: nat)
    requires h.Valid() && AllValid(keys) && |keys| <= MAX_RECORDS && i < |keys|
    ensures var at := HEADER + RECORD * i;
      at + RECORD <= |Image(h, keys)| && Image(h, keys)[at..at + RECORD] == Record(keys[i])
  {
    BodyRecord(keys, i);
    hide Body;
    var at := HEADER + RECORD * i;
    assert Prefix(keys)[HEADER..] == Body(keys);
    assert Image(h, keys)[at..at + RECORD] == Prefix(keys)[at..at + RECORD]
        == Body(keys)[RECORD * i..RECORD * i + RECORD];
  }

  /** Encode a list; it is refused exactly when it is too long or out of order. */
  method Encode(h: Hash, keys: seq<Key>) returns (r: Result<seq<byte>, Failure>)
    requires AllValid(keys)
    ensures r == if Canonical(keys) then Ok(Image(h, keys)) else Err(TooMany)
  {
    if |keys| > MAX_RECORDS { return Err(TooMany); }
    for i := 0 to |keys|
      invariant forall k :: 0 < k < i ==> Below(keys[k - 1], keys[k])
    {
      if i > 0 && !Below(keys[i - 1], keys[i]) { return Err(TooMany); }
    }
    var bytes := MAGIC + Little(|keys|) + PAD;
    for i := 0 to |keys|
      invariant bytes == MAGIC + Little(|keys|) + PAD + Body(keys[..i])
    {
      assert keys[..i + 1][..i] == keys[..i];
      bytes := bytes + Little(keys[i].uid) + PAD + keys[i].source + keys[i].requirements + keys[i].identity;
    }
    assert keys[..|keys|] == keys;
    r := Ok(bytes + h.of(bytes));
  }

  /** Nothing the format accepts has this file. */
  ghost predicate NoImage(h: Hash, bytes: seq<byte>) {
    forall keys :: Canonical(keys) ==> Image(h, keys) != bytes
  }

  /** Decode a file: it is accepted exactly when it is the file of some canonical list, and gives that list. */
  method Decode(h: Hash, bytes: seq<byte>) returns (r: Result<seq<Key>, Failure>)
    requires h.Valid()
    ensures r.Ok? ==> Canonical(r.value) && Image(h, r.value) == bytes
    ensures r.Err? ==> r.error == BadFormat && NoImage(h, bytes)
  {
    hide Image, Sorted, Body, FromLittle, Record, Parsed, Below, NoImage;
    EmptyList();
    var max := HEADER + MAX_RECORDS * RECORD + CHECKSUM;
    ShapeRefutes(h, bytes);
    if |bytes| < HEADER + CHECKSUM || |bytes| > max || bytes[..8] != MAGIC || bytes[12..16] != PAD {
      return Err(BadFormat);
    }
    var count := FromLittle(bytes[8..12]);
    if count > MAX_RECORDS || HEADER + count * RECORD + CHECKSUM != |bytes| { return Err(BadFormat); }
    var end := |bytes| - CHECKSUM;
    if bytes[end..] != h.of(bytes[..end]) { return Err(BadFormat); }
    var keys: seq<Key> := [];
    for i := 0 to count
      invariant |keys| == i && AllValid(keys) && Sorted(keys) && bytes[HEADER..HEADER + RECORD * i] == Body(keys)
      invariant forall k :: 0 <= k < i ==> keys[k] == Parsed(RecordAt(bytes, k))
    {
      var record := bytes[HEADER + RECORD * i..HEADER + RECORD * i + RECORD];
      assert record == RecordAt(bytes, i);
      if record[4..8] != PAD {
        RecordRefutes(h, bytes, i);
        return Err(BadFormat);
      }
      var key := Parsed(record);
      if i > 0 && !Below(keys[i - 1], key) {
        RecordRefutes(h, bytes, i);
        return Err(BadFormat);
      }
      RecordParsed(record);
      SortedMore(keys, key);
      BodyMore(keys, key);
      assert bytes[HEADER..HEADER + RECORD * (i + 1)] == bytes[HEADER..HEADER + RECORD * i] + record;
      keys := keys + [key];
    }
    PrefixIs(bytes, keys);
    ImageIs(h, bytes, keys);
    r := Ok(keys);
  }

  function RecordAt(bytes: seq<byte>, i: nat): (r: seq<byte>)
    requires HEADER + RECORD * i + RECORD <= |bytes|
    ensures |r| == RECORD
  {
    bytes[HEADER + RECORD * i..HEADER + RECORD * i + RECORD]
  }

  /** A file with a wrong header, length or checksum is no image. */
  lemma ShapeRefutes(h: Hash, bytes: seq<byte>)
    requires h.Valid()
    ensures |bytes| < HEADER + CHECKSUM || |bytes| > HEADER + MAX_RECORDS * RECORD + CHECKSUM ==> NoImage(h, bytes)
    ensures |bytes| >= HEADER + CHECKSUM && (bytes[..8] != MAGIC || bytes[12..16] != PAD) ==> NoImage(h, bytes)
    ensures |bytes| >= HEADER + CHECKSUM && FromLittle(bytes[8..12]) > MAX_RECORDS ==> NoImage(h, bytes)
    ensures |bytes| >= HEADER + CHECKSUM && HEADER + FromLittle(bytes[8..12]) * RECORD + CHECKSUM != |bytes| ==>
              NoImage(h, bytes)
    ensures |bytes| >= HEADER + CHECKSUM && bytes[|bytes| - CHECKSUM..] != h.of(bytes[..|bytes| - CHECKSUM]) ==>
              NoImage(h, bytes)
  {
    hide Image, Prefix;
    forall keys | Canonical(keys) && Image(h, keys) == bytes
      ensures HEADER + CHECKSUM <= |bytes| <= HEADER + MAX_RECORDS * RECORD + CHECKSUM
      ensures bytes[..8] == MAGIC && bytes[12..16] == PAD && FromLittle(bytes[8..12]) == |keys|
      ensures HEADER + RECORD * |keys| + CHECKSUM == |bytes|
      ensures bytes[|bytes| - CHECKSUM..] == h.of(bytes[..|bytes| - CHECKSUM])
    {
      ImageShape(h, keys);
    }
  }

  /** A record with dirty padding, or not above the one before it, is in no image. */
  lemma RecordRefutes(h: Hash, bytes: seq<byte>, i: nat)
    requires h.Valid() && HEADER + CHECKSUM <= |bytes| && HEADER + FromLittle(bytes[8..12]) * RECORD + CHECKSUM == |bytes|
    requires i < FromLittle(bytes[8..12])
    ensures HEADER + RECORD * i + RECORD <= |bytes|
    ensures RecordAt(bytes, i)[4..8] != PAD ==> NoImage(h, bytes)
    ensures i > 0 && !Below(Parsed(RecordAt(bytes, i - 1)), Parsed(RecordAt(bytes, i))) ==> NoImage(h, bytes)
  {
    hide Image, Prefix, Below;
    forall keys | Canonical(keys) && Image(h, keys) == bytes
      ensures RecordAt(bytes, i)[4..8] == PAD
      ensures i > 0 ==> Below(Parsed(RecordAt(bytes, i - 1)), Parsed(RecordAt(bytes, i)))
    {
      ImageShape(h, keys);
      ImageRecord(h, keys, i);
      ParseRecord(keys[i]);
      if i > 0 {
        ImageRecord(h, keys, i - 1);
        ParseRecord(keys[i - 1]);
      }
    }
  }

  lemma EmptyList()
    ensures Sorted([]) && Body([]) == []
  {
  }

  lemma SortedMore(keys: seq<Key>, key: Key)
    requires Sorted(keys) && (keys != [] ==> Below(keys[|keys| - 1], key))
    ensures Sorted(keys + [key])
  {
  }

  lemma BodyMore(keys: seq<Key>, key: Key)
    requires AllValid(keys) && key.Valid()
    ensures AllValid(keys + [key]) && Body(keys + [key]) == Body(keys) + Record(key)
  {
    assert (keys + [key])[..|keys|] == keys;
  }

  lemma PrefixIs(bytes: seq<byte>, keys: seq<Key>)
    requires AllValid(keys) && |keys| <= MAX_RECORDS && |bytes| == HEADER + RECORD * |keys| + CHECKSUM
    requires bytes[..8] == MAGIC && bytes[12..16] == PAD && FromLittle(bytes[8..12]) == |keys|
    requires bytes[HEADER..HEADER + RECORD * |keys|] == Body(keys)
    ensures bytes[..|bytes| - CHECKSUM] == Prefix(keys)
  {
    hide Body;
    FromLittleRoundTrip(bytes[8..12]);
    assert bytes[..|bytes| - CHECKSUM] == bytes[..8] + bytes[8..12] + bytes[12..16] + bytes[16..|bytes| - CHECKSUM];
  }

  lemma ImageIs(h: Hash, bytes: seq<byte>, keys: seq<Key>)
    requires AllValid(keys) && |keys| <= MAX_RECORDS && |bytes| >= CHECKSUM
    requires bytes[..|bytes| - CHECKSUM] == Prefix(keys)
    requires bytes[|bytes| - CHECKSUM..] == h.of(bytes[..|bytes| - CHECKSUM])
    ensures Image(h, keys) == bytes
  {
    hide Prefix;
  }

  /** Different lists have different files. */
  lemma ImageIsInjective(h: Hash, a: seq<Key>, b: seq<Key>)
    requires h.Valid() && AllValid(a) && AllValid(b) && |a| <= MAX_RECORDS && |b| <= MAX_RECORDS
    requires Image(h, a) == Image(h, b)
    ensures a == b
  {
    hide Image;
    ImageShape(h, a);
    ImageShape(h, b);
    forall i | 0 <= i < |a| ensures a[i] == b[i] {
      ImageRecord(h, a, i);
      ImageRecord(h, b, i);
      ParseRecord(a[i]);
      ParseRecord(b[i]);
    }
  }

  /** Where a key is, or where it belongs. */
  method BinarySearch(keys: seq<Key>, key: Key) returns (found: bool, index: nat)
    requires Sorted(keys)
    ensures index <= |keys| && (found ==> index < |keys| && keys[index] == key)
    ensures !found ==> key !in keys && (forall i :: 0 <= i < index ==> Below(keys[i], key))
                       && (forall i :: index <= i < |keys| ==> Below(key, keys[i]))
  {
    hide Below;
    var low, high := 0, |keys|;
    while low < high
      invariant low <= high <= |keys|
      invariant forall i :: 0 <= i < low ==> Below(keys[i], key)
      invariant forall i :: high <= i < |keys| ==> Below(key, keys[i])
    {
      var mid := low + (high - low) / 2;
      if keys[mid] == key { return true, mid; }
      KeyOrder(keys[mid], key);
      if Below(keys[mid], key) {
        AllBelow(keys, mid, key);
        low := mid + 1;
      } else {
        AllAbove(keys, mid, key);
        high := mid;
      }
    }
    KeyOrder(key, key);
    return false, low;
  }

  lemma AllBelow(keys: seq<Key>, mid: nat, key: Key)
    requires Sorted(keys) && mid < |keys| && Below(keys[mid], key)
    ensures forall i :: 0 <= i <= mid ==> Below(keys[i], key)
  {
    hide Below;
    forall i | 0 <= i < mid ensures Below(keys[i], key) {
      SortedPairs(keys, i, mid);
      KeyTransitive(keys[i], keys[mid], key);
    }
  }

  lemma AllAbove(keys: seq<Key>, mid: nat, key: Key)
    requires Sorted(keys) && mid < |keys| && Below(key, keys[mid])
    ensures forall i :: mid <= i < |keys| ==> Below(key, keys[i])
  {
    hide Below;
    forall i | mid < i < |keys| ensures Below(key, keys[i]) {
      SortedPairs(keys, mid, i);
      KeyTransitive(key, keys[mid], keys[i]);
    }
  }

  /** How a write ended: stored, refused without a trace, or stored although an error was reported. */
  datatype Outcome = Stored | Refused | StoredButFailed

  class Store {
    const hash: Hash
    var file: Option<seq<byte>>
    ghost var remembered: set<Key>
    ghost var listed: seq<Key>

    /** The file, if there is one, is the image of exactly the remembered keys. */
    ghost predicate Valid()
      reads this
    {
      && hash.Valid() && Canonical(listed) && (forall k :: k in remembered <==> k in listed)
      && (if file.None? then listed == [] else file.value == Image(hash, listed))
    }

    constructor (h: Hash)
      requires h.Valid()
      ensures Valid() && remembered == {}
    {
      hash, file, remembered, listed := h, None, {}, [];
    }

    /** The remembered keys; a file that cannot be read is an error, never an empty list. */
    method Load(readable: bool) returns (r: Result<seq<Key>, Failure>)
      requires Valid()
      ensures r == if readable then Ok(listed) else Err(Storage)
    {
      if !readable { return Err(Storage); }
      if file.None? { return Ok([]); }
      r := Decode(hash, file.value);
      if r.Ok? { ImageIsInjective(hash, r.value, listed); }
    }

    method Contains(key: Key, readable: bool) returns (r: Result<bool, Failure>)
      requires Valid()
      ensures r == if readable then Ok(key in remembered) else Err(Storage)
    {
      var keys := Load(readable);
      if keys.Err? { return Err(keys.error); }
      var found, _ := BinarySearch(keys.value, key);
      r := Ok(found);
    }

    /** Remember a key: on success the store is the old set with the key; otherwise it is one of the two. */
    method Remember(key: Key, readable: bool, outcome: Outcome) returns (error: Option<Failure>)
      requires Valid() && key.Valid()
      modifies this
      ensures Valid()
      ensures error == if !readable then Some(Storage)
                       else if key in old(remembered) then None
                       else if |old(remembered)| == MAX_RECORDS then Some(TooMany)
                       else if outcome == Stored then None
                       else Some(Storage)
      ensures remembered == if readable && outcome != Refused && error != Some(TooMany) then old(remembered) + {key}
                            else old(remembered)
    {
      hide Image, Sorted, Below;
      var keys := Load(readable);
      if keys.Err? { return Some(keys.error); }
      var found, index := BinarySearch(keys.value, key);
      SizeOfListed(listed, remembered);
      if found { return None; }
      if |keys.value| == MAX_RECORDS { return Some(TooMany); }
      var next := keys.value[..index] + [key] + keys.value[index..];
      InsertKeeps(keys.value, index, key);
      var bytes := Encode(hash, next);
      if outcome == Refused { return Some(Storage); }
      file, listed, remembered := Some(bytes.value), next, remembered + {key};
      if outcome == StoredButFailed { return Some(Storage); }
      error := None;
    }
  }

  lemma InsertKeeps(keys: seq<Key>, index: nat, key: Key)
    requires Canonical(keys) && key.Valid() && index <= |keys| < MAX_RECORDS
    requires (forall i :: 0 <= i < index ==> Below(keys[i], key)) && (forall i :: index <= i < |keys| ==> Below(key, keys[i]))
    ensures Canonical(keys[..index] + [key] + keys[index..])
    ensures forall k :: k in keys[..index] + [key] + keys[index..] <==> k in keys || k == key
  {
    hide Below;
    var next := keys[..index] + [key] + keys[index..];
    assert forall i :: 0 <= i < |next| ==> next[i] == if i < index then keys[i] else if i == index then key else keys[i - 1];
    assert keys == keys[..index] + keys[index..];
  }

  lemma {:induction false} SizeOfListed(keys: seq<Key>, s: set<Key>)
    requires Sorted(keys) && forall k :: k in s <==> k in keys
    ensures |s| == |keys|
    decreases keys
  {
    hide Below;
    if keys != [] {
      var n := |keys| - 1;
      var last := keys[n];
      forall i | 0 <= i < n ensures keys[i] != last {
        SortedPairs(keys, i, n);
        KeyOrder(last, last);
      }
      assert keys == keys[..n] + [last];
      SizeOfListed(keys[..n], s - {last});
    }
  }
}
