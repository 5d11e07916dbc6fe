/**
 The bytes fed to the digest that identifies a materialised source tree, and why
 two different trees never feed the same bytes.
 */
module MaterializationDigest {
  import opened Outcomes
  import opened GitBatch

  /** A tree entry and its content, as bytes. */
  datatype Item = Item(mode: seq<Byte>, oid: seq<Byte>, path: seq<Byte>, blob: seq<Byte>)

  const NUL: Byte := 0
  const SCHEMA := "noetrium.git-object-materialization.v1"
  const PATH_WIDTH := 4
  const BLOB_WIDTH := 8

  datatype DigestError = LengthOverflow

  // ---- Big-endian lengths -----------------------------------------------

  function Capacity(width: nat): nat {
    if width == 0 then 1 else 256 * Capacity(width - 1)
  }

  function BigEndian(n: nat, width: nat): (bytes: seq<Byte>)
    ensures |bytes| == width
  {
    if width == 0 then [] else BigEndian(n / 256, width - 1) + [n % 256]
  }

  lemma {:induction false} BigEndianInjective(n: nat, m: nat, width: nat)
    requires n < Capacity(width) && m < Capacity(width) && BigEndian(n, width) == BigEndian(m, width)
    ensures n == m
  {
    if width > 0 {
      var a, b := BigEndian(n, width), BigEndian(m, width);
      assert a[..width - 1] == BigEndian(n / 256, width - 1) && b[..width - 1] == BigEndian(m / 256, width - 1);
      assert a[width - 1] == n % 256 && b[width - 1] == m % 256;
      BigEndianInjective(n / 256, m / 256, width - 1);
    }
  }

  /** The number these bytes write, the most significant byte first. */
  function FromBigEndian(bytes: seq<Byte>): nat {
    if bytes == [] then 0 else FromBigEndian(bytes[..|bytes| - 1]) * 256 + bytes[|bytes| - 1]
  }

  /** Reading the bytes of a length gives the length back. */
  lemma {:induction false} BigEndianReadsBack(n: nat, width: nat)
    requires n < Capacity(width)
    ensures FromBigEndian(BigEndian(n, width)) == n
  {
    if width > 0 {
      BigEndianReadsBack(n / 256, width - 1);
      assert BigEndian(n, width)[..width - 1] == BigEndian(n / 256, width - 1);
    }
  }

  // ---- The stream -------------------------------------------------------

  function Terminated(bytes: seq<Byte>): seq<Byte> {
    bytes + [NUL]
  }

  function Counted(bytes: seq<Byte>, width: nat): seq<Byte> {
    BigEndian(|bytes|, width) + bytes
  }

  function Record(item: Item): seq<Byte> {
    Terminated(item.mode) + (Terminated(item.oid) + (Counted(item.path, PATH_WIDTH) + Counted(item.blob, BLOB_WIDTH)))
  }

  function Records(items: seq<Item>): seq<Byte> {
    if items == [] then [] else Record(items[0]) + Records(items[1..])
  }

  function Prefix(): seq<Byte> {
    assert forall i :: 0 <= i < |SCHEMA| ==> SCHEMA[i] as int < 128;
    Terminated(Encode(SCHEMA))
  }

  function Stream(items: seq<Item>): seq<Byte> {
    Prefix() + Records(items)
  }

  predicate LengthsFit(item: Item) {
    |item.path| < 0x1_0000_0000 && |item.blob| < 0x1_0000_0000_0000_0000
  }

  lemma RecordFed(fed: seq<Byte>, left: seq<Item>)
    requires left != []
    ensures fed + Records(left)
            == fed + Terminated(left[0].mode) + Terminated(left[0].oid) + Counted(left[0].path, PATH_WIDTH)
               + Counted(left[0].blob, BLOB_WIDTH) + Records(left[1..])
  {
  }

  /** Feeds the digest entry by entry; a length that does not fit its field stops it. */
  method FeedDigest(items: seq<Item>) returns (r: Result<seq<Byte>, DigestError>)
    ensures r == if forall i :: 0 <= i < |items| ==> LengthsFit(items[i]) then Ok(Stream(items))
                 else Err(LengthOverflow)
  {
    var fed := Prefix();
    ghost var whole, left := Stream(items), items;
    for i := 0 to |items|
      invariant forall k :: 0 <= k < i ==> LengthsFit(items[k])
      invariant left == items[i..] && fed + Records(left) == whole
    {
      var item := items[i];
      assert left[0] == item;
      if |item.path| >= Capacity(PATH_WIDTH) {
        return Err(LengthOverflow);
      }
      if |item.blob| >= Capacity(BLOB_WIDTH) {
        return Err(LengthOverflow);
      }
      RecordFed(fed, left);
      fed := fed + Terminated(item.mode);
      fed := fed + Terminated(item.oid);
      fed := fed + Counted(item.path, PATH_WIDTH);
      fed := fed + Counted(item.blob, BLOB_WIDTH);
      left := left[1..];
    }
    assert fed + [] == fed;
    r := Ok(fed);
  }

  // ---- Injectivity ------------------------------------------------------

  /** What keeps a record readable: no NUL in the terminated fields, and lengths that fit. */
  ghost predicate Encodable(item: Item) {
    NUL !in item.mode && NUL !in item.oid && LengthsFit(item)
  }

  lemma TerminatedPrefixFree(a: seq<Byte>, b: seq<Byte>, x: seq<Byte>, y: seq<Byte>)
    requires NUL !in a && NUL !in b && Terminated(a) + x == Terminated(b) + y
    ensures a == b && x == y
  {
    var all := Terminated(a) + x;
    assert all[|a|] == NUL && all[|b|] == NUL;
    assert forall i :: 0 <= i < |a| ==> all[i] == a[i] != NUL;
    assert forall i :: 0 <= i < |b| ==> all[i] == b[i] != NUL;
    assert |a| == |b|;
    assert a == all[..|a|] && b == all[..|a|];
    assert x == all[|a| + 1..] && y == all[|a| + 1..];
  }

  lemma CountedPrefixFree(a: seq<Byte>, b: seq<Byte>, width: nat, x: seq<Byte>, y: seq<Byte>)
    requires |a| < Capacity(width) && |b| < Capacity(width) && Counted(a, width) + x == Counted(b, width) + y
    ensures a == b && x == y
  {
    var all := Counted(a, width) + x;
    assert all[..width] == BigEndian(|a|, width) && all[..width] == BigEndian(|b|, width);
    BigEndianInjective(|a|, |b|, width);
    assert a == all[width..width + |a|] && b == all[width..width + |a|];
    assert x == all[width + |a|..] && y == all[width + |a|..];
  }

  lemma RecordThen(item: Item, rest: seq<Byte>)
    ensures Record(item) + rest
            == Terminated(item.mode)
               + (Terminated(item.oid) + (Counted(item.path, PATH_WIDTH) + (Counted(item.blob, BLOB_WIDTH) + rest)))
  {
  }

  lemma RecordPrefixFree(a: Item, b: Item, x: seq<Byte>, y: seq<Byte>)
    requires Encodable(a) && Encodable(b) && Record(a) + x == Record(b) + y
    ensures a == b && x == y
  {
    RecordThen(a, x);
    RecordThen(b, y);
    var blobA, blobB := Counted(a.blob, BLOB_WIDTH) + x, Counted(b.blob, BLOB_WIDTH) + y;
    var pathA, pathB := Counted(a.path, PATH_WIDTH) + blobA, Counted(b.path, PATH_WIDTH) + blobB;
    TerminatedPrefixFree(a.mode, b.mode, Terminated(a.oid) + pathA, Terminated(b.oid) + pathB);
    TerminatedPrefixFree(a.oid, b.oid, pathA, pathB);
    CountedPrefixFree(a.path, b.path, PATH_WIDTH, blobA, blobB);
    CountedPrefixFree(a.blob, b.blob, BLOB_WIDTH, x, y);
  }

  ghost predicate AllEncodable(items: seq<Item>) {
    forall i :: 0 <= i < |items| ==> Encodable(items[i])
  }

  lemma {:induction false} RecordsInjective(a: seq<Item>, b: seq<Item>)
    requires AllEncodable(a) && AllEncodable(b) && Records(a) == Records(b)
    ensures a == b
    decreases |a|
  {
    if a == [] || b == [] {
      EmptyRecords(a);
      EmptyRecords(b);
    } else {
      RecordPrefixFree(a[0], b[0], Records(a[1..]), Records(b[1..]));
      RecordsInjective(a[1..], b[1..]);
      SameHeadSameTail(a, b);
    }
  }

  lemma {:induction false} SameHeadSameTail<T>(a: seq<T>, b: seq<T>)
    requires a != [] && b != [] && a[0] == b[0] && a[1..] == b[1..]
    ensures a == b
  {
    assert a == [a[0]] + a[1..] && b == [b[0]] + b[1..];
  }

  lemma {:induction false} EmptyRecords(items: seq<Item>)
    ensures Records(items) == [] <==> items == []
  {
    if items != [] { assert |Records(items)| >= |Record(items[0])| >= 2; }
  }

  /** Two lists of entries, even of different length, feed the same bytes only if they are the same. */
  lemma {:induction false} StreamInjective(a: seq<Item>, b: seq<Item>)
    requires AllEncodable(a) && AllEncodable(b)
    ensures Stream(a) == Stream(b) <==> a == b
  {
    if Stream(a) == Stream(b) {
      assert Records(a) == Stream(a)[|Prefix()|..] && Records(b) == Stream(b)[|Prefix()|..];
      RecordsInjective(a, b);
    }
  }

  lemma SplitAt(bytes: seq<Byte>, b: Byte) returns (before: seq<Byte>, after: seq<Byte>)
    requires b in bytes
    ensures bytes == before + [b] + after
  {
    var k :| 0 <= k < |bytes| && bytes[k] == b;
    before, after := bytes[..k], bytes[k + 1..];
  }

  lemma {:induction false} SameRecord(a: Item, b: Item)
    requires Terminated(a.mode) + Terminated(a.oid) == Terminated(b.mode) + Terminated(b.oid)
    requires a.path == b.path && a.blob == b.blob
    ensures Record(a) == Record(b)
  {
    HeadOfRecord(a);
    HeadOfRecord(b);
  }

  lemma HeadOfRecord(item: Item)
    ensures Record(item)
            == Terminated(item.mode) + Terminated(item.oid)
               + (Counted(item.path, PATH_WIDTH) + Counted(item.blob, BLOB_WIDTH))
  {
  }

  /** The boundary between mode and ID can move to any NUL that either of them holds. */
  lemma {:induction false} MoveBoundary(item: Item) returns (other: Item)
    requires NUL in item.mode || NUL in item.oid
    ensures other != item && Record(other) == Record(item)
  {
    if NUL in item.mode {
      var before, after := SplitAt(item.mode, NUL);
      other := item.(mode := before, oid := after + [NUL] + item.oid);
      assert |other.mode| < |item.mode|;
    } else {
      var before, after := SplitAt(item.oid, NUL);
      other := item.(mode := item.mode + [NUL] + before, oid := after);
      assert |other.oid| < |item.oid|;
    }
    SameRecord(other, item);
  }

  lemma {:induction false} RecordsConcat(a: seq<Item>, b: seq<Item>)
    ensures Records(a + b) == Records(a) + Records(b)
    decreases |a|
  {
    if a == [] {
      assert a + b == b;
    } else {
      assert (a + b)[1..] == a[1..] + b;
      RecordsConcat(a[1..], b);
    }
  }

  lemma {:induction false} RecordsAround(before: seq<Item>, item: Item, after: seq<Item>)
    ensures Records(before + [item] + after) == Records(before) + Record(item) + Records(after)
  {
    RecordsConcat(before + [item], after);
    RecordsConcat(before, [item]);
    assert Records([item]) == Record(item) + [] == Record(item);
  }

  /** Without the NUL rule it fails, always: every list of entries with a NUL in a mode or an ID
      feeds the same bytes as another list. */
  lemma {:induction false} NulWouldCollide(items: seq<Item>, i: nat) returns (others: seq<Item>)
    requires i < |items| && (NUL in items[i].mode || NUL in items[i].oid)
    ensures others != items && |others| == |items| && Stream(others) == Stream(items)
  {
    var other := MoveBoundary(items[i]);
    var before, after := items[..i], items[i + 1..];
    others := before + [other] + after;
    assert others[i] == other;
    assert items == before + [items[i]] + after;
    RecordsAround(before, other, after);
    RecordsAround(before, items[i], after);
  }

  // ---- Reading the stream back ------------------------------------------

  datatype Read<T> = Read(value: T, rest: seq<Byte>)

  /** The bytes before the first NUL, and those after it. */
  function ReadTerminated(bytes: seq<Byte>): Option<Read<seq<Byte>>> {
    var end := Find(bytes, 0);
    if end < 0 then None else Some(Read(bytes[..end], bytes[end + 1..]))
  }

  /** A length of so many bytes, and then that many bytes. */
  function ReadCounted(bytes: seq<Byte>, width: nat): Option<Read<seq<Byte>>> {
    if |bytes| < width then None else
      var n := FromBigEndian(bytes[..width]);
      if |bytes| < width + n then None else Some(Read(bytes[width..width + n], bytes[width + n..]))
  }

  /** Mode and ID up to a NUL each, a path after a length of four bytes, a blob after one of eight. */
  function ReadItem(bytes: seq<Byte>): Option<Read<Item>> {
    var mode := ReadTerminated(bytes);
    if mode.None? then None else
      var oid := ReadTerminated(mode.value.rest);
      if oid.None? then None else
        var path := ReadCounted(oid.value.rest, 4);
        if path.None? then None else
          var blob := ReadCounted(path.value.rest, 8);
          if blob.None? then None else
            Some(Read(Item(mode.value.value, oid.value.value, path.value.value, blob.value.value), blob.value.rest))
  }

  function ReadItems(bytes: seq<Byte>): Option<seq<Item>>
    decreases |bytes|
  {
    if bytes == [] then Some([]) else
      match ReadItem(bytes)
      case None => None
      case Some(first) =>
        if |first.rest| >= |bytes| then None else
          match ReadItems(first.rest)
          case None => None
          case Some(later) => Some([first.value] + later)
  }

  /** The schema name up to a NUL, and then entries to the end. */
  function ReadStream(bytes: seq<Byte>): Option<seq<Item>> {
    match ReadTerminated(bytes)
    case None => None
    case Some(schema) => if Text(schema.value) != SCHEMA then None else ReadItems(schema.rest)
  }

  lemma TerminatedReadsBack(bytes: seq<Byte>, rest: seq<Byte>)
    requires NUL !in bytes
    ensures ReadTerminated(Terminated(bytes) + rest) == Some(Read(bytes, rest))
  {
    var all := Terminated(bytes) + rest;
    FindAt(bytes, 0, rest);
    assert all == bytes + [0] + rest && all[..|bytes|] == bytes && all[|bytes| + 1..] == rest;
  }

  lemma CountedReadsBack(bytes: seq<Byte>, width: nat, rest: seq<Byte>)
    requires |bytes| < Capacity(width)
    ensures ReadCounted(Counted(bytes, width) + rest, width) == Some(Read(bytes, rest))
  {
    var all := Counted(bytes, width) + rest;
    BigEndianReadsBack(|bytes|, width);
    assert all[..width] == BigEndian(|bytes|, width);
    assert all[width..width + |bytes|] == bytes && all[width + |bytes|..] == rest;
  }

  lemma RecordReadsBack(item: Item, rest: seq<Byte>)
    requires Encodable(item)
    ensures ReadItem(Record(item) + rest) == Some(Read(item, rest))
  {
    RecordThen(item, rest);
    var afterPath := Counted(item.blob, BLOB_WIDTH) + rest;
    var afterOid := Counted(item.path, PATH_WIDTH) + afterPath;
    TerminatedReadsBack(item.mode, Terminated(item.oid) + afterOid);
    TerminatedReadsBack(item.oid, afterOid);
    CountedReadsBack(item.path, PATH_WIDTH, afterPath);
    CountedReadsBack(item.blob, BLOB_WIDTH, rest);
  }

  lemma {:induction false} ReadFirst(bytes: seq<Byte>, item: Item, rest: seq<Byte>, later: seq<Item>)
    requires ReadItem(bytes) == Some(Read(item, rest)) && |rest| < |bytes| && ReadItems(rest) == Some(later)
    ensures ReadItems(bytes) == Some([item] + later)
  {
  }

  lemma {:induction false} RecordsReadBack(items: seq<Item>)
    requires AllEncodable(items)
    ensures ReadItems(Records(items)) == Some(items)
    decreases |items|
  {
    if items != [] {
      RecordReadsBack(items[0], Records(items[1..]));
      RecordsReadBack(items[1..]);
      assert |Record(items[0])| >= 2;
      ReadFirst(Records(items), items[0], Records(items[1..]), items[1..]);
      assert items == [items[0]] + items[1..];
    }
  }

  /** A reader that knows only the layout gets the entries back from the stream. */
  lemma {:induction false} StreamReadsBack(items: seq<Item>)
    requires AllEncodable(items)
    ensures ReadStream(Stream(items)) == Some(items)
  {
    assert forall i :: 0 <= i < |SCHEMA| ==> SCHEMA[i] as int < 128;
    assert NUL !in Encode(SCHEMA);
    TerminatedReadsBack(Encode(SCHEMA), Records(items));
    EncodeInverts(SCHEMA);
    RecordsReadBack(items);
  }
}
