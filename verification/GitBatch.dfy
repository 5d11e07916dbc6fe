/**
 Reading the answer of `git cat-file --batch`: one frame per requested object,
 a header line with the object's ID, type and size, then exactly that many bytes
 and a newline.
 */
module GitBatch {
  import opened Outcomes
  import opened Decimal
  import opened Sequences

  type Byte = b: int | 0 <= b < 256

  const NL: Byte := 10
  const SP: Byte := 32
  const BLOB: seq<Byte> := [98, 108, 111, 98]

  datatype BlobEntry = BlobEntry(mode: string, oid: string, path: string)

  datatype BatchError =
    | Truncated | MalformedHeader | InvalidSize | NotAscii | IdentityMismatch | BlobTruncated | TrailingBytes

  // ---- Bytes and text ---------------------------------------------------

  /** Bytes read as text, one character per byte. */
  function Text(bytes: seq<Byte>): string {
    seq(|bytes|, i requires 0 <= i < |bytes| => bytes[i] as char)
  }

  predicate IsAscii(text: string) {
    forall i :: 0 <= i < |text| ==> text[i] as int < 128
  }

  function Encode(text: string): seq<Byte>
    requires IsAscii(text)
  {
    seq(|text|, i requires 0 <= i < |text| => text[i] as int)
  }

  lemma EncodeInverts(text: string)
    requires IsAscii(text)
    ensures Text(Encode(text)) == text
  {
  }

  lemma {:induction false} TextInverts(bytes: seq<Byte>)
    requires IsAscii(Text(bytes))
    ensures Encode(Text(bytes)) == bytes
  {
    forall i | 0 <= i < |bytes| ensures Encode(Text(bytes))[i] == bytes[i] {
      assert Text(bytes)[i] == bytes[i] as char;
    }
  }

  /** Where `b` first occurs, or -1. */
  function Find(bytes: seq<Byte>, b: Byte): (i: int)
    ensures i < 0 ==> b !in bytes
    ensures i >= 0 ==> i < |bytes| && bytes[i] == b && b !in bytes[..i]
  {
    if bytes == [] then -1
    else if bytes[0] == b then 0
    else
      var i := Find(bytes[1..], b);
      if i < 0 then -1 else
        assert bytes[..i + 1] == [bytes[0]] + bytes[1..][..i];
        i + 1
  }

  lemma FindAt(before: seq<Byte>, b: Byte, after: seq<Byte>)
    requires b !in before
    ensures Find(before + [b] + after, b) == |before|
  {
    var bytes := before + [b] + after;
    assert bytes[|before|] == b;
    assert forall i :: 0 <= i < |before| ==> bytes[i] == before[i];
  }

  /** The stretches between spaces; always at least one. */
  function Split(bytes: seq<Byte>): (parts: seq<seq<Byte>>)
    ensures |parts| >= 1
    decreases |bytes|
  {
    var i := Find(bytes, SP);
    if i < 0 then [bytes] else [bytes[..i]] + Split(bytes[i + 1..])
  }

  function Spaced(a: seq<Byte>, b: seq<Byte>, c: seq<Byte>): seq<Byte> {
    a + [SP] + (b + [SP] + c)
  }

  lemma SplitIsThree(bytes: seq<Byte>, a: seq<Byte>, b: seq<Byte>, c: seq<Byte>)
    requires Split(bytes) == [a, b, c]
    ensures bytes == Spaced(a, b, c) && SP !in a && SP !in b && SP !in c
  {
    assert [a, b, c] == [a] + [b, c] && [b, c] == [b] + [c];
    var rest := SplitFirst(bytes, a, [b, c]);
    var last := SplitFirst(rest, b, [c]);
    SplitSingle(last, c);
  }

  lemma SplitFirst(bytes: seq<Byte>, part: seq<Byte>, parts: seq<seq<Byte>>) returns (rest: seq<Byte>)
    requires Split(bytes) == [part] + parts && parts != []
    ensures bytes == part + [SP] + rest && SP !in part && Split(rest) == parts
  {
    var i := Find(bytes, SP);
    assert i >= 0;
    rest := bytes[i + 1..];
    assert ([bytes[..i]] + Split(rest))[1..] == Split(rest);
    assert ([part] + parts)[1..] == parts;
    assert bytes[..i] == ([part] + parts)[0];
  }

  lemma SplitPut(part: seq<Byte>, rest: seq<Byte>)
    requires SP !in part
    ensures Split(part + [SP] + rest) == [part] + Split(rest)
  {
    var bytes := part + [SP] + rest;
    FindAt(part, SP, rest);
    assert bytes[..|part|] == part && bytes[|part| + 1..] == rest;
  }

  /** A header splits in three exactly when it is three stretches joined by spaces. */
  lemma {:induction false} SplitsInThree(bytes: seq<Byte>, a: seq<Byte>, b: seq<Byte>, c: seq<Byte>)
    ensures Split(bytes) == [a, b, c] <==> bytes == Spaced(a, b, c) && SP !in a && SP !in b && SP !in c
  {
    if Split(bytes) == [a, b, c] {
      SplitIsThree(bytes, a, b, c);
    }
    if bytes == Spaced(a, b, c) && SP !in a && SP !in b && SP !in c {
      SplitPut(a, b + [SP] + c);
      SplitPut(b, c);
      SplitSingle(c, c);
    }
  }

  lemma {:induction false} SplitSingle(bytes: seq<Byte>, part: seq<Byte>)
    ensures Split(bytes) == [part] <==> bytes == part && SP !in part
  {
    var i := Find(bytes, SP);
    if i >= 0 {
      assert |Split(bytes)| >= 2;
    }
  }

  // ---- Frames -----------------------------------------------------------

  /** An object ID that can be asked for and found again. */
  predicate CleanOid(oid: string) {
    IsAscii(oid) && SP !in Encode(oid) && NL !in Encode(oid)
  }

  predicate SizeText(bytes: seq<Byte>, size: nat) {
    SP !in bytes && NL !in bytes && ParseInt(Text(bytes)) == Some(size as int)
  }

  ghost predicate AsciiOids(entries: seq<BlobEntry>) {
    forall i :: 0 <= i < |entries| ==> IsAscii(entries[i].oid)
  }

  ghost predicate CleanOids(entries: seq<BlobEntry>) {
    forall i :: 0 <= i < |entries| ==> CleanOid(entries[i].oid)
  }

  function FrameBytes(oid: seq<Byte>, size: seq<Byte>, blob: seq<Byte>): seq<Byte> {
    Spaced(oid, BLOB, size) + [NL] + (blob + [NL])
  }

  /** `raw` is a frame of this object with this content, then `rest`. */
  ghost predicate StartsWithFrame(raw: seq<Byte>, oid: string, blob: seq<Byte>, rest: seq<Byte>) {
    && CleanOid(oid)
    && exists size :: SizeText(size, |blob|) && raw == FrameBytes(Encode(oid), size, blob) + rest
  }

  /** `raw` is exactly one frame per entry, in order, holding these blobs. */
  ghost predicate IsFraming(raw: seq<Byte>, entries: seq<BlobEntry>, blobs: seq<seq<Byte>>)
    decreases |entries|
  {
    if entries == [] then raw == [] && blobs == []
    else
      && blobs != []
      && exists rest :: StartsWithFrame(raw, entries[0].oid, blobs[0], rest)
                        && IsFraming(rest, entries[1..], blobs[1..])
  }

  // ---- The parser -------------------------------------------------------

  datatype Parsed = Parsed(blob: seq<Byte>, length: nat)

  /** The size a header line declares; the line must be for `oid`. */
  function HeaderSize(line: seq<Byte>, oid: string): Result<nat, BatchError> {
    var header := Split(line);
    if |header| != 3 then Err(MalformedHeader) else
      match ParseInt(Text(header[2]))
      case None => Err(InvalidSize)
      case Some(size) =>
        if !IsAscii(Text(header[0])) then Err(NotAscii)
        else if Text(header[0]) != oid || header[1] != BLOB || size < 0 then Err(IdentityMismatch)
        else Ok(size)
  }

  /** The first frame of `raw`, which must be for `oid`. */
  function ParseFrame(raw: seq<Byte>, oid: string): (r: Result<Parsed, BatchError>)
    ensures r.Ok? ==> 0 < r.value.length <= |raw|
  {
    var end := Find(raw, NL);
    if end < 0 then Err(Truncated) else
      match HeaderSize(raw[..end], oid)
      case Err(error) => Err(error)
      case Ok(size) =>
        var body := raw[end + 1..];
        if |body| < size + 1 || body[size] != NL then Err(BlobTruncated)
        else Ok(Parsed(body[..size], end + 1 + size + 1))
  }

  function ParseFrames(raw: seq<Byte>, entries: seq<BlobEntry>): Result<seq<seq<Byte>>, BatchError>
    decreases |entries|
  {
    if entries == [] then
      if raw == [] then Ok([]) else Err(TrailingBytes)
    else
      match ParseFrame(raw, entries[0].oid)
      case Err(error) => Err(error)
      case Ok(first) =>
        match ParseFrames(raw[first.length..], entries[1..])
        case Err(error) => Err(error)
        case Ok(blobs) => Ok([first.blob] + blobs)
  }

  /** Puts a blob in front of what the later frames hold. */
  function Prepend(
    blobs: seq<seq<Byte>>, later: Result<seq<seq<Byte>>, BatchError>): Result<seq<seq<Byte>>, BatchError> {
    match later
    case Err(error) => Err(error)
    case Ok(more) => Ok(blobs + more)
  }

  /** With these blobs read, the frames of `left` in `rest` complete the whole answer. */
  ghost predicate Reads(
    whole: Result<seq<seq<Byte>>, BatchError>, blobs: seq<seq<Byte>>, rest: seq<Byte>, left: seq<BlobEntry>)
  {
    whole == Prepend(blobs, ParseFrames(rest, left))
  }

  lemma ReadsFromStart(raw: seq<Byte>, entries: seq<BlobEntry>)
    ensures Reads(ParseFrames(raw, entries), [], raw, entries)
  {
    var whole := ParseFrames(raw, entries);
    assert whole.Ok? ==> [] + whole.value == whole.value;
  }

  lemma ReadsOn(
    whole: Result<seq<seq<Byte>>, BatchError>, blobs: seq<seq<Byte>>, rest: seq<Byte>, left: seq<BlobEntry>,
    frame: Result<Parsed, BatchError>)
    requires left != [] && frame == ParseFrame(rest, left[0].oid) && Reads(whole, blobs, rest, left)
    ensures frame.Err? ==> whole == Err(frame.error)
    ensures frame.Ok? ==> Reads(whole, blobs + [frame.value.blob], rest[frame.value.length..], left[1..])
  {
    if frame.Ok? {
      var later := ParseFrames(rest[frame.value.length..], left[1..]);
      assert later.Ok? ==> blobs + ([frame.value.blob] + later.value) == blobs + [frame.value.blob] + later.value;
    }
  }

  lemma ReadsToEnd(whole: Result<seq<seq<Byte>>, BatchError>, blobs: seq<seq<Byte>>, rest: seq<Byte>)
    requires Reads(whole, blobs, rest, [])
    ensures whole == if rest == [] then Ok(blobs) else Err(TrailingBytes)
  {
    assert blobs + [] == blobs;
  }

  /** Reads the answer with a cursor that moves over it. */
  method GitBlobBatch(entries: seq<BlobEntry>, raw: seq<Byte>) returns (r: Result<seq<seq<Byte>>, BatchError>)
    ensures r == if AsciiOids(entries) then ParseFrames(raw, entries) else Err(NotAscii)
  {
    for i := 0 to |entries|
      invariant forall k :: 0 <= k < i ==> IsAscii(entries[k].oid)
    {
      if !IsAscii(entries[i].oid) {
        return Err(NotAscii);
      }
    }
    r := ReadFrames(entries, raw);
  }

  method ReadFrames(entries: seq<BlobEntry>, raw: seq<Byte>) returns (r: Result<seq<seq<Byte>>, BatchError>)
    ensures r == ParseFrames(raw, entries)
  {
    var cursor := 0;
    var blobs: seq<seq<Byte>> := [];
    ghost var whole := ParseFrames(raw, entries);
    ghost var rest, left := raw, entries;
    ReadsFromStart(raw, entries);
    for i := 0 to |entries|
      invariant 0 <= cursor <= |raw| && rest == raw[cursor..] && left == entries[i..]
      invariant Reads(whole, blobs, rest, left)
    {
      var frame := ParseFrame(raw[cursor..], entries[i].oid);
      ReadsOn(whole, blobs, rest, left, frame);
      if frame.Err? {
        return Err(frame.error);
      }
      DropMore(raw, cursor, frame.value.length);
      DropMore(entries, i, 1);
      blobs := blobs + [frame.value.blob];
      cursor := cursor + frame.value.length;
      rest, left := rest[frame.value.length..], left[1..];
    }
    ReadsToEnd(whole, blobs, rest);
    if cursor != |raw| {
      return Err(TrailingBytes);
    }
    r := Ok(blobs);
  }

  // ---- The parser accepts exactly the framings ---------------------------

  /** `line` names this object and gives its size as `size`. */
  ghost predicate IsHeader(line: seq<Byte>, oid: string, size: seq<Byte>) {
    IsAscii(oid) && SP !in Encode(oid) && SP !in size && line == Spaced(Encode(oid), BLOB, size)
  }

  lemma HeaderParses(line: seq<Byte>, oid: string, size: seq<Byte>, n: nat)
    requires IsHeader(line, oid, size) && ParseInt(Text(size)) == Some(n as int)
    ensures HeaderSize(line, oid) == Ok(n)
  {
    SplitsInThree(line, Encode(oid), BLOB, size);
    EncodeInverts(oid);
  }

  lemma ParsedIsHeader(line: seq<Byte>, oid: string) returns (size: seq<Byte>)
    requires HeaderSize(line, oid).Ok?
    ensures IsHeader(line, oid, size) && ParseInt(Text(size)) == Some(HeaderSize(line, oid).value as int)
  {
    var header := Split(line);
    size := header[2];
    SplitsInThree(line, header[0], header[1], header[2]);
    TextInverts(header[0]);
  }

  lemma {:induction false} HeaderHasNoNewline(line: seq<Byte>, oid: string, size: seq<Byte>)
    requires IsHeader(line, oid, size)
    ensures NL !in line <==> NL !in Encode(oid) && NL !in size
  {
    var bytes := Encode(oid);
    assert forall b :: b in line <==> b in bytes || b == SP || b in BLOB || b in size;
  }

  lemma CutFrame(header: seq<Byte>, blob: seq<Byte>, rest: seq<Byte>)
    requires NL !in header
    ensures var raw := header + [NL] + (blob + [NL]) + rest;
            var body := raw[|header| + 1..];
            && Find(raw, NL) == |header| && raw[..|header|] == header
            && body == blob + [NL] + rest && body[..|blob|] == blob && body[|blob|] == NL
            && raw[|header| + 1 + |blob| + 1..] == rest
  {
    var raw := header + [NL] + (blob + [NL]) + rest;
    assert raw == header + [NL] + (blob + [NL] + rest);
    FindAt(header, NL, blob + [NL] + rest);
  }

  lemma FrameParses(raw: seq<Byte>, oid: string, blob: seq<Byte>, rest: seq<Byte>)
    requires StartsWithFrame(raw, oid, blob, rest)
    ensures ParseFrame(raw, oid).Ok? && ParseFrame(raw, oid).value.blob == blob
    ensures raw[ParseFrame(raw, oid).value.length..] == rest
  {
    var size :| SizeText(size, |blob|) && raw == FrameBytes(Encode(oid), size, blob) + rest;
    var header := Spaced(Encode(oid), BLOB, size);
    HeaderHasNoNewline(header, oid, size);
    HeaderParses(header, oid, size, |blob|);
    CutFrame(header, blob, rest);
  }

  lemma RejoinFrame(raw: seq<Byte>, end: nat, size: nat)
    requires end < |raw| && raw[end] == NL && end + 1 + size < |raw| && raw[end + 1 + size] == NL
    ensures raw == raw[..end] + [NL] + (raw[end + 1..][..size] + [NL]) + raw[end + 1 + size + 1..]
  {
  }

  lemma ParsedIsFrame(raw: seq<Byte>, oid: string)
    requires ParseFrame(raw, oid).Ok?
    ensures StartsWithFrame(raw, oid, ParseFrame(raw, oid).value.blob, raw[ParseFrame(raw, oid).value.length..])
  {
    var parsed := ParseFrame(raw, oid).value;
    var end := Find(raw, NL);
    var size := ParsedIsHeader(raw[..end], oid);
    HeaderHasNoNewline(raw[..end], oid, size);
    RejoinFrame(raw, end, |parsed.blob|);
    assert SizeText(size, |parsed.blob|);
    assert raw == FrameBytes(Encode(oid), size, parsed.blob) + raw[parsed.length..];
  }

  lemma FramesInOrder(raw: seq<Byte>, entries: seq<BlobEntry>, blob: seq<Byte>, rest: seq<Byte>, later: seq<seq<Byte>>)
    requires entries != [] && StartsWithFrame(raw, entries[0].oid, blob, rest) && IsFraming(rest, entries[1..], later)
    ensures IsFraming(raw, entries, [blob] + later)
  {
    assert ([blob] + later)[1..] == later;
  }

  lemma {:induction false} ParsedIsFraming(raw: seq<Byte>, entries: seq<BlobEntry>)
    requires ParseFrames(raw, entries).Ok?
    ensures IsFraming(raw, entries, ParseFrames(raw, entries).value)
    decreases |entries|
  {
    if entries != [] {
      var first := ParseFrame(raw, entries[0].oid).value;
      var rest := raw[first.length..];
      ParsedIsFrame(raw, entries[0].oid);
      ParsedIsFraming(rest, entries[1..]);
      FramesInOrder(raw, entries, first.blob, rest, ParseFrames(rest, entries[1..]).value);
    }
  }

  lemma {:induction false} FirstFrame(
    raw: seq<Byte>, entries: seq<BlobEntry>, blobs: seq<seq<Byte>>) returns (rest: seq<Byte>)
    requires entries != [] && IsFraming(raw, entries, blobs)
    ensures blobs != [] && blobs == [blobs[0]] + blobs[1..]
    ensures StartsWithFrame(raw, entries[0].oid, blobs[0], rest) && IsFraming(rest, entries[1..], blobs[1..])
  {
    rest :| StartsWithFrame(raw, entries[0].oid, blobs[0], rest) && IsFraming(rest, entries[1..], blobs[1..]);
  }

  lemma {:induction false} FramingParses(raw: seq<Byte>, entries: seq<BlobEntry>, blobs: seq<seq<Byte>>)
    requires IsFraming(raw, entries, blobs)
    ensures ParseFrames(raw, entries) == Ok(blobs)
    decreases |entries|
  {
    if entries != [] {
      var rest := FirstFrame(raw, entries, blobs);
      FrameParses(raw, entries[0].oid, blobs[0], rest);
      FramingParses(rest, entries[1..], blobs[1..]);
      FirstThenRest(raw, entries, blobs[0], rest, blobs[1..]);
    }
  }

  lemma FirstThenRest(raw: seq<Byte>, entries: seq<BlobEntry>, blob: seq<Byte>, rest: seq<Byte>, later: seq<seq<Byte>>)
    requires entries != [] && ParseFrame(raw, entries[0].oid).Ok?
    requires var first := ParseFrame(raw, entries[0].oid).value; first.blob == blob && raw[first.length..] == rest
    requires ParseFrames(rest, entries[1..]) == Ok(later)
    ensures ParseFrames(raw, entries) == Ok([blob] + later)
  {
  }

  /** An answer is accepted with these blobs exactly when it is the framing of these blobs: the
      requested IDs in order, every declared length right, nothing left over. */
  lemma {:induction false} ParsesExactlyFramings(raw: seq<Byte>, entries: seq<BlobEntry>, blobs: seq<seq<Byte>>)
    ensures ParseFrames(raw, entries) == Ok(blobs) <==> IsFraming(raw, entries, blobs)
  {
    if ParseFrames(raw, entries) == Ok(blobs) {
      ParsedIsFraming(raw, entries);
    }
    if IsFraming(raw, entries, blobs) {
      FramingParses(raw, entries, blobs);
    }
  }

  // ---- Which error a refused answer gets --------------------------------

  /** `line` is three stretches without a space, joined by spaces. */
  ghost predicate ThreeParts(line: seq<Byte>, a: seq<Byte>, b: seq<Byte>, c: seq<Byte>) {
    line == a + [SP] + (b + [SP] + c) && SP !in a && SP !in b && SP !in c
  }

  /** Why a header line is refused: the first of these tests that it fails. */
  ghost predicate RefusesHeader(line: seq<Byte>, oid: string, e: BatchError) {
    if !exists a, b, c :: ThreeParts(line, a, b, c) then e == MalformedHeader
    else exists a, b, c :: ThreeParts(line, a, b, c) && RefusesParts(oid, a, b, c, e)
  }

  ghost predicate RefusesParts(oid: string, a: seq<Byte>, b: seq<Byte>, c: seq<Byte>, e: BatchError) {
    if ParseInt(Text(c)).None? then e == InvalidSize
    else if !IsAscii(Text(a)) then e == NotAscii
    else (Text(a) != oid || b != BLOB || ParseInt(Text(c)).value < 0) && e == IdentityMismatch
  }

  /** `raw` is this line, a newline and this body. */
  ghost predicate Lines(raw: seq<Byte>, line: seq<Byte>, body: seq<Byte>) {
    raw == line + [NL] + body && NL !in line
  }

  /** Why `raw` does not start with a frame of this object: no line, a bad line, or no blob of the
      declared length with a newline after it. */
  ghost predicate RefusesFrame(raw: seq<Byte>, oid: string, e: BatchError) {
    if NL !in raw then e == Truncated
    else exists line, body :: Lines(raw, line, body) && RefusesLine(line, body, oid, e)
  }

  ghost predicate RefusesLine(line: seq<Byte>, body: seq<Byte>, oid: string, e: BatchError) {
    || RefusesHeader(line, oid, e)
    || (e == BlobTruncated && exists size, n: nat ::
          IsHeader(line, oid, size) && ParseInt(Text(size)) == Some(n) && !(n < |body| && body[n] == NL))
  }

  /** Why a whole answer is refused: the frames before the bad one are good, or bytes are left over. */
  ghost predicate RefusedFor(raw: seq<Byte>, entries: seq<BlobEntry>, e: BatchError)
    decreases |entries|
  {
    if entries == [] then raw != [] && e == TrailingBytes
    else
      || RefusesFrame(raw, entries[0].oid, e)
      || exists blob, rest :: StartsWithFrame(raw, entries[0].oid, blob, rest) && RefusedFor(rest, entries[1..], e)
  }

  lemma {:induction false} PartsOnce(
    line: seq<Byte>, a: seq<Byte>, b: seq<Byte>, c: seq<Byte>, x: seq<Byte>, y: seq<Byte>, z: seq<Byte>)
    requires ThreeParts(line, a, b, c) && ThreeParts(line, x, y, z)
    ensures a == x && b == y && c == z
  {
    SplitsInThree(line, a, b, c);
    SplitsInThree(line, x, y, z);
    assert [a, b, c][0] == [x, y, z][0] && [a, b, c][1] == [x, y, z][1] && [a, b, c][2] == [x, y, z][2];
  }

  lemma {:induction false} PartsExactly(line: seq<Byte>)
    ensures |Split(line)| == 3 <==> exists a, b, c :: ThreeParts(line, a, b, c)
    ensures |Split(line)| == 3 ==> ThreeParts(line, Split(line)[0], Split(line)[1], Split(line)[2])
  {
    if |Split(line)| == 3 {
      var a, b, c := Split(line)[0], Split(line)[1], Split(line)[2];
      assert Split(line) == [a, b, c];
      SplitsInThree(line, a, b, c);
      assert ThreeParts(line, a, b, c);
    }
    if a, b, c :| ThreeParts(line, a, b, c) {
      SplitsInThree(line, a, b, c);
      assert Split(line) == [a, b, c];
    }
  }

  lemma {:induction false} PartsRefused(
    line: seq<Byte>, oid: string, a: seq<Byte>, b: seq<Byte>, c: seq<Byte>, e: BatchError)
    requires Split(line) == [a, b, c]
    ensures HeaderSize(line, oid) == Err(e) <==> RefusesParts(oid, a, b, c, e)
  {
  }

  lemma {:induction false} ThesePartsOnly(
    line: seq<Byte>, oid: string, a: seq<Byte>, b: seq<Byte>, c: seq<Byte>, e: BatchError)
    requires ThreeParts(line, a, b, c)
    ensures RefusesHeader(line, oid, e) <==> RefusesParts(oid, a, b, c, e)
  {
    if x, y, z :| ThreeParts(line, x, y, z) && RefusesParts(oid, x, y, z, e) {
      PartsOnce(line, a, b, c, x, y, z);
    }
  }

  lemma {:induction false} HeaderRefused(line: seq<Byte>, oid: string, e: BatchError)
    ensures HeaderSize(line, oid) == Err(e) <==> RefusesHeader(line, oid, e)
  {
    PartsExactly(line);
    if |Split(line)| == 3 {
      var a, b, c := Split(line)[0], Split(line)[1], Split(line)[2];
      assert Split(line) == [a, b, c];
      PartsRefused(line, oid, a, b, c, e);
      ThesePartsOnly(line, oid, a, b, c, e);
    }
  }

  lemma {:induction false} LinesOnce(raw: seq<Byte>, line: seq<Byte>, body: seq<Byte>)
    ensures Lines(raw, line, body)
            <==> Find(raw, NL) >= 0 && line == raw[..Find(raw, NL)] && body == raw[Find(raw, NL) + 1..]
  {
    if Lines(raw, line, body) { FindAt(line, NL, body); }
    var end := Find(raw, NL);
    if end >= 0 { assert raw == raw[..end] + [NL] + raw[end + 1..]; }
  }

  lemma {:induction false} HeaderOnce(line: seq<Byte>, oid: string, n: nat)
    ensures HeaderSize(line, oid) == Ok(n)
            <==> exists size :: IsHeader(line, oid, size) && ParseInt(Text(size)) == Some(n as int)
  {
    if HeaderSize(line, oid) == Ok(n) { var size := ParsedIsHeader(line, oid); }
    if size :| IsHeader(line, oid, size) && ParseInt(Text(size)) == Some(n as int) {
      HeaderParses(line, oid, size, n);
    }
  }

  lemma {:induction false} LineRefused(line: seq<Byte>, body: seq<Byte>, oid: string, e: BatchError)
    ensures RefusesLine(line, body, oid, e) <==>
              match HeaderSize(line, oid)
              case Err(error) => e == error
              case Ok(n) => e == BlobTruncated && (|body| < n + 1 || body[n] != NL)
  {
    HeaderRefused(line, oid, e);
    if HeaderSize(line, oid).Ok? {
      HeaderOnce(line, oid, HeaderSize(line, oid).value);
    }
    forall size, n: nat | IsHeader(line, oid, size) && ParseInt(Text(size)) == Some(n)
      ensures HeaderSize(line, oid) == Ok(n)
    {
      HeaderOnce(line, oid, n);
    }
  }

  lemma {:induction false} FrameRefused(raw: seq<Byte>, oid: string, e: BatchError)
    ensures ParseFrame(raw, oid) == Err(e) <==> RefusesFrame(raw, oid, e)
  {
    var end := Find(raw, NL);
    if end >= 0 {
      var line, body := raw[..end], raw[end + 1..];
      LinesOnce(raw, line, body);
      LineRefused(line, body, oid, e);
      forall x, y | Lines(raw, x, y) ensures x == line && y == body {
        LinesOnce(raw, x, y);
      }
    }
  }

  lemma {:induction false} FrameOnce(raw: seq<Byte>, oid: string)
    ensures forall blob, rest :: StartsWithFrame(raw, oid, blob, rest) ==>
              ParseFrame(raw, oid).Ok? && rest == raw[ParseFrame(raw, oid).value.length..]
  {
    forall blob, rest | StartsWithFrame(raw, oid, blob, rest)
      ensures ParseFrame(raw, oid).Ok? && rest == raw[ParseFrame(raw, oid).value.length..]
    {
      FrameParses(raw, oid, blob, rest);
    }
  }

  /** An answer is refused with an error exactly when the error names what is wrong with it, in the first
      frame in which something is. */
  lemma {:induction false} RefusedExactly(raw: seq<Byte>, entries: seq<BlobEntry>, e: BatchError)
    ensures ParseFrames(raw, entries) == Err(e) <==> RefusedFor(raw, entries, e)
    decreases |entries|
  {
    if entries != [] {
      var oid := entries[0].oid;
      FrameRefused(raw, oid, e);
      if ParseFrame(raw, oid).Ok? {
        var first := ParseFrame(raw, oid).value;
        var rest := raw[first.length..];
        ParsedIsFrame(raw, oid);
        RefusedExactly(rest, entries[1..], e);
      }
      FrameOnce(raw, oid);
    }
  }

  // ---- What git prints --------------------------------------------------

  /** The answer git gives, sizes in plain decimal.  IDs are printed as they were asked for. */
  function Print(entries: seq<BlobEntry>, blobs: seq<seq<Byte>>): seq<Byte>
    requires |entries| == |blobs| && AsciiOids(entries)
    decreases |entries|
  {
    if entries == [] then [] else
      DigitsAreAscii(|blobs[0]|);
      FrameBytes(Encode(entries[0].oid), Encode(Digits(|blobs[0]|)), blobs[0]) + Print(entries[1..], blobs[1..])
  }

  lemma DigitsAreAscii(n: nat)
    ensures IsAscii(Digits(n))
    ensures SizeText(Encode(Digits(n)), n)
  {
    assert forall i :: 0 <= i < |Digits(n)| ==> IsDigit(Digits(n)[i]);
    EncodeInverts(Digits(n));
    ParseInverts(n);
  }

  lemma {:induction false} PrintIsFraming(entries: seq<BlobEntry>, blobs: seq<seq<Byte>>)
    requires |entries| == |blobs| && AsciiOids(entries) && CleanOids(entries)
    ensures IsFraming(Print(entries, blobs), entries, blobs)
    decreases |entries|
  {
    if entries != [] {
      PrintIsFraming(entries[1..], blobs[1..]);
      DigitsAreAscii(|blobs[0]|);
      assert StartsWithFrame(Print(entries, blobs), entries[0].oid, blobs[0], Print(entries[1..], blobs[1..]));
    }
  }

  lemma {:induction false} FramingNeedsCleanOids(raw: seq<Byte>, entries: seq<BlobEntry>, blobs: seq<seq<Byte>>)
    requires IsFraming(raw, entries, blobs)
    ensures |blobs| == |entries| && CleanOids(entries)
    decreases |entries|
  {
    if entries != [] {
      var rest := FirstFrame(raw, entries, blobs);
      FramingNeedsCleanOids(rest, entries[1..], blobs[1..]);
      assert forall i :: 0 < i < |entries| ==> entries[i] == entries[1..][i - 1];
    }
  }

  /** Reading back what git prints gives the blobs, whatever bytes they hold, exactly when no
      requested ID contains a space or a newline. */
  lemma {:induction false} ParseUndoesPrint(entries: seq<BlobEntry>, blobs: seq<seq<Byte>>)
    requires |entries| == |blobs| && AsciiOids(entries)
    ensures ParseFrames(Print(entries, blobs), entries) == Ok(blobs)
            <==> CleanOids(entries)
  {
    ParsesExactlyFramings(Print(entries, blobs), entries, blobs);
    if CleanOids(entries) {
      PrintIsFraming(entries, blobs);
    }
    if IsFraming(Print(entries, blobs), entries, blobs) {
      FramingNeedsCleanOids(Print(entries, blobs), entries, blobs);
    }
  }
}
