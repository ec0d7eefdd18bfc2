/** The checksummed snapshot format: a reader, its matching writer, and the digest check. */
module Framing {
  import opened Prelude

  newtype Byte = b: int | 0 <= b < 256

  type Bytes = seq<Byte>

  /** Any function can stand for the digest; results of the wrong length count as zeros. */
  type Hash = Bytes -> Bytes

  function Digest(h: Hash, b: Bytes): (d: Bytes)
    ensures |d| == 32
    ensures |h(b)| == 32 ==> d == h(b)
  {
    if |h(b)| == 32 then h(b) else seq(32, _ => 0)
  }

  /** The text "graphrun.snapshot/v1" and a zero byte. */
  const MAGIC: Bytes := [103, 114, 97, 112, 104, 114, 117, 110, 46, 115, 110, 97, 112, 115, 104, 111, 116, 47, 118, 49, 0]
  const MAX_FRAME := 1024 * 1024
  const MAX_PROOF := 16 * MAX_FRAME
  const TWO_32 := 0x1_0000_0000

  // ----- little-endian lengths -----

  function Place(n: nat, i: nat): Byte
    decreases i
  {
    if i == 0 then (n % 256) as Byte else Place(n / 256, i - 1)
  }

  function Le32(n: nat): (b: Bytes)
    ensures |b| == 4
  {
    seq(4, i requires 0 <= i < 4 => Place(n, i))
  }

  function LeValue(b: Bytes): nat {
    if b == [] then 0 else b[0] as int + 256 * LeValue(b[1..])
  }

  function FromLe32(b: Bytes): nat
    requires |b| == 4
  {
    LeValue(b)
  }

  lemma LeParts(b: Bytes)
    requires |b| == 4
    ensures FromLe32(b) == b[0] as int + 256 * b[1] as int + 65536 * b[2] as int + 16777216 * b[3] as int
  {
    var b1, b2, b3 := b[1..], b[2..], b[3..];
    assert b1[1..] == b2 && b2[1..] == b3 && b3[1..] == [];
    assert LeValue(b3) == b[3] as int;
    assert LeValue(b2) == b[2] as int + 256 * LeValue(b3);
    assert LeValue(b1) == b[1] as int + 256 * LeValue(b2);
  }

  /** The four places of a number, and the number from its places. */
  lemma Places(n: nat)
    ensures n / 256 / 256 == n / 65536 && n / 256 / 256 / 256 == n / 16777216
    ensures n < TWO_32 ==>
              n == n % 256 + 256 * (n / 256 % 256) + 65536 * (n / 65536 % 256) + 16777216 * (n / 16777216 % 256)
  {
  }

  lemma PlacesOf(a: nat, b: nat, c: nat, d: nat, n: nat)
    requires a < 256 && b < 256 && c < 256 && d < 256 && n == a + 256 * b + 65536 * c + 16777216 * d
    ensures n < TWO_32 && n % 256 == a && n / 256 % 256 == b && n / 65536 % 256 == c && n / 16777216 % 256 == d
  {
    assert n / 256 == b + 256 * c + 65536 * d;
    assert n / 65536 == c + 256 * d;
    assert n / 16777216 == d;
  }

  lemma LePlaces(n: nat)
    ensures Le32(n)[0] as int == n % 256 && Le32(n)[1] as int == n / 256 % 256
    ensures Le32(n)[2] as int == n / 65536 % 256 && Le32(n)[3] as int == n / 16777216 % 256
  {
    Places(n);
    assert Place(n, 2) == Place(n / 256, 1) && Place(n, 3) == Place(n / 256, 2) == Place(n / 256 / 256, 1);
  }

  lemma LeOfValue(n: nat)
    requires n < TWO_32
    ensures FromLe32(Le32(n)) == n
  {
    LePlaces(n);
    LeParts(Le32(n));
    Places(n);
  }

  lemma ValueOfLe(b: Bytes)
    requires |b| == 4
    ensures FromLe32(b) < TWO_32 && Le32(FromLe32(b)) == b
  {
    LeParts(b);
    LePlaces(FromLe32(b));
    PlacesOf(b[0] as int, b[1] as int, b[2] as int, b[3] as int, FromLe32(b));
  }

  // ----- the format -----

  datatype Snapshot = Snapshot(header: Bytes, sizes: seq<nat>, payload: Bytes)

  function Sum(sizes: seq<nat>): nat {
    if sizes == [] then 0 else sizes[0] + Sum(sizes[1..])
  }

  function Frame(h: Hash, data: Bytes): Bytes {
    Le32(|data|) + data + Digest(h, data)
  }

  function Frames(h: Hash, sizes: seq<nat>, payload: Bytes): Bytes
    requires Sum(sizes) == |payload|
    decreases |sizes|
  {
    if sizes == [] then [] else Frame(h, payload[..sizes[0]]) + Frames(h, sizes[1..], payload[sizes[0]..])
  }

  /** Everything the footer covers. */
  function Body(h: Hash, s: Snapshot): Bytes
    requires Sum(s.sizes) == |s.payload|
  {
    s.header + Frames(h, s.sizes, s.payload) + Le32(0)
  }

  function Write(h: Hash, s: Snapshot): Bytes
    requires Sum(s.sizes) == |s.payload|
  {
    Body(h, s) + Digest(h, Body(h, s))
  }

  predicate ValidHeader(header: Bytes) {
    && |header| > |MAGIC| + 4 && header[..|MAGIC|] == MAGIC
    && var size := FromLe32(header[|MAGIC|..|MAGIC| + 4]);
       size <= MAX_FRAME && |header| == |MAGIC| + 4 + size
  }

  predicate ValidSizes(sizes: seq<nat>) {
    forall i :: 0 <= i < |sizes| ==> 0 < sizes[i] <= MAX_FRAME
  }

  predicate Valid(s: Snapshot) {
    ValidHeader(s.header) && ValidSizes(s.sizes) && Sum(s.sizes) == |s.payload| <= MAX_PROOF
  }

  // ----- reading -----

  datatype Chunks = Chunks(sizes: seq<nat>, payload: Bytes, tail: Bytes)

  datatype Next = Bad | End | Data(frame: Bytes)

  /** How many bytes were recognized. */
  function Used(next: Next): nat {
    match next
    case Bad => 0
    case End => 4
    case Data(frame) => 4 + |frame| + 32
  }

  /** What follows a length of `size`. */
  function LookPast(h: Hash, rest: Bytes, total: nat, size: nat): (next: Next)
    requires |rest| >= 4
    ensures Used(next) <= |rest|
  {
    if size == 0 then End
    else if size > MAX_FRAME || total + size > MAX_PROOF || |rest| < 4 + size + 32 then Bad
    else if Digest(h, rest[4..4 + size]) != rest[4 + size..4 + size + 32] then Bad
    else Data(rest[4..4 + size])
  }

  /** What stands at the front: the closing zero length, an intact frame within the limits, or neither. */
  function Look(h: Hash, rest: Bytes, total: nat): (next: Next)
    ensures Used(next) <= |rest|
  {
    if |rest| < 4 then Bad else LookPast(h, rest, total, FromLe32(rest[..4]))
  }

  function Extended(sizes: seq<nat>, payload: Bytes, more: Option<Chunks>): Option<Chunks> {
    if more.None? then None else Some(Chunks(sizes + more.value.sizes, payload + more.value.payload, more.value.tail))
  }

  /** Reads frames up to the closing zero length; `total` payload bytes came before. */
  function ReadFrames(h: Hash, rest: Bytes, total: nat): Option<Chunks>
    decreases |rest|
  {
    match Look(h, rest, total)
    case Bad => None
    case End => Some(Chunks([], [], rest[4..]))
    case Data(frame) => Extended([|frame|], frame, ReadFrames(h, rest[4 + |frame| + 32..], total + |frame|))
  }

  /** How long the header is, if the bytes start with one. */
  function HeaderLength(bytes: Bytes): Option<nat> {
    if |bytes| < |MAGIC| + 4 || bytes[..|MAGIC|] != MAGIC then None
    else
      var size := FromLe32(bytes[|MAGIC|..|MAGIC| + 4]);
      if size == 0 || size > MAX_FRAME || |bytes| < |MAGIC| + 4 + size then None else Some(|MAGIC| + 4 + size)
  }

  function Read(h: Hash, bytes: Bytes): Option<Snapshot> {
    match HeaderLength(bytes)
    case None => None
    case Some(n) =>
      match ReadFrames(h, bytes[n..], 0)
      case None => None
      case Some(c) =>
        if |c.tail| != 32 || |bytes| < 32 || c.tail != Digest(h, bytes[..|bytes| - 32]) then None
        else Some(Snapshot(bytes[..n], c.sizes, c.payload))
  }

  /** Checks the footer in one shot and returns it. */
  function FramedDigest(h: Hash, bytes: Bytes): Option<Bytes> {
    if |bytes| < 32 then None
    else if Digest(h, bytes[..|bytes| - 32]) != bytes[|bytes| - 32..] then None
    else Some(bytes[|bytes| - 32..])
  }

  // ----- pieces of sequences -----

  lemma Parts<T>(a: seq<T>, b: seq<T>, c: seq<T>, d: seq<T>)
    ensures var all := a + b + c + d;
            && all[..|a|] == a && all[|a|..|a| + |b|] == b
            && all[|a| + |b|..|a| + |b| + |c|] == c && all[|a| + |b| + |c|..] == d
  {
  }

  lemma Joined<T>(all: seq<T>, i: nat, j: nat, k: nat)
    requires i <= j <= k <= |all|
    ensures all == all[..i] + all[i..j] + all[j..k] + all[k..]
  {
  }

  lemma Regroup<T>(a: seq<T>, b: seq<T>, c: seq<T>, d: seq<T>)
    ensures (a + b) + c + d == a + (b + c + d)
  {
  }

  lemma Within<T>(all: seq<T>, offset: nat, i: nat, j: nat)
    requires offset + j <= |all| && i <= j
    ensures all[offset..][i..j] == all[offset + i..offset + j] && all[offset..][j..] == all[offset + j..]
  {
  }

  lemma Footed<T>(a: seq<T>, footer: seq<T>)
    requires |footer| == 32
    ensures (a + footer)[..|a + footer| - 32] == a && (a + footer)[|a + footer| - 32..] == footer
  {
  }

  // ----- what was written is read back -----

  predicate Writable(data: Bytes, total: nat) {
    0 < |data| <= MAX_FRAME && total + |data| <= MAX_PROOF
  }

  lemma LookAtFrame(h: Hash, data: Bytes, more: Bytes, total: nat)
    requires Writable(data, total)
    ensures Look(h, Frame(h, data) + more, total) == Data(data)
    ensures (Frame(h, data) + more)[4 + |data| + 32..] == more
  {
    LeOfValue(|data|);
    Parts(Le32(|data|), data, Digest(h, data), more);
  }

  lemma ReadUnfolds(h: Hash, rest: Bytes, total: nat, frame: Bytes, more: Bytes, total': nat)
    requires Look(h, rest, total) == Data(frame) && rest[4 + |frame| + 32..] == more && total' == total + |frame|
    ensures ReadFrames(h, rest, total) == Extended([|frame|], frame, ReadFrames(h, more, total'))
  {
  }

  ghost predicate ReadsAs(h: Hash, rest: Bytes, total: nat, c: Chunks) {
    ReadFrames(h, rest, total) == Some(c)
  }

  lemma ReadPrepended(h: Hash, data: Bytes, size: nat, more: Bytes, total: nat, c: Chunks)
    requires |data| == size && Writable(data, total) && ReadsAs(h, more, total + size, c)
    ensures ReadsAs(h, Frame(h, data) + more, total, Chunks([size] + c.sizes, data + c.payload, c.tail))
  {
    var rest := Frame(h, data) + more;
    LookAtFrame(h, data, more, total);
    ReadUnfolds(h, rest, total, data, more, total + size);
  }

  ghost predicate ReadsBack(h: Hash, sizes: seq<nat>, payload: Bytes, tail: Bytes, total: nat) {
    && Sum(sizes) == |payload|
    && ReadsAs(h, Frames(h, sizes, payload) + Le32(0) + tail, total, Chunks(sizes, payload, tail))
  }

  lemma ReadsBackNone(h: Hash, tail: Bytes, total: nat)
    ensures ReadsBack(h, [], [], tail, total)
  {
    LeOfValue(0);
    Parts([], Le32(0), tail, []);
    assert Le32(0) + tail == [] + Le32(0) + tail;
    assert (Le32(0) + tail)[..4] == Le32(0) && (Le32(0) + tail)[4..] == tail;
  }

  lemma FirstFits(sizes: seq<nat>, payload: Bytes, total: nat)
    requires sizes != [] && ValidSizes(sizes) && Sum(sizes) == |payload| && total + |payload| <= MAX_PROOF
    ensures ValidSizes(sizes[1..]) && Sum(sizes[1..]) == |payload[sizes[0]..]| && Writable(payload[..sizes[0]], total)
    ensures total + sizes[0] + |payload[sizes[0]..]| <= MAX_PROOF
    ensures [sizes[0]] + sizes[1..] == sizes && payload[..sizes[0]] + payload[sizes[0]..] == payload
  {
  }

  lemma ReadsFirst(h: Hash, sizes: seq<nat>, first: Bytes, rest: Bytes, more: Bytes, tail: Bytes, total: nat)
    requires sizes != [] && |first| == sizes[0] && Writable(first, total)
    requires ReadsAs(h, more, total + sizes[0], Chunks(sizes[1..], rest, tail))
    ensures ReadsAs(h, Frame(h, first) + more, total, Chunks(sizes, first + rest, tail))
  {
    assert [sizes[0]] + sizes[1..] == sizes;
    ReadPrepended(h, first, sizes[0], more, total, Chunks(sizes[1..], rest, tail));
  }

  lemma ReadsBackMore(h: Hash, sizes: seq<nat>, payload: Bytes, tail: Bytes, total: nat)
    requires sizes != [] && ValidSizes(sizes) && Sum(sizes) == |payload| && total + |payload| <= MAX_PROOF
    requires ReadsBack(h, sizes[1..], payload[sizes[0]..], tail, total + sizes[0])
    ensures ReadsBack(h, sizes, payload, tail, total)
  {
    var first, rest := payload[..sizes[0]], payload[sizes[0]..];
    var frames := Frames(h, sizes[1..], rest);
    FirstFits(sizes, payload, total);
    ReadsFirst(h, sizes, first, rest, frames + Le32(0) + tail, tail, total);
    Regroup(Frame(h, first), frames, Le32(0), tail);
  }

  lemma {:induction false} FramesReadBack(h: Hash, sizes: seq<nat>, payload: Bytes, tail: Bytes, total: nat)
    requires ValidSizes(sizes) && Sum(sizes) == |payload| && total + |payload| <= MAX_PROOF
    ensures ReadsBack(h, sizes, payload, tail, total)
    decreases |sizes|
  {
    if sizes == [] {
      ReadsBackNone(h, tail, total);
    } else {
      FirstFits(sizes, payload, total);
      FramesReadBack(h, sizes[1..], payload[sizes[0]..], tail, total + sizes[0]);
      ReadsBackMore(h, sizes, payload, tail, total);
    }
  }

  lemma HeaderFound(header: Bytes, more: Bytes)
    requires ValidHeader(header)
    ensures HeaderLength(header + more) == Some(|header|)
  {
    var bytes := header + more;
    assert bytes[..|MAGIC|] == header[..|MAGIC|];
    assert bytes[|MAGIC|..|MAGIC| + 4] == header[|MAGIC|..|MAGIC| + 4];
  }

  lemma WrittenParts(h: Hash, s: Snapshot)
    requires Sum(s.sizes) == |s.payload|
    ensures var rest := Frames(h, s.sizes, s.payload) + Le32(0) + Digest(h, Body(h, s));
            Write(h, s) == s.header + rest && Write(h, s)[..|s.header|] == s.header && Write(h, s)[|s.header|..] == rest
  {
    Regroup(s.header, Frames(h, s.sizes, s.payload), Le32(0), Digest(h, Body(h, s)));
  }

  /** Reading what was written returns it. */
  lemma ReadAfterWrite(h: Hash, s: Snapshot)
    requires Valid(s)
    ensures Read(h, Write(h, s)) == Some(s)
  {
    var footer := Digest(h, Body(h, s));
    WrittenParts(h, s);
    HeaderFound(s.header, Frames(h, s.sizes, s.payload) + Le32(0) + footer);
    FramesReadBack(h, s.sizes, s.payload, footer, 0);
    Footed(Body(h, s), footer);
  }

  // ----- what is accepted was written -----

  ghost predicate Written(h: Hash, rest: Bytes, c: Chunks) {
    ValidSizes(c.sizes) && Sum(c.sizes) == |c.payload| && rest == Frames(h, c.sizes, c.payload) + Le32(0) + c.tail
  }

  lemma FramesCons(h: Hash, data: Bytes, sizes: seq<nat>, payload: Bytes)
    requires Sum(sizes) == |payload|
    ensures Sum([|data|] + sizes) == |data + payload|
    ensures Frames(h, [|data|] + sizes, data + payload) == Frame(h, data) + Frames(h, sizes, payload)
  {
    assert ([|data|] + sizes)[1..] == sizes && (data + payload)[..|data|] == data && (data + payload)[|data|..] == payload;
  }

  /** An accepted frame is the writer's frame of its data. */
  lemma LookIntact(h: Hash, rest: Bytes, total: nat)
    ensures Look(h, rest, total).End? ==> rest[..4] == Le32(0)
    ensures var next := Look(h, rest, total);
            next.Data? ==> Writable(next.frame, total) && rest == Frame(h, next.frame) + rest[4 + |next.frame| + 32..]
  {
    if |rest| >= 4 {
      ValueOfLe(rest[..4]);
      var size := FromLe32(rest[..4]);
      if |rest| >= 4 + size + 32 {
        Joined(rest, 4, 4 + size, 4 + size + 32);
      }
    }
  }

  lemma WrittenCons(h: Hash, data: Bytes, more: Bytes, c: Chunks)
    requires 0 < |data| <= MAX_FRAME && Written(h, more, c)
    ensures Written(h, Frame(h, data) + more, Chunks([|data|] + c.sizes, data + c.payload, c.tail))
  {
    FramesCons(h, data, c.sizes, c.payload);
    Regroup(Frame(h, data), Frames(h, c.sizes, c.payload), Le32(0), c.tail);
  }

  lemma WrittenEnd(h: Hash, rest: Bytes)
    requires |rest| >= 4 && rest[..4] == Le32(0)
    ensures Written(h, rest, Chunks([], [], rest[4..]))
  {
    assert rest == [] + rest[..4] + rest[4..];
  }

  lemma {:induction false} ReadFramesWritten(h: Hash, rest: Bytes, total: nat)
    requires ReadFrames(h, rest, total).Some? && total <= MAX_PROOF
    ensures Written(h, rest, ReadFrames(h, rest, total).value)
    ensures total + |ReadFrames(h, rest, total).value.payload| <= MAX_PROOF
    decreases |rest|
  {
    LookIntact(h, rest, total);
    match Look(h, rest, total)
    case End => WrittenEnd(h, rest);
    case Data(frame) =>
      var more := rest[4 + |frame| + 32..];
      ReadFramesWritten(h, more, total + |frame|);
      WrittenCons(h, frame, more, ReadFrames(h, more, total + |frame|).value);
  }

  lemma HeaderValid(bytes: Bytes)
    requires HeaderLength(bytes).Some?
    ensures HeaderLength(bytes).value <= |bytes| && ValidHeader(bytes[..HeaderLength(bytes).value])
  {
    var header := bytes[..HeaderLength(bytes).value];
    assert header[..|MAGIC|] == bytes[..|MAGIC|];
    assert header[|MAGIC|..|MAGIC| + 4] == bytes[|MAGIC|..|MAGIC| + 4];
  }

  lemma Rebuilt(h: Hash, bytes: Bytes, n: nat, c: Chunks)
    requires n <= |bytes| && Written(h, bytes[n..], c)
    ensures bytes == Body(h, Snapshot(bytes[..n], c.sizes, c.payload)) + c.tail
  {
    Regroup(bytes[..n], Frames(h, c.sizes, c.payload), Le32(0), c.tail);
    assert bytes == bytes[..n] + bytes[n..];
  }

  /** Every accepted byte string is exactly what the writer makes of the parsed snapshot. */
  lemma WriteAfterRead(h: Hash, bytes: Bytes)
    requires Read(h, bytes).Some?
    ensures Valid(Read(h, bytes).value) && Write(h, Read(h, bytes).value) == bytes
  {
    HeaderValid(bytes);
    var n := HeaderLength(bytes).value;
    ReadFramesWritten(h, bytes[n..], 0);
    var c := ReadFrames(h, bytes[n..], 0).value;
    Rebuilt(h, bytes, n, c);
    Footed(Body(h, Snapshot(bytes[..n], c.sizes, c.payload)), c.tail);
  }

  /** An accepted snapshot passes the one-shot digest check, with the footer the reader compared. */
  lemma AcceptedDigestMatches(h: Hash, bytes: Bytes)
    requires Read(h, bytes).Some?
    ensures Valid(Read(h, bytes).value)
    ensures FramedDigest(h, bytes) == Some(Digest(h, Body(h, Read(h, bytes).value)))
  {
    WriteAfterRead(h, bytes);
    var body := Body(h, Read(h, bytes).value);
    Footed(body, Digest(h, body));
  }

  // ----- the reader, byte by byte -----

  method Take(bytes: Bytes, offset: nat, length: nat) returns (part: Option<Bytes>, offset': nat)
    ensures part.Some? <==> offset + length <= |bytes|
    ensures part.Some? ==> part.value == bytes[offset..offset + length] && offset' == offset + length
    ensures part.None? ==> offset' == offset
  {
    if offset + length > |bytes| {
      return None, offset;
    }
    return Some(bytes[offset..offset + length]), offset + length;
  }

  /** Reads one frame, or the closing zero length, off the front. */
  method ReadFrame(h: Hash, rest: Bytes, total: nat) returns (next: Next, offset: nat)
    ensures next == Look(h, rest, total) && offset == Used(next)
  {
    var length;
    length, offset := Take(rest, 0, 4);
    if length.None? {
      return Bad, 0;
    }
    assert rest[0..4] == rest[..4];
    next, offset := ReadData(h, rest, total, FromLe32(length.value));
  }

  method ReadData(h: Hash, rest: Bytes, total: nat, size: nat) returns (next: Next, offset: nat)
    requires |rest| >= 4
    ensures next == LookPast(h, rest, total, size) && offset == Used(next)
  {
    if size == 0 {
      return End, 4;
    }
    if size > MAX_FRAME || total + size > MAX_PROOF {
      return Bad, 0;
    }
    var frame, checksum;
    frame, offset := Take(rest, 4, size);
    if frame.None? {
      return Bad, 0;
    }
    checksum, offset := Take(rest, offset, 32);
    if checksum.None? || Digest(h, frame.value) != checksum.value {
      return Bad, 0;
    }
    return Data(frame.value), offset;
  }

  lemma ExtendedTwice(sizes: seq<nat>, payload: Bytes, frame: Bytes, more: Option<Chunks>)
    ensures Extended(sizes, payload, Extended([|frame|], frame, more)) == Extended(sizes + [|frame|], payload + frame, more)
  {
    if more.Some? {
      assert sizes + ([|frame|] + more.value.sizes) == sizes + [|frame|] + more.value.sizes;
      assert payload + (frame + more.value.payload) == payload + frame + more.value.payload;
    }
  }

  lemma ExtendedEnds(sizes: seq<nat>, payload: Bytes, more: Chunks)
    ensures Extended([], [], Some(more)) == Some(more)
    ensures Extended(sizes, payload, Some(Chunks([], [], more.tail))) == Some(Chunks(sizes, payload, more.tail))
  {
    assert [] + more.sizes == more.sizes && [] + more.payload == more.payload;
    assert sizes + [] == sizes && payload + [] == payload;
  }

  /** What was read so far, and what reading on gives, make up the whole. */
  ghost predicate ReadSoFar(h: Hash, bytes: Bytes, start: nat, offset: nat, sizes: seq<nat>, payload: Bytes) {
    && start <= offset <= |bytes|
    && ReadFrames(h, bytes[start..], 0) == Extended(sizes, payload, ReadFrames(h, bytes[offset..], |payload|))
  }

  lemma ReadNothing(h: Hash, bytes: Bytes, start: nat)
    requires start <= |bytes|
    ensures ReadSoFar(h, bytes, start, start, [], [])
  {
    if ReadFrames(h, bytes[start..], 0).Some? {
      ExtendedEnds([], [], ReadFrames(h, bytes[start..], 0).value);
    }
  }

  lemma ReadStops(h: Hash, bytes: Bytes, start: nat, offset: nat, sizes: seq<nat>, payload: Bytes)
    requires ReadSoFar(h, bytes, start, offset, sizes, payload) && !Look(h, bytes[offset..], |payload|).Data?
    ensures ReadFrames(h, bytes[start..], 0) ==
            if Look(h, bytes[offset..], |payload|).Bad? then None else Some(Chunks(sizes, payload, bytes[offset + 4..]))
  {
    if Look(h, bytes[offset..], |payload|).End? {
      ExtendedEnds(sizes, payload, Chunks([], [], bytes[offset + 4..]));
      Within(bytes, offset, 4, 4);
    }
  }

  lemma ReadGoesOn(h: Hash, bytes: Bytes, start: nat, offset: nat, offset': nat, sizes: seq<nat>, payload: Bytes, frame: Bytes)
    requires ReadSoFar(h, bytes, start, offset, sizes, payload) && Look(h, bytes[offset..], |payload|) == Data(frame)
    requires offset' == offset + (4 + |frame| + 32)
    ensures ReadSoFar(h, bytes, start, offset', sizes + [|frame|], payload + frame)
  {
    Within(bytes, offset, 4 + |frame| + 32, 4 + |frame| + 32);
    ReadUnfolds(h, bytes[offset..], |payload|, frame, bytes[offset'..], |payload + frame|);
    ExtendedTwice(sizes, payload, frame, ReadFrames(h, bytes[offset'..], |payload + frame|));
  }

  lemma FedFurther<T>(bytes: seq<T>, i: nat, j: nat)
    requires i <= j <= |bytes|
    ensures bytes[..i] + bytes[i..j] == bytes[..j]
  {
  }

  /** The frames up to the closing length, with the digest fed along the way: `covered` is what it was fed. */
  method ReadAllFrames(h: Hash, bytes: Bytes, start: nat) returns (r: Option<Chunks>, covered: Bytes, offset: nat)
    requires start <= |bytes|
    ensures r == ReadFrames(h, bytes[start..], 0)
    ensures r.Some? ==> offset <= |bytes| && covered == bytes[..offset] && r.value.tail == bytes[offset..]
  {
    offset, covered := start, bytes[..start];
    var sizes: seq<nat>, payload: Bytes := [], [];
    ReadNothing(h, bytes, start);
    while true
      invariant ReadSoFar(h, bytes, start, offset, sizes, payload) && covered == bytes[..offset]
      decreases |bytes| - offset
    {
      var next, used := ReadFrame(h, bytes[offset..], |payload|);
      var offset' := offset + used;
      FedFurther(bytes, offset, offset');
      covered := covered + bytes[offset..offset'];
      if !next.Data? {
        ReadStops(h, bytes, start, offset, sizes, payload);
        return if next.Bad? then None else Some(Chunks(sizes, payload, bytes[offset'..])), covered, offset';
      }
      ReadGoesOn(h, bytes, start, offset, offset', sizes, payload, next.frame);
      sizes, payload, offset := sizes + [|next.frame|], payload + next.frame, offset';
    }
  }

  method ReadHeader(bytes: Bytes) returns (r: Option<nat>)
    ensures r == HeaderLength(bytes)
  {
    var magic, offset := Take(bytes, 0, |MAGIC|);
    if magic.None? || magic.value != MAGIC {
      return None;
    }
    var length, manifest;
    length, offset := Take(bytes, offset, 4);
    if length.None? {
      return None;
    }
    var size := FromLe32(length.value);
    if size == 0 || size > MAX_FRAME {
      return None;
    }
    manifest, offset := Take(bytes, offset, size);
    r := if manifest.None? then None else Some(offset);
  }

  /** The incremental reader accepts and returns exactly what `Read` describes. */
  method ReadSnapshot(h: Hash, bytes: Bytes) returns (r: Option<Snapshot>)
    ensures r == Read(h, bytes)
  {
    var start := ReadHeader(bytes);
    if start.None? {
      return None;
    }
    var chunks, covered, offset := ReadAllFrames(h, bytes, start.value);
    if chunks.None? {
      return None;
    }
    var footer, end := Take(bytes, offset, 32);
    if footer.None? || end != |bytes| {
      return None;
    }
    assert covered == bytes[..|bytes| - 32];
    if Digest(h, covered) != footer.value {
      return None;
    }
    r := Some(Snapshot(bytes[..start.value], chunks.value.sizes, chunks.value.payload));
  }

  // ----- the writer, byte by byte -----

  /** What is still to be written from the i-th frame on, unless the sizes do not cover the payload. */
  function Remaining(h: Hash, sizes: seq<nat>, i: nat, payload: Bytes, offset: nat): Option<Bytes>
    requires i <= |sizes|
    decreases |sizes| - i
  {
    if i == |sizes| then (if offset == |payload| then Some([]) else None)
    else if offset + sizes[i] > |payload| then None
    else Prepended(Frame(h, payload[offset..offset + sizes[i]]), Remaining(h, sizes, i + 1, payload, offset + sizes[i]))
  }

  function Prepended(front: Bytes, more: Option<Bytes>): Option<Bytes> {
    if more.None? then None else Some(front + more.value)
  }

  lemma PrependedTwice(a: Bytes, b: Bytes, more: Option<Bytes>)
    ensures Prepended(a, Prepended(b, more)) == Prepended(a + b, more)
  {
    if more.Some? {
      assert a + (b + more.value) == (a + b) + more.value;
    }
  }

  lemma FramesRest(h: Hash, sizes: seq<nat>, i: nat, payload: Bytes, offset: nat)
    requires i < |sizes| && offset + sizes[i] <= |payload| && Sum(sizes[i..]) == |payload[offset..]|
    ensures Sum(sizes[i + 1..]) == |payload[offset + sizes[i]..]|
    ensures Frames(h, sizes[i..], payload[offset..]) ==
            Frame(h, payload[offset..offset + sizes[i]]) + Frames(h, sizes[i + 1..], payload[offset + sizes[i]..])
  {
    assert sizes[i..][1..] == sizes[i + 1..];
    Within(payload, offset, 0, sizes[i]);
  }

  /** Something is written exactly when the sizes cover the payload, and then it is the frames. */
  lemma {:induction false} RemainingMeans(h: Hash, sizes: seq<nat>, i: nat, payload: Bytes, offset: nat)
    requires i <= |sizes| && offset <= |payload|
    ensures Remaining(h, sizes, i, payload, offset).Some? <==> offset + Sum(sizes[i..]) == |payload|
    ensures Remaining(h, sizes, i, payload, offset).Some? ==>
              Remaining(h, sizes, i, payload, offset).value == Frames(h, sizes[i..], payload[offset..])
    decreases |sizes| - i
  {
    if i == |sizes| {
      assert sizes[i..] == [];
    } else {
      assert sizes[i..][1..] == sizes[i + 1..];
      if offset + sizes[i] <= |payload| {
        RemainingMeans(h, sizes, i + 1, payload, offset + sizes[i]);
        if offset + Sum(sizes[i..]) == |payload| {
          FramesRest(h, sizes, i, payload, offset);
        }
      }
    }
  }

  /** What is written, and what remains, make up the whole. */
  ghost predicate WrittenSoFar(h: Hash, header: Bytes, sizes: seq<nat>, i: nat, payload: Bytes, offset: nat, text: Bytes) {
    && i <= |sizes|
    && Prepended(header, Remaining(h, sizes, 0, payload, 0)) == Prepended(text, Remaining(h, sizes, i, payload, offset))
  }

  lemma WriteGoesOn(h: Hash, header: Bytes, sizes: seq<nat>, i: nat, payload: Bytes, offset: nat, text: Bytes, frame: Bytes)
    requires i < |sizes| && WrittenSoFar(h, header, sizes, i, payload, offset, text)
    requires offset + sizes[i] <= |payload| && frame == payload[offset..offset + sizes[i]]
    ensures WrittenSoFar(h, header, sizes, i + 1, payload, offset + sizes[i], text + (Le32(sizes[i]) + frame + Digest(h, frame)))
  {
    assert Le32(|frame|) == Le32(sizes[i]);
    PrependedTwice(text, Frame(h, frame), Remaining(h, sizes, i + 1, payload, offset + sizes[i]));
  }

  /** Rewrites the frames; refused when the sizes do not cover the payload. */
  method WriteFrames(h: Hash, header: Bytes, sizes: seq<nat>, payload: Bytes) returns (r: Option<Bytes>)
    ensures r == Prepended(header, Remaining(h, sizes, 0, payload, 0))
  {
    var rewritten, offset := header, 0;
    for i := 0 to |sizes|
      invariant WrittenSoFar(h, header, sizes, i, payload, offset, rewritten)
    {
      var frame, end := Take(payload, offset, sizes[i]);
      if frame.None? {
        return None;
      }
      WriteGoesOn(h, header, sizes, i, payload, offset, rewritten, frame.value);
      rewritten := rewritten + (Le32(sizes[i]) + frame.value + Digest(h, frame.value));
      offset := end;
    }
    if offset != |payload| {
      return None;
    }
    assert rewritten + [] == rewritten;
    return Some(rewritten);
  }

  /** Rewrites a snapshot frame by frame; refused exactly when the sizes do not cover the payload. */
  method WriteSnapshot(h: Hash, header: Bytes, sizes: seq<nat>, payload: Bytes) returns (r: Option<Bytes>)
    ensures r.Some? <==> Sum(sizes) == |payload|
    ensures r.Some? ==> r.value == Write(h, Snapshot(header, sizes, payload))
  {
    r := WriteFrames(h, header, sizes, payload);
    assert sizes[0..] == sizes && payload[0..] == payload;
    RemainingMeans(h, sizes, 0, payload, 0);
    if r.Some? {
      var rewritten := r.value + Le32(0);
      r := Some(rewritten + Digest(h, rewritten));
    }
  }
}
