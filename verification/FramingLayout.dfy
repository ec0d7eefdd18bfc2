/** Where every byte of a snapshot stands. */
module FramingLayout {
  import opened Prelude
  import opened Framing

  const TITLE: string := "graphrun.snapshot/v1"

  /** The number in the four bytes at `o`, least significant first. */
  function Quad(bytes: Bytes, o: nat): nat
    requires o + 4 <= |bytes|
  {
    bytes[o] as int + 256 * bytes[o + 1] as int + 65_536 * bytes[o + 2] as int + 16_777_216 * bytes[o + 3] as int
  }

  /** The title and a zero byte, the length of what follows, and that many bytes. */
  ghost predicate HeaderLaid(bytes: Bytes, n: nat) {
    && 25 < n <= |bytes| && (forall i :: 0 <= i < 20 ==> bytes[i] as int == TITLE[i] as int) && bytes[20] == 0
    && Quad(bytes, 21) == n - 25 <= 1_048_576
  }

  /** Where frame `i` starts, and its part of the payload. */
  ghost function Offset(o: nat, sizes: seq<nat>, i: nat): nat
    requires i <= |sizes|
  {
    o + Sum(sizes[..i]) + 36 * i
  }

  /** The size of `data`, `data` itself, and its digest. */
  ghost predicate Carries(h: Hash, bytes: Bytes, at: nat, data: Bytes) {
    && at + 36 + |data| <= |bytes| && Quad(bytes, at) == |data|
    && bytes[at + 4..at + 4 + |data|] == data && bytes[at + 4 + |data|..at + 36 + |data|] == Digest(h, data)
  }

  /** Frame `i` carries its part of the payload. */
  ghost predicate FrameLaid(h: Hash, bytes: Bytes, o: nat, sizes: seq<nat>, payload: Bytes, i: nat)
    requires i < |sizes|
  {
    var from, size := Sum(sizes[..i]), sizes[i];
    1 <= size <= 1_048_576 && from + size <= |payload| && Carries(h, bytes, Offset(o, sizes, i), payload[from..from + size])
  }

  ghost predicate FramesLaid(h: Hash, bytes: Bytes, o: nat, sizes: seq<nat>, payload: Bytes) {
    forall i: nat :: i < |sizes| ==> FrameLaid(h, bytes, o, sizes, payload, i)
  }

  /** Header, frames, four zero bytes, and the digest of everything before it. */
  ghost predicate Laid(h: Hash, bytes: Bytes, s: Snapshot) {
    var n, end := |s.header|, Offset(|s.header|, s.sizes, |s.sizes|);
    && HeaderLaid(bytes, n) && s.header == bytes[..n]
    && Sum(s.sizes) == |s.payload| <= 16_777_216 && FramesLaid(h, bytes, n, s.sizes, s.payload)
    && |bytes| == end + 36 && bytes[end..end + 4] == [0, 0, 0, 0] && bytes[end + 4..] == Digest(h, bytes[..end + 4])
  }

  // ----- numbers -----

  lemma QuadIs(bytes: Bytes, o: nat)
    requires o + 4 <= |bytes|
    ensures Quad(bytes, o) == FromLe32(bytes[o..o + 4])
  {
    LeParts(bytes[o..o + 4]);
  }

  lemma LeIff(b: Bytes, n: nat)
    requires |b| == 4 && n < TWO_32
    ensures b == Le32(n) <==> FromLe32(b) == n
  {
    LeOfValue(n);
    ValueOfLe(b);
  }

  // ----- headers -----

  lemma HeaderLaidIff(bytes: Bytes, n: nat)
    requires n <= |bytes|
    ensures ValidHeader(bytes[..n]) <==> HeaderLaid(bytes, n)
  {
    var header := bytes[..n];
    if n > 25 {
      assert header[21..25] == bytes[21..25];
      QuadIs(bytes, 21);
      MagicIs(header);
      assert forall i :: 0 <= i < 21 ==> header[i] == bytes[i];
    }
  }

  lemma MagicIs(b: Bytes)
    requires |b| > 25
    ensures b[..21] == MAGIC <==> (forall i :: 0 <= i < 20 ==> b[i] as int == TITLE[i] as int) && b[20] == 0
  {
    assert forall i :: 0 <= i < 20 ==> MAGIC[i] as int == TITLE[i] as int;
    assert forall i :: 0 <= i < 21 ==> b[..21][i] == b[i];
  }

  // ----- frames -----

  lemma {:induction false} SumFront(sizes: seq<nat>, i: nat)
    requires i < |sizes|
    ensures Sum(sizes[..i + 1]) == sizes[0] + Sum(sizes[1..][..i])
  {
    assert sizes[..i + 1][0] == sizes[0] && sizes[..i + 1][1..] == sizes[1..][..i];
  }

  /** A later frame of the whole is a frame of the rest. */
  lemma LaidLater(h: Hash, bytes: Bytes, o: nat, sizes: seq<nat>, payload: Bytes, i: nat)
    requires i + 1 < |sizes| && sizes[0] <= |payload|
    ensures FrameLaid(h, bytes, o, sizes, payload, i + 1) <==>
            FrameLaid(h, bytes, o + 36 + sizes[0], sizes[1..], payload[sizes[0]..], i)
  {
    SumFront(sizes, i);
    var from, size := Sum(sizes[1..][..i]), sizes[1..][i];
    if from + size <= |payload| - sizes[0] {
      assert payload[sizes[0]..][from..from + size] == payload[sizes[0] + from..sizes[0] + from + size];
    }
  }

  lemma Slice<T>(s: seq<T>, o: nat, end: nat, i: nat, j: nat)
    requires i <= j && o + j <= end <= |s|
    ensures s[o..end][i..j] == s[o + i..o + j]
  {
    var a, b := s[o..end][i..j], s[o + i..o + j];
    assert |a| == |b| && forall k :: 0 <= k < |a| ==> a[k] == s[o..end][i + k] == b[k];
  }

  /** A frame in terms of the writer. */
  lemma CarriesIff(h: Hash, bytes: Bytes, at: nat, data: Bytes)
    requires at + 36 + |data| <= |bytes| && |data| < TWO_32
    ensures Carries(h, bytes, at, data) <==> bytes[at..at + 36 + |data|] == Frame(h, data)
  {
    var size := |data|;
    var end := at + 36 + size;
    QuadIs(bytes, at);
    LeIff(bytes[at..at + 4], size);
    Slice(bytes, at, end, 0, 4);
    Slice(bytes, at, end, 4, 4 + size);
    Slice(bytes, at, end, 4 + size, 36 + size);
    FrameIff(bytes[at..end], Le32(size), data, Digest(h, data));
  }

  lemma FirstLaidIff(h: Hash, bytes: Bytes, o: nat, sizes: seq<nat>, payload: Bytes, data: Bytes)
    requires sizes != [] && sizes[0] <= |payload| && data == payload[..sizes[0]] && 1 <= |data| <= 1_048_576
    ensures FrameLaid(h, bytes, o, sizes, payload, 0) <==> Carries(h, bytes, o, data)
  {
    assert sizes[..0] == [] && payload[0..sizes[0]] == payload[..sizes[0]];
  }

  lemma FrameIff<T>(frame: seq<T>, a: seq<T>, b: seq<T>, c: seq<T>)
    requires |frame| == |a| + |b| + |c|
    ensures frame == a + b + c <==> frame[..|a|] == a && frame[|a|..|a| + |b|] == b && frame[|a| + |b|..] == c
  {
    assert frame == frame[..|a|] + frame[|a|..|a| + |b|] + frame[|a| + |b|..];
  }

  ghost predicate Fits(bytes: Bytes, o: nat, sizes: seq<nat>, payload: Bytes) {
    Sum(sizes) == |payload| && ValidSizes(sizes) && o + |payload| + 36 * |sizes| <= |bytes|
  }

  /** What is left after the first frame. */
  ghost predicate Onward(sizes: seq<nat>, payload: Bytes, o: nat, data: Bytes, sizes': seq<nat>, payload': Bytes, o': nat) {
    && sizes != [] && sizes[0] <= |payload| && data == payload[..sizes[0]]
    && sizes' == sizes[1..] && payload' == payload[sizes[0]..] && o' == o + 36 + |data|
  }

  lemma FitsRest(bytes: Bytes, o: nat, sizes: seq<nat>, payload: Bytes) returns (data: Bytes, sizes': seq<nat>, payload': Bytes, o': nat)
    requires sizes != [] && Fits(bytes, o, sizes, payload)
    ensures Onward(sizes, payload, o, data, sizes', payload', o') && Fits(bytes, o', sizes', payload')
    ensures 1 <= |data| <= 1_048_576 && o' <= |bytes| && |sizes'| < |sizes|
  {
    data, sizes', payload', o' := payload[..sizes[0]], sizes[1..], payload[sizes[0]..], o + 36 + sizes[0];
  }

  lemma {:induction false} FramesLength(h: Hash, sizes: seq<nat>, payload: Bytes)
    requires Sum(sizes) == |payload|
    ensures |Frames(h, sizes, payload)| == |payload| + 36 * |sizes|
    decreases |sizes|
  {
    if sizes != [] {
      FramesLength(h, sizes[1..], payload[sizes[0]..]);
    }
  }

  lemma SplitIff<T>(bytes: seq<T>, o: nat, m: nat, end: nat, a: seq<T>, b: seq<T>)
    requires o <= m <= end <= |bytes| && |a| == m - o && |b| == end - m
    ensures bytes[o..end] == a + b <==> bytes[o..m] == a && bytes[m..end] == b
  {
    assert bytes[o..end] == bytes[o..m] + bytes[m..end];
    assert (a + b)[..|a|] == a && (a + b)[|a|..] == b;
  }

  lemma LaidSplits(h: Hash, bytes: Bytes, o: nat, sizes: seq<nat>, payload: Bytes, data: Bytes, sizes': seq<nat>, payload': Bytes, o': nat)
    requires Onward(sizes, payload, o, data, sizes', payload', o')
    ensures FramesLaid(h, bytes, o, sizes, payload) <==>
            FrameLaid(h, bytes, o, sizes, payload, 0) && FramesLaid(h, bytes, o', sizes', payload')
  {
    forall i: nat | i < |sizes'|
      ensures FrameLaid(h, bytes, o', sizes', payload', i) <==> FrameLaid(h, bytes, o, sizes, payload, i + 1)
    {
      LaidLater(h, bytes, o, sizes, payload, i);
    }
    if FramesLaid(h, bytes, o', sizes', payload') && FrameLaid(h, bytes, o, sizes, payload, 0) {
      forall i: nat | i < |sizes|
        ensures FrameLaid(h, bytes, o, sizes, payload, i)
      {
        assert i > 0 ==> FrameLaid(h, bytes, o', sizes', payload', i - 1);
      }
    }
  }

  /** The writer's frames stand at `o`. */
  ghost predicate FramesAt(h: Hash, bytes: Bytes, o: nat, sizes: seq<nat>, payload: Bytes)
    requires Sum(sizes) == |payload| && o + |payload| + 36 * |sizes| <= |bytes|
  {
    bytes[o..o + |payload| + 36 * |sizes|] == Frames(h, sizes, payload)
  }

  lemma FramesSplit(h: Hash, bytes: Bytes, o: nat, data: Bytes, sizes: seq<nat>, payload: Bytes)
    requires |data| < TWO_32 && Fits(bytes, o + 36 + |data|, sizes, payload)
    ensures bytes[o..o + 36 + |data| + |payload| + 36 * |sizes|] == Frame(h, data) + Frames(h, sizes, payload) <==>
            Carries(h, bytes, o, data) && FramesAt(h, bytes, o + 36 + |data|, sizes, payload)
  {
    var first, rest := Frame(h, data), Frames(h, sizes, payload);
    FramesLength(h, sizes, payload);
    SplitIff(bytes, o, o + |first|, o + |first| + |rest|, first, rest);
    CarriesIff(h, bytes, o, data);
  }

  lemma FramesUnfold(h: Hash, bytes: Bytes, o: nat, sizes: seq<nat>, payload: Bytes, data: Bytes, sizes': seq<nat>, payload': Bytes, o': nat)
    requires Onward(sizes, payload, o, data, sizes', payload', o') && |data| < TWO_32
    requires Fits(bytes, o, sizes, payload) && Fits(bytes, o', sizes', payload')
    ensures FramesAt(h, bytes, o, sizes, payload) <==> Carries(h, bytes, o, data) && FramesAt(h, bytes, o', sizes', payload')
  {
    FramesSplit(h, bytes, o, data, sizes', payload');
    assert Frames(h, sizes, payload) == Frame(h, data) + Frames(h, sizes', payload');
    assert o + 36 + |data| + |payload'| + 36 * |sizes'| == o + |payload| + 36 * |sizes|;
  }

  /** The bytes between header and end are what the writer makes exactly if every frame stands where it should. */
  lemma {:induction false} FramesLaidIff(h: Hash, bytes: Bytes, o: nat, sizes: seq<nat>, payload: Bytes)
    requires Fits(bytes, o, sizes, payload)
    ensures FramesLaid(h, bytes, o, sizes, payload) <==> FramesAt(h, bytes, o, sizes, payload)
    decreases |sizes|
  {
    if sizes != [] {
      var data, sizes', payload', o' := FitsRest(bytes, o, sizes, payload);
      FramesLaidIff(h, bytes, o', sizes', payload');
      FramesUnfold(h, bytes, o, sizes, payload, data, sizes', payload', o');
      FirstLaidIff(h, bytes, o, sizes, payload, data);
      LaidSplits(h, bytes, o, sizes, payload, data, sizes', payload', o');
    }
  }

  // ----- snapshots -----

  lemma LaidSizes(h: Hash, bytes: Bytes, o: nat, sizes: seq<nat>, payload: Bytes)
    requires FramesLaid(h, bytes, o, sizes, payload)
    ensures ValidSizes(sizes)
  {
    forall i: nat | i < |sizes|
      ensures 0 < sizes[i] <= MAX_FRAME
    {
      assert FrameLaid(h, bytes, o, sizes, payload, i);
    }
  }

  lemma WholeSum(sizes: seq<nat>)
    ensures sizes[..|sizes|] == sizes
  {
  }

  lemma ZeroLength()
    ensures Le32(0) == [0, 0, 0, 0]
  {
    LeOfValue(0);
    LePlaces(0);
  }

  lemma FourParts<T>(bytes: seq<T>, a: seq<T>, b: seq<T>, c: seq<T>, d: seq<T>)
    requires |bytes| == |a| + |b| + |c| + |d|
    ensures bytes == a + b + c + d <==>
            && bytes[..|a|] == a && bytes[|a|..|a| + |b|] == b
            && bytes[|a| + |b|..|a| + |b| + |c|] == c && bytes[|a| + |b| + |c|..] == d
  {
    Joined(bytes, |a|, |a| + |b|, |a| + |b| + |c|);
    Parts(a, b, c, d);
  }

  lemma WrittenIff(h: Hash, bytes: Bytes, s: Snapshot)
    requires Valid(s) && |bytes| == |s.header| + |s.payload| + 36 * |s.sizes| + 36
    ensures bytes == Write(h, s) <==>
            var end := |s.header| + |s.payload| + 36 * |s.sizes|;
            && bytes[..|s.header|] == s.header && bytes[|s.header|..end] == Frames(h, s.sizes, s.payload)
            && bytes[end..end + 4] == [0, 0, 0, 0] && bytes[end + 4..] == Digest(h, bytes[..end + 4])
  {
    var frames, footer := Frames(h, s.sizes, s.payload), Digest(h, Body(h, s));
    FramesLength(h, s.sizes, s.payload);
    ZeroLength();
    FourParts(bytes, s.header, frames, Le32(0), footer);
    var end := |s.header| + |frames|;
    if bytes[..|s.header|] == s.header && bytes[|s.header|..end] == frames && bytes[end..end + 4] == Le32(0) {
      assert bytes[..end + 4] == bytes[..|s.header|] + bytes[|s.header|..end] + bytes[end..end + 4];
    }
  }

  lemma LaidIsWritten(h: Hash, bytes: Bytes, s: Snapshot)
    requires Laid(h, bytes, s)
    ensures Valid(s) && bytes == Write(h, s)
  {
    WholeSum(s.sizes);
    LaidSizes(h, bytes, |s.header|, s.sizes, s.payload);
    HeaderLaidIff(bytes, |s.header|);
    FramesLaidIff(h, bytes, |s.header|, s.sizes, s.payload);
    WrittenIff(h, bytes, s);
  }

  lemma WrittenIsLaid(h: Hash, bytes: Bytes, s: Snapshot)
    requires Valid(s) && bytes == Write(h, s)
    ensures Laid(h, bytes, s)
  {
    WholeSum(s.sizes);
    FramesLength(h, s.sizes, s.payload);
    WrittenIff(h, bytes, s);
    HeaderLaidIff(bytes, |s.header|);
    FramesLaidIff(h, bytes, |s.header|, s.sizes, s.payload);
  }

  /** The reader accepts exactly the bytes that are laid out so, and returns what they hold. */
  lemma ReadIffLaid(h: Hash, bytes: Bytes, s: Snapshot)
    ensures Read(h, bytes) == Some(s) <==> Laid(h, bytes, s)
  {
    if Read(h, bytes) == Some(s) {
      WriteAfterRead(h, bytes);
      WrittenIsLaid(h, bytes, s);
    }
    if Laid(h, bytes, s) {
      LaidIsWritten(h, bytes, s);
      ReadAfterWrite(h, s);
    }
  }
}
