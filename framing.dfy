/**
 * The bytes the appsink callbacks write to the client for each sample
 * (`on_new_sample`, main.c:444-464, and
 * `on_new_sample_with_timestamp_and_size`, main.c:468-498). In raw mode a
 * sample is its payload; in framed mode it is the 64-bit timestamp, the
 * payload size as a `gsize`, and the payload, both integers in the host's
 * byte order.
 */
module Framing {
  import opened Options

  newtype byte = x: int | 0 <= x < 256

  datatype ByteOrder = LittleEndian | BigEndian

  /** The host's `sizeof(gsize)` and byte order. */
  datatype HostAbi = HostAbi(sizeBytes: nat, order: ByteOrder)

  /** `gsize` is 4 bytes on a 32-bit host and 8 on a 64-bit one. */
  predicate ValidAbi(abi: HostAbi) {
    abi.sizeBytes == 4 || abi.sizeBytes == 8
  }

  /** The width of the timestamp field: `sizeof(guint64)`. */
  const TimestampBytes: nat := 8

  /** How the sink's samples are delivered; fixed when the pipeline is built. */
  datatype Mode = Raw | Framed

  /** The callback `start_stream` connects (main.c:276-283): framed exactly when do_timestamp is non-zero. */
  function ModeOf(doTimestamp: int): (m: Mode)
    ensures m == Framed <==> doTimestamp != 0
  {
    if doTimestamp != 0 then Framed else Raw
  }

  /** A sample: its presentation timestamp and its mapped bytes. */
  datatype Frame = Frame(timestamp: nat, payload: seq<byte>)

  function Pow256(n: nat): (p: nat)
    ensures p >= 1
  {
    if n == 0 then 1 else 256 * Pow256(n - 1)
  }

  /** `v` as `n` bytes, least significant first. */
  function LittleEndianBytes(v: nat, n: nat): (r: seq<byte>)
    requires v < Pow256(n)
    ensures |r| == n
  {
    if n == 0 then []
    else
      DivisionBound(v, Pow256(n - 1));
      [(v % 256) as byte] + LittleEndianBytes(v / 256, n - 1)
  }

  /** The number `bs` holds, least significant byte first. */
  function LittleEndianValue(bs: seq<byte>): (v: nat)
    ensures v < Pow256(|bs|)
  {
    if bs == [] then 0 else bs[0] as nat + 256 * LittleEndianValue(bs[1..])
  }

  lemma DivisionBound(v: nat, p: nat)
    requires v < 256 * p
    ensures v / 256 < p
  {
  }

  /** Reading back the bytes of a number gives the number. */
  lemma {:induction false} LittleEndianValueOfBytes(v: nat, n: nat)
    requires v < Pow256(n)
    ensures LittleEndianValue(LittleEndianBytes(v, n)) == v
  {
    if n > 0 {
      DivisionBound(v, Pow256(n - 1));
      var r := LittleEndianBytes(v, n);
      assert r[1..] == LittleEndianBytes(v / 256, n - 1);
      LittleEndianValueOfBytes(v / 256, n - 1);
    }
  }

  /** Writing out the number some bytes hold gives those bytes back. */
  lemma {:induction false} LittleEndianBytesOfValue(bs: seq<byte>)
    ensures LittleEndianBytes(LittleEndianValue(bs), |bs|) == bs
  {
    if bs != [] {
      var v := LittleEndianValue(bs);
      var w := LittleEndianValue(bs[1..]);
      assert v % 256 == bs[0] as nat && v / 256 == w;
      LittleEndianBytesOfValue(bs[1..]);
    }
  }

  function Reverse<T>(s: seq<T>): (r: seq<T>)
    ensures |r| == |s|
    ensures forall i | 0 <= i < |s| :: r[i] == s[|s| - 1 - i]
  {
    if s == [] then [] else Reverse(s[1..]) + [s[0]]
  }

  lemma ReverseReverse<T>(s: seq<T>)
    ensures Reverse(Reverse(s)) == s
  {
    assert forall i | 0 <= i < |s| :: Reverse(Reverse(s))[i] == s[i];
  }

  /** How `mg_write(conn, &x, n)` lays out an `n`-byte integer `x` on the host. */
  function HostBytes(v: nat, n: nat, order: ByteOrder): (r: seq<byte>)
    requires v < Pow256(n)
    ensures |r| == n
  {
    match order
    case LittleEndian => LittleEndianBytes(v, n)
    case BigEndian => Reverse(LittleEndianBytes(v, n))
  }

  /** The integer a reader on the same host finds in `bs`. */
  function HostValue(bs: seq<byte>, order: ByteOrder): (v: nat)
    ensures v < Pow256(|bs|)
  {
    match order
    case LittleEndian => LittleEndianValue(bs)
    case BigEndian => LittleEndianValue(Reverse(bs))
  }

  lemma HostValueOfBytes(v: nat, n: nat, order: ByteOrder)
    requires v < Pow256(n)
    ensures HostValue(HostBytes(v, n, order), order) == v
  {
    LittleEndianValueOfBytes(v, n);
    ReverseReverse(LittleEndianBytes(v, n));
  }

  /**
   * A frame whose timestamp and size fit their fields. The C types
   * (`guint64`, `gsize`) make this hold for every real sample; a frame that
   * does not fit is written truncated to the field's width.
   */
  predicate Fits(f: Frame, abi: HostAbi) {
    f.timestamp < Pow256(TimestampBytes) && |f.payload| < Pow256(abi.sizeBytes)
  }

  predicate AllFit(fs: seq<Frame>, abi: HostAbi) {
    forall i | 0 <= i < |fs| :: Fits(fs[i], abi)
  }

  /**
   * What one callback writes. Raw: the payload alone (main.c:456). Framed:
   * the timestamp, then the payload size, then the payload (main.c:486-491).
   */
  function Record(mode: Mode, f: Frame, abi: HostAbi): (r: seq<byte>)
    ensures mode == Raw ==> r == f.payload
    ensures mode == Framed ==> |r| == TimestampBytes + abi.sizeBytes + |f.payload|
    ensures mode == Framed ==> r[TimestampBytes + abi.sizeBytes..] == f.payload
  {
    match mode
    case Raw => f.payload
    case Framed =>
      HostBytes(f.timestamp % Pow256(TimestampBytes), TimestampBytes, abi.order)
        + HostBytes(|f.payload| % Pow256(abi.sizeBytes), abi.sizeBytes, abi.order)
        + f.payload
  }

  /** The bytes a client receives for a run of samples. */
  function Records(mode: Mode, fs: seq<Frame>, abi: HostAbi): seq<byte>
  {
    if fs == [] then [] else Record(mode, fs[0], abi) + Records(mode, fs[1..], abi)
  }

  /**
   * A client's reading of a framed stream: a timestamp, a size, that many
   * payload bytes, and so on to the end. Fails when the bytes stop inside
   * a record.
   */
  function ParseFramed(bs: seq<byte>, abi: HostAbi): (r: Option<seq<Frame>>)
    requires ValidAbi(abi)
    decreases |bs|
  {
    var header := TimestampBytes + abi.sizeBytes;
    if bs == [] then Some([])
    else if |bs| < header then None
    else
      var n := HostValue(bs[TimestampBytes..header], abi.order);
      if |bs| < header + n then None
      else
        var f := Frame(HostValue(bs[..TimestampBytes], abi.order), bs[header..header + n]);
        match ParseFramed(bs[header + n..], abi)
        case None => None
        case Some(fs) => Some([f] + fs)
  }

  lemma SmallModulo(v: nat, p: nat)
    requires v < p
    ensures v % p == v
  {
  }

  /** Where the fields of a framed record sit in a stream that begins with it. */
  lemma RecordFields(f: Frame, abi: HostAbi, rest: seq<byte>)
    requires ValidAbi(abi) && Fits(f, abi)
    ensures var bs, header := Record(Framed, f, abi) + rest, TimestampBytes + abi.sizeBytes;
      |bs| >= header + |f.payload| &&
      HostValue(bs[..TimestampBytes], abi.order) == f.timestamp &&
      HostValue(bs[TimestampBytes..header], abi.order) == |f.payload| &&
      bs[header..header + |f.payload|] == f.payload &&
      bs[header + |f.payload|..] == rest
  {
    var header := TimestampBytes + abi.sizeBytes;
    var ts := HostBytes(f.timestamp, TimestampBytes, abi.order);
    var sz := HostBytes(|f.payload|, abi.sizeBytes, abi.order);
    var bs := Record(Framed, f, abi) + rest;
    SmallModulo(f.timestamp, Pow256(TimestampBytes));
    SmallModulo(|f.payload|, Pow256(abi.sizeBytes));
    assert bs == ts + sz + f.payload + rest;
    assert bs[..TimestampBytes] == ts;
    assert bs[TimestampBytes..header] == sz;
    HostValueOfBytes(f.timestamp, TimestampBytes, abi.order);
    HostValueOfBytes(|f.payload|, abi.sizeBytes, abi.order);
    assert bs[header..header + |f.payload|] == f.payload;
    assert bs[header + |f.payload|..] == rest;
  }

  /** A framed stream splits back into exactly the samples written, in order. */
  lemma {:induction false} ParseFramedRecords(fs: seq<Frame>, abi: HostAbi)
    requires ValidAbi(abi)
    requires AllFit(fs, abi)
    ensures ParseFramed(Records(Framed, fs, abi), abi) == Some(fs)
  {
    if fs != [] {
      var rest := Records(Framed, fs[1..], abi);
      assert Records(Framed, fs, abi) == Record(Framed, fs[0], abi) + rest;
      ParseFramedCons(fs[0], abi, rest);
      ParseFramedRecords(fs[1..], abi);
      assert [fs[0]] + fs[1..] == fs;
    }
  }

  /** Parsing a stream that begins with a framed record yields that frame, then whatever the rest yields. */
  lemma ParseFramedCons(f: Frame, abi: HostAbi, rest: seq<byte>)
    requires ValidAbi(abi) && Fits(f, abi)
    ensures ParseFramed(Record(Framed, f, abi) + rest, abi) ==
      match ParseFramed(rest, abi)
      case None => None
      case Some(gs) => Some([f] + gs)
  {
    RecordFields(f, abi, rest);
  }

  /** Distinct runs of samples give distinct framed streams. */
  lemma FramedRecordsInjective(fs: seq<Frame>, gs: seq<Frame>, abi: HostAbi)
    requires ValidAbi(abi)
    requires AllFit(fs, abi)
    requires AllFit(gs, abi)
    requires Records(Framed, fs, abi) == Records(Framed, gs, abi)
    ensures fs == gs
  {
    ParseFramedRecords(fs, abi);
    ParseFramedRecords(gs, abi);
  }

  /** The payloads of a run of samples, one after another. */
  function Payloads(fs: seq<Frame>): seq<byte> {
    if fs == [] then [] else fs[0].payload + Payloads(fs[1..])
  }

  /** Raw delivery writes the payloads one after another and nothing else. */
  lemma {:induction false} RawRecordsArePayloads(fs: seq<Frame>, abi: HostAbi)
    ensures Records(Raw, fs, abi) == Payloads(fs)
  {
    if fs != [] {
      RawRecordsArePayloads(fs[1..], abi);
    }
  }

  /**
   * Raw delivery keeps no sample boundaries: one sample of two bytes and two
   * samples of one byte reach the client as the same bytes, while framed
   * delivery tells them apart.
   */
  lemma RawLosesBoundaries(abi: HostAbi, one: seq<Frame>, two: seq<Frame>)
    requires ValidAbi(abi)
    requires one == [Frame(0, [1, 2])] && two == [Frame(0, [1]), Frame(0, [2])]
    ensures Records(Raw, one, abi) == Records(Raw, two, abi)
    ensures Records(Framed, one, abi) != Records(Framed, two, abi)
  {
    assert Pow256(1) == 256;
    assert AllFit(one, abi) && AllFit(two, abi);
    RawRecordsArePayloads(one, abi);
    RawRecordsArePayloads(two, abi);
    assert two[1..] == [two[1]] && [two[1]][1..] == [] && one[1..] == [];
    assert Payloads(two) == [1] + [2] && Payloads(one) == [1, 2];
    if Records(Framed, one, abi) == Records(Framed, two, abi) {
      FramedRecordsInjective(one, two, abi);
    }
  }
}
