/**
 Task directives on the directive channel and the skip sentinel digest.

 The varint codec of heights and the codec of the application's task payload
 are parameters: all that is used of either is that it round-trips on a prefix, at the
 values a directive carries.
 */
module Wire {
  import opened Common

  type Byte = b: int | 0 <= b < 256

  /** SHA-256 as an ideal hash: a digest is identified with what was hashed. */
  datatype Digest = Sha256(preimage: seq<Byte>)

  const TAG_ANNOUNCE: Byte := 0
  const TAG_SKIP: Byte := 1
  const TAG_TIP_REPORT: Byte := 2

  datatype TaskDirective<T> =
    | Announce(height: nat, task: T)
    | Skip(height: nat)
    | TipReport(height: nat)

  datatype Error = InvalidEnum(tag: Byte) | EndOfBuffer | Malformed

  /** A value read off the front of a buffer, with the bytes left over. */
  datatype ReadResult<T> = Ok(value: T, rest: seq<Byte>) | Err(error: Error)

  datatype Codec<!T> = Codec(
    write: T -> seq<Byte>,
    read: seq<Byte> -> ReadResult<T>,
    size: T -> nat
  )

  /** The size of v is exact, and reading v as written, before any bytes, gives it back and leaves those bytes. */
  ghost predicate RoundTripsAt<T>(c: Codec<T>, v: T)
  {
    && |c.write(v)| == c.size(v)
    && forall rest: seq<Byte> :: c.read(c.write(v) + rest) == Ok(v, rest)
  }

  /** The codecs round-trip on the parts of the directive. */
  ghost predicate PartsRoundTrip<T>(d: TaskDirective<T>, heights: Codec<nat>, tasks: Codec<T>)
  {
    RoundTripsAt(heights, d.height) && (d.Announce? ==> RoundTripsAt(tasks, d.task))
  }

  function Write<T>(d: TaskDirective<T>, heights: Codec<nat>, tasks: Codec<T>): seq<Byte>
  {
    match d
    case Announce(h, task) => [TAG_ANNOUNCE] + heights.write(h) + tasks.write(task)
    case Skip(h) => [TAG_SKIP] + heights.write(h)
    case TipReport(h) => [TAG_TIP_REPORT] + heights.write(h)
  }

  /** The height is read before the tag is looked at, so a bad height wins over a bad tag. */
  function Read<T>(buf: seq<Byte>, heights: Codec<nat>, tasks: Codec<T>): ReadResult<TaskDirective<T>>
  {
    if buf == [] then Err(EndOfBuffer) else
    match heights.read(buf[1..])
    case Err(e) => Err(e)
    case Ok(h, rest) =>
      if buf[0] == TAG_ANNOUNCE then
        match tasks.read(rest)
        case Err(e) => Err(e)
        case Ok(task, rest') => Ok(Announce(h, task), rest')
      else if buf[0] == TAG_SKIP then Ok(Skip(h), rest)
      else if buf[0] == TAG_TIP_REPORT then Ok(TipReport(h), rest)
      else Err(InvalidEnum(buf[0]))
  }

  function EncodeSize<T>(d: TaskDirective<T>, heights: Codec<nat>, tasks: Codec<T>): nat
  {
    var tagAndHeight := 1 + heights.size(d.height);
    match d
    case Announce(_, task) => tagAndHeight + tasks.size(task)
    case Skip(_) => tagAndHeight
    case TipReport(_) => tagAndHeight
  }

  /** A written directive followed by any bytes reads back as itself and those bytes; the size is exact. */
  lemma DirectiveRoundTrip<T>(d: TaskDirective<T>, rest: seq<Byte>, heights: Codec<nat>, tasks: Codec<T>)
    requires PartsRoundTrip(d, heights, tasks)
    ensures Read(Write(d, heights, tasks) + rest, heights, tasks) == Ok(d, rest)
    ensures |Write(d, heights, tasks)| == EncodeSize(d, heights, tasks)
  {
    var w := Write(d, heights, tasks);
    assert heights.read(heights.write(d.height) + rest) == Ok(d.height, rest);
    match d {
      case Announce(h, task) =>
        var tail := tasks.write(task) + rest;
        assert (w + rest)[1..] == heights.write(h) + tail;
        assert heights.read(heights.write(h) + tail) == Ok(h, tail);
        assert tasks.read(tail) == Ok(task, rest);
      case Skip(h) =>
        assert (w + rest)[1..] == heights.write(h) + rest;
      case TipReport(h) =>
        assert (w + rest)[1..] == heights.write(h) + rest;
    }
  }

  /** Written directives are prefix-free: a stream of them splits in one way only. */
  lemma DirectivesPrefixFree<T>(a: TaskDirective<T>, b: TaskDirective<T>, x: seq<Byte>, y: seq<Byte>,
                                heights: Codec<nat>, tasks: Codec<T>)
    requires PartsRoundTrip(a, heights, tasks) && PartsRoundTrip(b, heights, tasks)
    requires Write(a, heights, tasks) + x == Write(b, heights, tasks) + y
    ensures a == b && x == y
  {
    DirectiveRoundTrip(a, x, heights, tasks);
    DirectiveRoundTrip(b, y, heights, tasks);
  }

  /** The bytes of each directive, part by part. */
  lemma WireFormat<T>(h: nat, task: T, heights: Codec<nat>, tasks: Codec<T>)
    ensures Write(Announce(h, task), heights, tasks) == [0] + heights.write(h) + tasks.write(task)
    ensures Write(TaskDirective<T>.Skip(h), heights, tasks) == [1] + heights.write(h)
    ensures Write(TaskDirective<T>.TipReport(h), heights, tasks) == [2] + heights.write(h)
  {
  }

  /** A tag outside the three known ones is refused, once the height has been read. */
  lemma UnknownTagRefused<T>(tag: Byte, h: nat, rest: seq<Byte>, heights: Codec<nat>, tasks: Codec<T>)
    requires RoundTripsAt(heights, h)
    requires tag > 2
    ensures Read([tag] + heights.write(h) + rest, heights, tasks) == Err(InvalidEnum(tag))
  {
    var buf := [tag] + heights.write(h) + rest;
    assert buf[1..] == heights.write(h) + rest;
    assert heights.read(heights.write(h) + rest) == Ok(h, rest);
  }

  /** A whole message is one directive and nothing more; None is a malformed message. */
  function Decode<T>(message: seq<Byte>, heights: Codec<nat>, tasks: Codec<T>): Option<TaskDirective<T>>
  {
    match Read(message, heights, tasks)
    case Ok(d, rest) => if rest == [] then Some(d) else None
    case Err(_) => None
  }

  lemma DecodeWritten<T>(d: TaskDirective<T>, heights: Codec<nat>, tasks: Codec<T>)
    requires PartsRoundTrip(d, heights, tasks)
    ensures Decode(Write(d, heights, tasks), heights, tasks) == Some(d)
  {
    DirectiveRoundTrip(d, [], heights, tasks);
    assert Write(d, heights, tasks) + [] == Write(d, heights, tasks);
  }

  /** A byte buffer written at the end and read from the front. */
  class Buffer {
    var bytes: seq<Byte>

    constructor (bytes: seq<Byte>)
      ensures this.bytes == bytes
    {
      this.bytes := bytes;
    }

    method Put(more: seq<Byte>)
      modifies this
      ensures bytes == old(bytes) + more
    {
      bytes := bytes + more;
    }
  }

  method WriteTo<T>(d: TaskDirective<T>, buf: Buffer, heights: Codec<nat>, tasks: Codec<T>)
    modifies buf
    ensures buf.bytes == old(buf.bytes) + Write(d, heights, tasks)
  {
    match d {
      case Announce(height, task) =>
        buf.Put([TAG_ANNOUNCE]);
        buf.Put(heights.write(height));
        buf.Put(tasks.write(task));
      case Skip(height) =>
        buf.Put([TAG_SKIP]);
        buf.Put(heights.write(height));
      case TipReport(height) =>
        buf.Put([TAG_TIP_REPORT]);
        buf.Put(heights.write(height));
    }
  }

  /** Consumes one directive; on an error what is left in the buffer is not specified. */
  method ReadFrom<T>(buf: Buffer, heights: Codec<nat>, tasks: Codec<T>) returns (result: ReadResult<TaskDirective<T>>)
    modifies buf
    ensures result == Read(old(buf.bytes), heights, tasks)
    ensures result.Ok? ==> buf.bytes == result.rest
  {
    if buf.bytes == [] {
      return Err(EndOfBuffer);
    }
    var tag := buf.bytes[0];
    buf.bytes := buf.bytes[1..];
    var height := heights.read(buf.bytes);
    if height.Err? {
      return Err(height.error);
    }
    buf.bytes := height.rest;
    if tag == TAG_ANNOUNCE {
      var task := tasks.read(buf.bytes);
      if task.Err? {
        return Err(task.error);
      }
      buf.bytes := task.rest;
      return Ok(Announce(height.value, task.value), buf.bytes);
    } else if tag == TAG_SKIP {
      return Ok(Skip(height.value), buf.bytes);
    } else if tag == TAG_TIP_REPORT {
      return Ok(TipReport(height.value), buf.bytes);
    }
    return Err(InvalidEnum(tag));
  }

  // ---- skip digest ----

  const U64_BOUND: nat := 0x1_0000_0000_0000_0000

  /** "_SKIP_V1" in ASCII. */
  const SKIP_DIGEST_SUFFIX: seq<Byte> := [95, 83, 75, 73, 80, 95, 86, 49]

  /** h in k big-endian bytes (the low 8k bits of h). */
  function BigEndian(h: nat, k: nat): (bytes: seq<Byte>)
    ensures |bytes| == k
  {
    if k == 0 then [] else BigEndian(h / 256, k - 1) + [h % 256]
  }

  function FromBigEndian(bytes: seq<Byte>): nat
  {
    if bytes == [] then 0
    else FromBigEndian(bytes[..|bytes| - 1]) * 256 + bytes[|bytes| - 1]
  }

  function Pow256(k: nat): (p: nat)
    ensures p >= 1
  {
    if k == 0 then 1 else 256 * Pow256(k - 1)
  }

  lemma {:induction false} BigEndianRoundTrip(h: nat, k: nat)
    requires h < Pow256(k)
    ensures FromBigEndian(BigEndian(h, k)) == h
  {
    if k > 0 {
      BigEndianRoundTrip(h / 256, k - 1);
      assert BigEndian(h, k)[..k - 1] == BigEndian(h / 256, k - 1);
    }
  }

  lemma U64FitsEightBytes()
    ensures Pow256(8) == U64_BOUND
  {
    assert Pow256(4) == 0x1_0000_0000;
    assert Pow256(5) == 256 * Pow256(4);
    assert Pow256(6) == 256 * Pow256(5);
    assert Pow256(7) == 256 * Pow256(6);
    assert Pow256(8) == 256 * Pow256(7);
  }

  /** The bytes fed to the hasher: namespace, then suffix, then the height in big-endian order. */
  function SkipPreimage(namespace: seq<Byte>, height: nat): seq<Byte>
  {
    namespace + SKIP_DIGEST_SUFFIX + BigEndian(height, 8)
  }

  /** Byte i counts the 256^(k-1-i): the most significant byte comes first. */
  lemma {:induction false} BigEndianByte(h: nat, k: nat, i: nat)
    requires i < k
    ensures BigEndian(h, k)[i] == (h / Pow256(k - 1 - i)) % 256
  {
    if i < k - 1 {
      BigEndianByte(h / 256, k - 1, i);
      DivDiv(h, Pow256(k - 2 - i));
      assert Pow256(k - 1 - i) == 256 * Pow256(k - 2 - i);
    }
  }

  lemma DivDiv(h: nat, p: nat)
    requires p >= 1
    ensures h / 256 / p == h / (256 * p)
  {
    var q, rest := h / 256 / p, (h / 256) % p;
    var low := h % 256;
    assert h / 256 == q * p + rest;
    assert h == 256 * (q * p + rest) + low;
    assert h == (256 * p) * q + (256 * rest + low) by {
      assert 256 * (q * p + rest) == (256 * p) * q + 256 * rest;
    }
    QuotientIs(h, 256 * p, q, 256 * rest + low);
  }

  lemma QuotientIs(x: nat, d: nat, q: nat, rest: nat)
    requires d >= 1 && x == d * q + rest && rest < d
    ensures x / d == q
  {
    var e := x / d - q;
    assert x == d * (x / d) + x % d;
    assert d * e == rest - x % d by {
      assert d * (x / d) - d * q == d * (x / d - q);
    }
    MultipleIsFar(d, e);
  }

  lemma MultipleIsFar(d: int, e: int)
    requires d >= 1
    ensures e >= 1 ==> d * e >= d
    ensures e <= -1 ==> d * e <= -d
  {
  }

  /** The layout of what is hashed, part by part. */
  lemma SkipPreimageLayout(namespace: seq<Byte>, height: nat)
    ensures var p, n := SkipPreimage(namespace, height), |namespace|;
            && |p| == n + 16
            && p[..n] == namespace
            && p[n..n + 8] == SKIP_DIGEST_SUFFIX
            && var last := p[n + 8..]; forall i :: 0 <= i < 8 ==> last[i] == (height / Pow256(7 - i)) % 256
  {
    forall i | 0 <= i < 8 ensures BigEndian(height, 8)[i] == (height / Pow256(7 - i)) % 256 {
      BigEndianByte(height, 8, i);
    }
  }

  function SkipDigest(namespace: seq<Byte>, height: nat): Digest
  {
    Sha256(SkipPreimage(namespace, height))
  }

  /** Feeds the hasher step by step. */
  method ComputeSkipDigest(namespace: seq<Byte>, height: nat) returns (digest: Digest)
    ensures digest == SkipDigest(namespace, height)
  {
    var hasher := new Buffer([]);
    hasher.Put(namespace);
    hasher.Put(SKIP_DIGEST_SUFFIX);
    hasher.Put(BigEndian(height, 8));
    digest := Sha256(hasher.bytes);
  }

  /**
   Skip certificates are replayable neither across heights nor across applications: for
   64-bit heights the preimage determines both the namespace and the height, even though
   the namespace is a variable-length prefix.
   */
  lemma SkipDigestInjective(n1: seq<Byte>, h1: nat, n2: seq<Byte>, h2: nat)
    requires h1 < U64_BOUND && h2 < U64_BOUND
    ensures SkipDigest(n1, h1) == SkipDigest(n2, h2) <==> n1 == n2 && h1 == h2
  {
    if SkipDigest(n1, h1) == SkipDigest(n2, h2) {
      var p, q := SkipPreimage(n1, h1), SkipPreimage(n2, h2);
      assert |p| == |n1| + 16 && |q| == |n2| + 16;
      assert n1 == p[..|n1|] && n2 == q[..|n2|];
      assert BigEndian(h1, 8) == p[|n1| + 8..] && BigEndian(h2, 8) == q[|n2| + 8..];
      U64FitsEightBytes();
      BigEndianRoundTrip(h1, 8);
      BigEndianRoundTrip(h2, 8);
    }
  }
}
