/** Messages on the wire: the checksum of src/source/hash.h, the short-count loops of
    src/source/readn_writen.c, and the header and body of src/source/net_msg.c. */
module Messages {
  import opened Basics
  import opened Databufs
  import opened Framing

  const UINT64_MAX: int := 0xFFFF_FFFF_FFFF_FFFF
  type U64 = n: int | 0 <= n <= 0xFFFF_FFFF_FFFF_FFFF
  type U32 = n: int | 0 <= n <= 0xFFFF_FFFF

  // ---------------------------------------------------------------- checksum

  /** One byte of the hash.  Every intermediate value is a U64, so nothing wraps. */
  function HashStep(hash: U64, c: Byte): U64 {
    var spread: U64 := if UINT64_MAX / 33 < hash then UINT64_MAX % hash else hash * 32 + hash;
    var diff: U64 := UINT64_MAX - spread;
    var base: U64 := if UINT64_MAX - spread < c then diff else spread;
    base + c
  }

  function HashFrom(data: Bytes, i: nat, hash: U64): U64
    requires i <= |data|
    decreases |data| - i
  {
    if i == |data| then hash else HashFrom(data, i + 1, HashStep(hash, data[i]))
  }

  function Hash(data: Bytes): U64 {
    HashFrom(data, 0, 5381)
  }

  /** Where 33 * hash + c fits in 64 bits the step is the classic one; where only
      the sum does not fit, the distance to UINT64_MAX takes the product's place;
      where the product does not, the remainder of UINT64_MAX does, and then the sum
      always fits. */
  lemma HashStepMeaning(hash: U64, c: Byte)
    ensures 33 * hash + c <= UINT64_MAX ==> HashStep(hash, c) == 33 * hash + c
    ensures 33 * hash <= UINT64_MAX < 33 * hash + c ==> HashStep(hash, c) == UINT64_MAX - 33 * hash + c < 510
    ensures 33 * hash > UINT64_MAX ==> HashStep(hash, c) == UINT64_MAX % hash + c
  {
    if 33 * hash > UINT64_MAX {
      RemainderSmall(UINT64_MAX, hash);
    }
  }

  lemma {:induction false} HashFromMore(data: Bytes, c: Byte, i: nat, hash: U64)
    requires i <= |data|
    ensures HashFrom(data + [c], i, hash) == HashStep(HashFrom(data, i, hash), c)
    decreases |data| - i
  {
    var more := data + [c];
    if i < |data| {
      assert more[i] == data[i];
      HashFromMore(data, c, i + 1, HashStep(hash, data[i]));
    } else {
      assert more[i] == c;
      assert HashFrom(more, i + 1, HashStep(hash, c)) == HashStep(hash, c);
    }
  }

  /** The hash of the whole of the data, whatever bytes are in it: 5381 for none, and
      every further byte c turns a hash h into 33 * h + c where that fits in 64 bits.
      Where only the sum does not fit, the distance of 33 * h to UINT64_MAX takes the
      product's place; where the product does not, the remainder of UINT64_MAX by h. */
  lemma HashOfMore(data: Bytes, c: Byte)
    ensures Hash([]) == 5381
    ensures var h, more := Hash(data), Hash(data + [c]);
            && (33 * h + c <= UINT64_MAX ==> more == 33 * h + c)
            && (33 * h <= UINT64_MAX < 33 * h + c ==> more == UINT64_MAX - 33 * h + c)
            && (33 * h > UINT64_MAX ==> more == UINT64_MAX % h + c)
  {
    HashFromMore(data, c, 0, 5381);
    HashStepMeaning(Hash(data), c);
  }

  /** So two messages that differ in their last byte, be it behind zero bytes, have
      different checksums as long as the hash of what comes before is not near the
      end of the 64 bits. */
  lemma LastByteMatters(data: Bytes, c: Byte, d: Byte)
    requires c != d && 33 * Hash(data) + 255 <= UINT64_MAX
    ensures Hash(data + [c]) != Hash(data + [d])
  {
    HashOfMore(data, c);
    HashOfMore(data, d);
  }

  /** What is left of n is less than half of n. */
  lemma RemainderSmall(n: int, d: int)
    requires 0 < d <= n
    ensures 0 <= n % d && 2 * (n % d) < n + 1
  {
    var q := n / d;
    assert n == q * d + n % d && q >= 1;
    assert q * d >= d by {
      assert (q - 1) * d >= 0;
    }
  }

  method HashBytes(data: Bytes) returns (hash: U64)
    ensures hash == Hash(data)
  {
    hash := 5381;
    var i := 0;
    while i < |data|
      invariant 0 <= i <= |data| && HashFrom(data, i, hash) == Hash(data)
    {
      ghost var before := hash;
      var newchar := data[i];
      if UINT64_MAX / 33 < hash {
        hash := UINT64_MAX % hash;
      } else {
        hash := hash * 32 + hash;
      }
      var diff: U64 := UINT64_MAX - hash;
      if UINT64_MAX - hash < newchar { hash := diff; }
      hash := hash + newchar;
      assert hash == HashStep(before, newchar);
      i := i + 1;
    }
  }

  // -------------------------------------------------- a stream of short counts

  /** A connection.  Each call moves at least one byte of what it could and at most
      as many as asked for; how many is up to the kernel. */
  class Channel {
    var bytes: Bytes

    constructor ()
      ensures bytes == []
    {
      bytes := [];
    }

    method SysWrite(data: Bytes) returns (n: nat)
      requires |data| > 0
      modifies this
      ensures 1 <= n <= |data| && bytes == old(bytes) + data[..n]
    {
      n :| 1 <= n <= |data|;
      bytes := bytes + data[..n];
    }

    /** 0 is end of file. */
    method SysRead(most: nat) returns (data: Bytes)
      requires most > 0
      modifies this
      ensures |data| <= most && old(bytes) == data + bytes && (data == [] <==> old(bytes) == [])
    {
      if bytes == [] { return []; }
      var n: nat :| 1 <= n <= most && n <= |bytes|;
      data := bytes[..n];
      bytes := bytes[n..];
    }
  }

  method WriteN(ch: Channel, data: Bytes) returns (n: nat)
    modifies ch
    ensures n == |data| && ch.bytes == old(ch.bytes) + data
  {
    var left := |data|;
    while left > 0
      invariant 0 <= left <= |data| && ch.bytes == old(ch.bytes) + data[..|data| - left]
    {
      var written := ch.SysWrite(data[|data| - left..]);
      assert data[..|data| - left] + data[|data| - left..][..written] == data[..|data| - left + written];
      left := left - written;
    }
    n := |data| - left;
  }

  method ReadN(ch: Channel, n: nat) returns (data: Bytes)
    modifies ch
    ensures old(ch.bytes) == data + ch.bytes
    ensures |data| == if n <= |old(ch.bytes)| then n else |old(ch.bytes)|
  {
    var left := n;
    data := [];
    while left > 0
      invariant 0 <= left <= n && |data| == n - left && old(ch.bytes) == data + ch.bytes
      decreases left
    {
      var got := ch.SysRead(left);
      if got == [] { break; }
      data := data + got;
      left := left - |got|;
    }
  }

  // ---------------------------------------------------------------- messages

  datatype Msg = Msg(kind: U32, data: Bytes, checksum: U64)

  predicate Checks(m: Msg) {
    m.checksum == Hash(m.data)
  }

  /** The header struct with its four bytes of padding, zeroed by memset. */
  function HeadBytes(m: Msg): Bytes {
    LE(m.kind, KIND_WIDTH) + [0, 0, 0, 0] + SizeBytes(|m.data|) + SizeBytes(m.checksum)
  }

  function Wire(m: Msg): Bytes {
    HeadBytes(m) + m.data
  }

  const HEAD := 24

  /** read_msg into a fresh message; None is EMSGSIZE, the stream ending early. */
  function Parse(bytes: Bytes): Option<(Msg, Bytes)> {
    if |bytes| < HEAD then None
    else
      var len := FromLE(bytes[8..16]);
      if |bytes| < HEAD + len then None
      else
        var kind, sum := FromLE(bytes[..4]), FromLE(bytes[16..24]);
        if kind <= 0xFFFF_FFFF && sum <= UINT64_MAX then
          Some((Msg(kind, bytes[HEAD..HEAD + len], sum), bytes[HEAD + len..]))
        else None
  }

  lemma {:induction false} FromLEBound(bytes: Bytes)
    ensures FromLE(bytes) < Pow256(|bytes|)
  {
    if |bytes| > 0 {
      FromLEBound(bytes[1..]);
    }
  }

  /** A message on the wire, byte by byte: type, padding, length and checksum with
      the least significant byte first, then the body. */
  lemma WireExample()
    ensures Wire(Msg(3, [7, 0], 5)) ==
            [3, 0, 0, 0] + [0, 0, 0, 0] + [2, 0, 0, 0, 0, 0, 0, 0] + [5, 0, 0, 0, 0, 0, 0, 0] + [7, 0]
  {
    SmallInteger(3, KIND_WIDTH);
    SmallInteger(2, SIZE_WIDTH);
    SmallInteger(5, SIZE_WIDTH);
    FiveParts([3, 0, 0, 0], [0, 0, 0, 0], [2, 0, 0, 0, 0, 0, 0, 0], [5, 0, 0, 0, 0, 0, 0, 0], [7, 0]);
  }

  lemma FiveParts(a: Bytes, b: Bytes, c: Bytes, d: Bytes, e: Bytes)
    ensures (a + b + c + d) + e == a + b + c + d + e
  {
  }

  /** Whatever follows it in the stream, a message parses back identically. */
  lemma ParseWire(m: Msg, rest: Bytes)
    requires |m.data| < SIZE_BOUND
    ensures Parse(Wire(m) + rest) == Some((m, rest))
  {
    var bytes := Wire(m) + rest;
    SizeBound();
    IntegerRoundTrip(m.kind, KIND_WIDTH);
    IntegerRoundTrip(|m.data|, SIZE_WIDTH);
    IntegerRoundTrip(m.checksum, SIZE_WIDTH);
    assert bytes[..4] == LE(m.kind, KIND_WIDTH);
    assert bytes[8..16] == SizeBytes(|m.data|);
    assert bytes[16..24] == SizeBytes(m.checksum);
    assert bytes[HEAD..HEAD + |m.data|] == m.data;
    assert bytes[HEAD + |m.data|..] == rest;
  }

  /** A message that was cut off is never taken for one. */
  lemma CutOffFails(m: Msg, n: nat)
    requires |m.data| < SIZE_BOUND && n < |Wire(m)|
    ensures Parse(Wire(m)[..n]) == None
  {
    if n >= HEAD {
      SizeBound();
      IntegerRoundTrip(|m.data|, SIZE_WIDTH);
      LengthField(m);
      assert Wire(m)[..n][8..16] == Wire(m)[8..16];
    }
  }

  lemma LengthField(m: Msg)
    ensures Wire(m)[8..16] == SizeBytes(|m.data|)
  {
    var k := LE(m.kind, KIND_WIDTH) + [0, 0, 0, 0];
    assert Wire(m) == k + SizeBytes(|m.data|) + (SizeBytes(m.checksum) + m.data);
    assert |k| == 8;
  }

  class NetMsg {
    var kind: U32
    var data: Databuf
    var checksum: U64

    ghost predicate Valid()
      reads this, data
    {
      data.Valid()
    }

    ghost function View(): Msg
      reads this, data, data.buffer
      requires Valid()
    {
      Msg(kind, data.Contents(), checksum)
    }

    constructor ()
      ensures Valid() && View() == Msg(0, [], 0) && fresh(data) && fresh(data.buffer)
    {
      kind := 0;
      data := new Databuf();
      checksum := 0;
    }

    method SetChecksum()
      requires Valid()
      modifies this`checksum
      ensures Valid() && View() == old(View()).(checksum := Hash(old(View()).data)) && Checks(View())
    {
      var h := HashBytes(data.buffer[..data.size]);
      checksum := h;
    }

    method CheckChecksum() returns (ok: bool)
      requires Valid()
      ensures ok <==> Checks(View())
    {
      var h := HashBytes(data.buffer[..data.size]);
      ok := checksum == h;
    }

    method WriteMsg(ch: Channel)
      requires Valid()
      modifies ch
      ensures Valid() && View() == old(View()) && ch.bytes == old(ch.bytes) + Wire(View())
    {
      var len := data.size;
      var head := LE(kind, KIND_WIDTH) + [0, 0, 0, 0] + SizeBytes(len) + SizeBytes(checksum);
      assert head == HeadBytes(View());
      var n := WriteN(ch, head);
      if len > 0 {
        n := WriteN(ch, data.buffer[..len]);
      }
      assert ch.bytes == old(ch.bytes) + Wire(View());
    }

    /** For a fresh message; the body is read into a buffer resized to fit. */
    method ReadMsg(ch: Channel) returns (ok: bool)
      requires Valid() && View().data == []
      modifies this, data, data.buffer, ch
      ensures Valid()
      ensures match Parse(old(ch.bytes))
              case None => !ok
              case Some((m, rest)) => ok && View() == m && ch.bytes == rest
    {
      ghost var start := ch.bytes;
      var head := ReadN(ch, HEAD);
      if |head| != HEAD { return false; }
      assert head == start[..HEAD];
      var len := FromLE(head[8..16]);
      FromLEBound(head[..4]);
      FromLEBound(head[16..24]);
      SizeBound();
      kind := FromLE(head[..4]);
      checksum := FromLE(head[16..24]);
      assert head[8..16] == start[8..16] && head[..4] == start[..4] && head[16..24] == start[16..24];
      assert ch.bytes == start[HEAD..];
      if len == 0 {
        assert start[HEAD..HEAD + len] == [];
        return true;
      }
      data.Resize(len);
      ghost var body := ch.bytes;
      var got := ReadN(ch, len);
      if |got| != len { return false; }
      data.Fill(got);
      assert got == body[..len] == start[HEAD..HEAD + len];
      assert ch.bytes == body[len..] == start[HEAD + len..];
      return true;
    }
  }

  // ------------------------------------------------------------------ streams

  function WireAll(msgs: seq<Msg>): Bytes {
    if |msgs| == 0 then [] else Wire(msgs[0]) + WireAll(msgs[1..])
  }

  /** Receiving n messages, each into a fresh one. */
  function ParseAll(bytes: Bytes, n: nat): Option<(seq<Msg>, Bytes)> {
    if n == 0 then Some(([], bytes))
    else
      match Parse(bytes)
      case None => None
      case Some((m, rest)) =>
        match ParseAll(rest, n - 1)
        case None => None
        case Some((more, end)) => Some(([m] + more, end))
  }

  /** A sequence of messages sent arrives as sent, each with the checksum it was
      given, and uses up exactly its own bytes of the stream. */
  lemma {:induction false} StreamRoundTrip(msgs: seq<Msg>, rest: Bytes)
    requires forall m :: m in msgs ==> |m.data| < SIZE_BOUND
    ensures ParseAll(WireAll(msgs) + rest, |msgs|) == Some((msgs, rest))
  {
    var bytes := WireAll(msgs) + rest;
    if |msgs| == 0 {
      assert bytes == rest;
    } else {
      var tail := WireAll(msgs[1..]) + rest;
      assert bytes == Wire(msgs[0]) + tail;
      ParseWire(msgs[0], tail);
      StreamRoundTrip(msgs[1..], rest);
      assert [msgs[0]] + msgs[1..] == msgs;
    }
  }

  /** ... so whatever was sent with its checksum set passes the check on arrival. */
  lemma ReceivedChecks(msgs: seq<Msg>, rest: Bytes)
    requires forall m :: m in msgs ==> |m.data| < SIZE_BOUND && Checks(m)
    ensures var r := ParseAll(WireAll(msgs) + rest, |msgs|);
            r.Some? && |r.value.0| == |msgs| && forall m :: m in r.value.0 ==> Checks(m)
  {
    StreamRoundTrip(msgs, rest);
  }
}
