/** How files travel in a message buffer: the server pushes content, length, name
    and length for each (src/source/worker/worker_cache_miss.c, worker_read.c) and
    the count last (worker_write.c); the client pops them back in reverse
    (save_cached_files of src/source/client_api.c). */
module Framing {
  import opened Basics
  import opened Databufs

  // ---------------------------------------------------------------- integers

  /** The bytes of an integer in memory, least significant first. */
  function LE(n: nat, k: nat): (r: Bytes)
    ensures |r| == k
  {
    if k == 0 then [] else [n % 256] + LE(n / 256, k - 1)
  }

  function FromLE(bytes: Bytes): nat {
    if |bytes| == 0 then 0 else bytes[0] + 256 * FromLE(bytes[1..])
  }

  function Pow256(k: nat): nat {
    if k == 0 then 1 else 256 * Pow256(k - 1)
  }

  lemma {:induction false} IntegerRoundTrip(n: nat, k: nat)
    requires n < Pow256(k)
    ensures FromLE(LE(n, k)) == n
  {
    if k > 0 {
      IntegerRoundTrip(n / 256, k - 1);
      assert LE(n, k)[1..] == LE(n / 256, k - 1);
    }
  }

  lemma DivideTwice(n: nat, p: nat)
    requires p > 0
    ensures 256 * p > 0 && n / 256 / p == n / (256 * p)
  {
    var m := 256 * p;
    var q, r := n / m, n % m;
    var r0 := r / 256;
    assert n == q * m + r;
    assert q * m == 256 * (q * p) by {
      assert q * (256 * p) == 256 * (q * p);
    }
    assert n / 256 == q * p + r0;
    assert 0 <= r0 < p;
    Quotient(n / 256, p, q, r0);
  }

  lemma Quotient(n: nat, p: nat, q: nat, r: nat)
    requires p > 0 && n == q * p + r && r < p
    ensures n / p == q
  {
    var d := n / p - q;
    assert n == (n / p) * p + n % p;
    assert d * p == r - n % p;
  }

  /** The bytes of an integer in memory: byte i counts for 256 to the power of i. */
  lemma {:induction false} IntegerDigit(n: nat, k: nat, i: nat)
    requires i < k
    ensures Pow256(i) > 0 && LE(n, k)[i] == n / Pow256(i) % 256
  {
    if i > 0 {
      IntegerDigit(n / 256, k - 1, i - 1);
      DivideTwice(n, Pow256(i - 1));
    }
  }

  lemma {:induction false} SmallInteger(n: Byte, k: nat)
    requires k > 0
    ensures LE(n, k) == [n] + seq(k - 1, _ => 0)
  {
    forall i | 0 < i < k ensures LE(n, k)[i] == 0 {
      IntegerDigit(n, k, i);
      PowerLarge(i);
    }
  }

  lemma {:induction false} PowerLarge(i: nat)
    requires i > 0
    ensures Pow256(i) >= 256
  {
    if i > 1 {
      PowerLarge(i - 1);
    }
  }

  // sizeof(size_t) and sizeof(uint32_t).
  const SIZE_WIDTH: nat := 8
  const KIND_WIDTH: nat := 4

  const SIZE_BOUND: nat := 0x1_0000_0000_0000_0000

  lemma SizeBound()
    ensures Pow256(SIZE_WIDTH) == SIZE_BOUND && Pow256(KIND_WIDTH) == 0x1_0000_0000
  {
    assert Pow256(4) == 256 * 256 * 256 * 256;
    assert Pow256(8) == 256 * 256 * 256 * 256 * Pow256(4);
  }

  function SizeBytes(n: nat): Bytes {
    LE(n, SIZE_WIDTH)
  }

  // ------------------------------------------------------------------- names

  const SLASH: Byte := 47
  const UNDERSCORE: Byte := 95
  const FILE_NAME_MAX_SIZE := 256

  /** convert_slashes_to_underscores from position i on: up to the terminator, or
      256 bytes. */
  function Converted(name: Bytes, i: nat): (r: Bytes)
    requires i <= |name|
    ensures |r| == |name|
    decreases |name| - i
  {
    if i == |name| || i >= FILE_NAME_MAX_SIZE || name[i] == 0 then name
    else Converted(if name[i] == SLASH then name[i := UNDERSCORE] else name, i + 1)
  }

  method ConvertSlashes(name: array<Byte>)
    requires 0 in name[..] || name.Length >= FILE_NAME_MAX_SIZE
    modifies name
    ensures name[..] == Converted(old(name[..]), 0)
  {
    var i := 0;
    while i < FILE_NAME_MAX_SIZE && i < name.Length && name[i] != 0
      invariant 0 <= i <= name.Length
      invariant Converted(name[..], i) == Converted(old(name[..]), 0)
    {
      ghost var before := name[..];
      if name[i] == SLASH {
        name[i] := UNDERSCORE;
        assert name[..] == before[i := UNDERSCORE];
      }
      i := i + 1;
    }
  }

  /** A C string as it lies in memory. */
  function Terminated(name: Name): Bytes {
    name + [0]
  }

  /** What strlen and friends see of a buffer. */
  function CString(buf: Bytes): Name {
    if |buf| == 0 || buf[0] == 0 then [] else [buf[0]] + CString(buf[1..])
  }

  predicate Proper(name: Name) {
    |name| < 256 && 0 !in name
  }

  /** Slashes become underscores, everything else stays. */
  function Flat(name: Name): (r: Name)
    ensures |r| == |name|
    ensures forall i :: 0 <= i < |name| ==> r[i] == if name[i] == SLASH then UNDERSCORE else name[i]
  {
    seq(|name|, i requires 0 <= i < |name| => if name[i] == SLASH then UNDERSCORE else name[i])
  }

  lemma {:induction false} ConvertedIsFlat(name: Name, i: nat, done: Bytes)
    requires Proper(name) && i <= |name| && done == Flat(name)[..i] + name[i..] + [0]
    ensures Converted(done, i) == Terminated(Flat(name))
    decreases |name| - i
  {
    if i < |name| {
      assert done[i] == name[i];
      var next := if done[i] == SLASH then done[i := UNDERSCORE] else done;
      assert next == Flat(name)[..i + 1] + name[i + 1..] + [0];
      ConvertedIsFlat(name, i + 1, next);
    }
  }

  /** A terminated name is read back whatever lies behind it. */
  lemma {:induction false} CStringTerminated(name: Name, tail: Bytes)
    requires 0 !in name
    ensures CString(Terminated(name) + tail) == name
  {
    if |name| > 0 {
      CStringTerminated(name[1..], tail);
      assert (Terminated(name) + tail)[1..] == Terminated(name[1..]) + tail;
    }
  }

  // ------------------------------------------------------------------ frames

  function FrameBytes(f: Frame): Bytes {
    f.bytes + SizeBytes(|f.bytes|) + Converted(Terminated(f.name), 0) + SizeBytes(|f.name| + 1)
  }

  function Body(files: seq<Frame>): Bytes {
    if |files| == 0 then [] else Body(files[..|files| - 1]) + FrameBytes(files[|files| - 1])
  }

  function Encode(files: seq<Frame>): Bytes {
    Body(files) + SizeBytes(|files|)
  }

  /** pop_buf. */
  function Popped(buf: Bytes, n: nat): Option<(Bytes, Bytes)> {
    if n > |buf| then None else Some((buf[..|buf| - n], buf[|buf| - n..]))
  }

  function PoppedSize(buf: Bytes): Option<(Bytes, nat)> {
    match Popped(buf, SIZE_WIDTH)
    case None => None
    case Some((rest, b)) => Some((rest, FromLE(b)))
  }

  /** What popping `top` into the reused name buffer makes of it. */
  function Overlaid(names: Bytes, top: Bytes): Bytes {
    if |top| >= |names| then top else top + names[|top|..]
  }

  /** What save_cached_files carries from one file to the next: its name buffer and
      buf_len, the size of its content buffer.  While either has size 0 it is NULL
      and pop_buf refuses it. */
  datatype Reused = Reused(names: Bytes, room: nat)

  /** One turn of save_cached_files. */
  function TakeFrame(buf: Bytes, re: Reused): Option<(Bytes, Frame, Reused)> {
    match PoppedSize(buf)
    case None => None
    case Some((b1, nameLen)) =>
      match Popped(b1, nameLen)
      case None => None
      case Some((b2, top)) =>
        var names := Overlaid(re.names, top);
        if names == [] then None else
        match PoppedSize(b2)
        case None => None
        case Some((b3, len)) =>
          var room := if len > re.room then len else re.room;
          if room == 0 then None else
          match Popped(b3, len)
          case None => None
          case Some((b4, bytes)) => Some((b4, Frame(CString(names), bytes), Reused(names, room)))
  }

  function TakeFrames(buf: Bytes, count: nat, re: Reused, files: seq<Frame>): Option<(Bytes, seq<Frame>)>
    decreases count
  {
    if count == 0 then Some((buf, files))
    else
      match TakeFrame(buf, re)
      case None => None
      case Some((rest, f, re')) => TakeFrames(rest, count - 1, re', files + [f])
  }

  function Decode(buf: Bytes): Option<(Bytes, seq<Frame>)> {
    match PoppedSize(buf)
    case None => None
    case Some((rest, count)) => TakeFrames(rest, count, Reused([], 0), [])
  }

  // --------------------------------------------------------------- the methods

  /** The copy of a file's name that goes into a frame, slashes converted. */
  method FlatCopy(name: Name) returns (r: Bytes)
    ensures r == Converted(Terminated(name), 0) && |r| == |name| + 1
  {
    var raw := Terminated(name);
    var buf := new Byte[|raw|](i requires 0 <= i < |raw| => raw[i]);
    assert buf[..] == raw && raw[|name|] == 0;
    ConvertSlashes(buf);
    r := buf[..];
  }

  lemma FourParts(a: Bytes, b: Bytes, c: Bytes, d: Bytes, e: Bytes)
    ensures a + (b + c + d + e) == a + b + c + d + e
  {
  }

  method PushFrame(buf: Databuf, f: Frame)
    requires buf.Valid()
    modifies buf, buf.buffer
    ensures buf.Valid() && buf.Contents() == old(buf.Contents()) + FrameBytes(f)
    ensures buf.buffer == old(buf.buffer) || fresh(buf.buffer)
  {
    var name := FlatCopy(f.name);
    buf.Push(f.bytes);
    buf.Push(SizeBytes(|f.bytes|));
    buf.Push(name);
    buf.Push(SizeBytes(|f.name| + 1));
    FourParts(old(buf.Contents()), f.bytes, SizeBytes(|f.bytes|), name, SizeBytes(|f.name| + 1));
  }

  lemma BodyMore(start: Bytes, files: seq<Frame>, i: nat)
    requires i < |files|
    ensures start + Body(files[..i]) + FrameBytes(files[i]) == start + Body(files[..i + 1])
  {
    assert files[..i + 1][..i] == files[..i];
  }

  method PushBody(buf: Databuf, files: seq<Frame>)
    requires buf.Valid()
    modifies buf, buf.buffer
    ensures buf.Valid() && buf.Contents() == old(buf.Contents()) + Body(files)
    ensures buf.buffer == old(buf.buffer) || fresh(buf.buffer)
  {
    ghost var start := buf.Contents();
    var i := 0;
    while i < |files|
      invariant 0 <= i <= |files| && buf.Valid() && (buf.buffer == old(buf.buffer) || fresh(buf.buffer))
      invariant buf.Contents() == start + Body(files[..i])
    {
      PushFrame(buf, files[i]);
      BodyMore(start, files, i);
      i := i + 1;
    }
    assert files[..i] == files;
  }

  /** The files one reply carries, and their number on top. */
  method PushFiles(buf: Databuf, files: seq<Frame>)
    requires buf.Valid()
    modifies buf, buf.buffer
    ensures buf.Valid() && buf.Contents() == old(buf.Contents()) + Encode(files)
  {
    PushBody(buf, files);
    buf.Push(SizeBytes(|files|));
  }

  method PopSize(buf: Databuf) returns (r: Option<nat>)
    requires buf.Valid()
    modifies buf`size
    ensures buf.Valid()
    ensures match PoppedSize(old(buf.Contents()))
            case None => r == None
            case Some((rest, n)) => r == Some(n) && buf.Contents() == rest
  {
    var b := buf.Pop(SIZE_WIDTH);
    if b.None? { return None; }
    return Some(FromLE(b.value));
  }

  /** One turn of the loop; the caller keeps the buffers. */
  method PopFrame(buf: Databuf, re: Reused) returns (r: Option<Frame>, re': Reused)
    requires buf.Valid()
    modifies buf`size
    ensures buf.Valid()
    ensures match TakeFrame(old(buf.Contents()), re)
            case None => r == None
            case Some((rest, f, after)) => r == Some(f) && buf.Contents() == rest && re' == after
  {
    re' := re;
    var nameLen := PopSize(buf);
    if nameLen.None? { return None, re'; }
    var top := buf.Pop(nameLen.value);
    if top.None? { return None, re'; }
    var names := Overlaid(re.names, top.value);
    if names == [] { return None, re'; }
    var len := PopSize(buf);
    if len.None? { return None, re'; }
    var room := if len.value > re.room then len.value else re.room;
    if room == 0 { return None, re'; }
    var bytes := buf.Pop(len.value);
    if bytes.None? { return None, re'; }
    return Some(Frame(CString(names), bytes.value)), Reused(names, room);
  }

  /** save_cached_files, its files returned instead of written to a directory. */
  method SaveCachedFiles(buf: Databuf) returns (r: Option<seq<Frame>>)
    requires buf.Valid()
    modifies buf`size
    ensures buf.Valid()
    ensures match Decode(old(buf.Contents()))
            case None => r == None
            case Some((rest, files)) => r == Some(files) && buf.Contents() == rest
  {
    var count := PopSize(buf);
    if count.None? { return None; }
    var i, re, files := 0, Reused([], 0), [];
    ghost var start := buf.Contents();
    while i < count.value
      invariant 0 <= i <= count.value && buf.Valid()
      invariant TakeFrames(buf.Contents(), count.value - i, re, files) ==
                TakeFrames(start, count.value, Reused([], 0), [])
    {
      var f, more := PopFrame(buf, re);
      if f.None? { return None; }
      files, re := files + [f.value], more;
      i := i + 1;
    }
    return Some(files);
  }

  // ------------------------------------------------------------ the round trip

  predicate Sendable(f: Frame) {
    Proper(f.name) && |f.bytes| < SIZE_BOUND
  }

  /** What the client makes of a file: the slashes of its name are gone. */
  function Received(f: Frame): Frame {
    Frame(Flat(f.name), f.bytes)
  }

  /** `got` is `done` followed by the files the client makes of `files`, last one first. */
  ghost predicate Backwards(files: seq<Frame>, done: seq<Frame>, got: seq<Frame>) {
    && |got| == |done| + |files|
    && (forall i :: 0 <= i < |done| ==> got[i] == done[i])
    && (forall j :: |done| <= j < |got| ==> got[j] == Received(files[|got| - 1 - j]))
  }

  lemma PopsLast(a: Bytes, b: Bytes)
    ensures Popped(a + b, |b|) == Some((a, b))
  {
  }

  lemma PopsSize(a: Bytes, n: nat)
    requires n < SIZE_BOUND
    ensures PoppedSize(a + SizeBytes(n)) == Some((a, n))
  {
    PopsLast(a, SizeBytes(n));
    SizeBound();
    IntegerRoundTrip(n, SIZE_WIDTH);
  }

  /** What is left in the name buffer once a name was popped into it. */
  lemma OverlaidName(names: Bytes, name: Name)
    requires 0 !in name
    ensures CString(Overlaid(names, Terminated(name))) == name
  {
    CStringTerminated(name, Overlaid(names, Terminated(name))[|name| + 1..]);
    assert Overlaid(names, Terminated(name)) == Terminated(name) + Overlaid(names, Terminated(name))[|name| + 1..];
  }

  /** A pushed frame pops back whole, unless it is empty and the client's content
      buffer is still NULL. */
  lemma FrameRoundTrip(a: Bytes, f: Frame, re: Reused)
    requires Sendable(f)
    ensures TakeFrame(a + FrameBytes(f), re) ==
            if re.room == 0 && f.bytes == [] then None
            else Some((a, Received(f), Reused(Overlaid(re.names, Terminated(Flat(f.name))),
                                              if |f.bytes| > re.room then |f.bytes| else re.room)))
  {
    var name := Converted(Terminated(f.name), 0);
    ConvertedIsFlat(f.name, 0, Terminated(f.name));
    OverlaidName(re.names, Flat(f.name));
    var b4 := a + f.bytes;
    var b3 := b4 + SizeBytes(|f.bytes|);
    var b2 := b3 + name;
    FourParts(a, f.bytes, SizeBytes(|f.bytes|), name, SizeBytes(|f.name| + 1));
    PopsSize(b2, |f.name| + 1);
    PopsLast(b3, name);
    PopsSize(b4, |f.bytes|);
    PopsLast(a, f.bytes);
  }

  lemma {:induction false} FramesRoundTrip(files: seq<Frame>, re: Reused, done: seq<Frame>)
    requires forall f :: f in files ==> Sendable(f)
    requires re.room > 0 || (|files| > 0 ==> files[|files| - 1].bytes != [])
    ensures var r := TakeFrames(Body(files), |files|, re, done);
            r.Some? && r.value.0 == [] && Backwards(files, done, r.value.1)
  {
    if |files| > 0 {
      var n := |files| - 1;
      FrameRoundTrip(Body(files[..n]), files[n], re);
      var re' := TakeFrame(Body(files), re).value.2;
      FramesRoundTrip(files[..n], re', done + [Received(files[n])]);
      var got := TakeFrames(Body(files), |files|, re, done).value.1;
      BackwardsMore(files, done, got);
    }
  }

  lemma BackwardsMore(files: seq<Frame>, done: seq<Frame>, got: seq<Frame>)
    requires |files| > 0
    requires Backwards(files[..|files| - 1], done + [Received(files[|files| - 1])], got)
    ensures Backwards(files, done, got)
  {
    var n, more := |files| - 1, done + [Received(files[|files| - 1])];
    forall j | |done| <= j < |got| ensures got[j] == Received(files[|got| - 1 - j]) {
      if j == |done| {
        assert got[j] == more[j];
      } else {
        assert got[j] == Received(files[..n][|got| - 1 - j]);
      }
    }
    forall i | 0 <= i < |done| ensures got[i] == done[i] {
      assert got[i] == more[i];
    }
  }

  lemma DecodeStarts(files: seq<Frame>)
    requires |files| < SIZE_BOUND
    ensures Decode(Encode(files)) == TakeFrames(Body(files), |files|, Reused([], 0), [])
  {
    PopsSize(Body(files), |files|);
  }

  lemma LastEmptyFails(files: seq<Frame>)
    requires |files| > 0 && Sendable(files[|files| - 1]) && files[|files| - 1].bytes == []
    ensures TakeFrames(Body(files), |files|, Reused([], 0), []) == None
  {
    var n := |files| - 1;
    FrameRoundTrip(Body(files[..n]), files[n], Reused([], 0));
  }

  /** The client gets back exactly the files the server shipped, last one first,
      and nothing is left in the buffer - if and only if there are none or the one
      shipped last is not empty.  Evicted files never are. */
  lemma PayloadRoundTrip(files: seq<Frame>)
    requires |files| < SIZE_BOUND && forall f :: f in files ==> Sendable(f)
    ensures var r := Decode(Encode(files));
            && (r.Some? <==> files == [] || files[|files| - 1].bytes != [])
            && (r.Some? ==> r.value.0 == [] && Backwards(files, [], r.value.1))
  {
    DecodeStarts(files);
    if files == [] || files[|files| - 1].bytes != [] {
      FramesRoundTrip(files, Reused([], 0), []);
    } else {
      LastEmptyFails(files);
    }
  }

  /** A write or append request is framed like a file, with the name left alone;
      read_file_name and get_data pop it back. */
  lemma RequestRoundTrip(a: Bytes, name: Name, payload: Bytes)
    requires Proper(name) && |payload| < SIZE_BOUND
    ensures var request := a + payload + SizeBytes(|payload|) + Terminated(name) + SizeBytes(|name| + 1);
            && PoppedSize(request).Some? && PoppedSize(request).value.1 <= FILE_NAME_MAX_SIZE
            && var (b1, len) := PoppedSize(request).value;
               && Popped(b1, len) == Some((a + payload + SizeBytes(|payload|), Terminated(name)))
               && CString(Terminated(name)) == name
               && PoppedSize(a + payload + SizeBytes(|payload|)) == Some((a + payload, |payload|))
               && Popped(a + payload, |payload|) == Some((a, payload))
  {
    var b2 := a + payload + SizeBytes(|payload|);
    PopsSize(b2 + Terminated(name), |name| + 1);
    PopsLast(b2, Terminated(name));
    CStringTerminated(name, []);
    assert Terminated(name) + [] == Terminated(name);
    PopsSize(a + payload, |payload|);
    PopsLast(a, payload);
  }

  /** One file in a reply, byte by byte: its contents and their length, its name with
      the slash gone and the terminator, the length of that, and the number of files. */
  lemma FrameExample()
    ensures Encode([Frame([97, 47, 98], [7, 8])]) ==
            [7, 8] + [2, 0, 0, 0, 0, 0, 0, 0] + [97, 95, 98, 0] + [4, 0, 0, 0, 0, 0, 0, 0] + [1, 0, 0, 0, 0, 0, 0, 0]
  {
    var f := Frame([97, 47, 98], [7, 8]);
    SmallInteger(1, SIZE_WIDTH);
    SmallInteger(2, SIZE_WIDTH);
    SmallInteger(4, SIZE_WIDTH);
    ConvertedIsFlat(f.name, 0, Terminated(f.name));
    assert Terminated(Flat(f.name)) == [97, 95, 98, 0];
    assert Body([f][..0]) == [];
    assert Body([f]) == [] + FrameBytes(f);
  }
}
