/**
 Length-prefixed messages on a byte stream: four bytes of big-endian size, then the
 payload. The stream splits writes and reads as it likes and may end anywhere.
 */
module Framing {

  type Byte = x: int | 0 <= x < 256

  const MAX_PACKET_SIZE: nat := 10 * 1024 * 1024

  /** Sizes are 32-bit. */
  const SIZE_LIMIT: nat := 0x1_0000_0000

  // ----- the format

  function Header(n: nat): (h: seq<Byte>)
    requires n < SIZE_LIMIT
    ensures |h| == 4
  {
    [n / 0x100_0000, n / 0x1_0000 % 0x100, n / 0x100 % 0x100, n % 0x100]
  }

  function SizeOf(h: seq<Byte>): nat
    requires |h| == 4
  {
    h[0] as int * 0x100_0000 + h[1] as int * 0x1_0000 + h[2] as int * 0x100 + h[3]
  }

  lemma {:induction false} ThirdByte(n: nat)
    ensures n / 0x1_0000 == n / 0x100_0000 * 0x100 + n / 0x1_0000 % 0x100
  {
  }

  lemma {:induction false} SecondByte(n: nat)
    ensures n / 0x100 == n / 0x1_0000 * 0x100 + n / 0x100 % 0x100
  {
  }

  lemma {:induction false} HeaderRoundTrip(n: nat)
    requires n < SIZE_LIMIT
    ensures SizeOf(Header(n)) == n
  {
    ThirdByte(n);
    SecondByte(n);
    var a, b, c := n / 0x100_0000, n / 0x1_0000, n / 0x100;
    assert n == a * 0x100_0000 + b % 0x100 * 0x1_0000 + c % 0x100 * 0x100 + n % 0x100;
    assert Header(n) == [a, b % 0x100, c % 0x100, n % 0x100];
  }

  /** Digits to base 256, the most significant first. */
  function BigEndian(digits: seq<Byte>): nat {
    if digits == [] then 0 else BigEndian(digits[..|digits| - 1]) * 256 + digits[|digits| - 1]
  }

  /** The size is what the four bytes are as digits to base 256, the most significant first. */
  lemma {:induction false} SizeIsBigEndian(h: seq<Byte>)
    requires |h| == 4
    ensures SizeOf(h) == BigEndian(h)
  {
    var a, b, c := h[..3], h[..2], h[..1];
    assert a[..2] == b && b[..1] == c && c[..0] == [];
    assert BigEndian(c) == h[0] as int;
    assert BigEndian(b) == h[0] as int * 0x100 + h[1];
    assert BigEndian(a) == h[0] as int * 0x1_0000 + h[1] as int * 0x100 + h[2];
  }

  /** The header of a size is that size in four digits to base 256, the most significant first. */
  lemma {:induction false} HeaderIsBigEndian(n: nat)
    requires n < SIZE_LIMIT
    ensures |Header(n)| == 4 && BigEndian(Header(n)) == n
  {
    HeaderRoundTrip(n);
    SizeIsBigEndian(Header(n));
  }

  /** A count in 32 bits. */
  function Count32(n: nat): (r: nat)
    ensures r < SIZE_LIMIT && (n < SIZE_LIMIT ==> r == n)
  {
    n % SIZE_LIMIT
  }

  ghost predicate Sized(p: seq<Byte>) {
    |p| < SIZE_LIMIT
  }

  /** The count never wraps for a payload that 32 bits can count. */
  lemma {:induction false} CountNext(b: seq<Byte>, done: nat, n: nat)
    requires done + n <= |b|
    ensures Sized(b) ==> Count32(done + n) == done + n && Count32(|b|) == |b|
  {
  }

  lemma {:induction false} NextSlice(b: seq<Byte>, i: nat, n: nat)
    requires i + n <= |b|
    ensures b[..i] + b[i..][..n] == b[..i + n]
  {
  }

  /** The size in the header is cut to 32 bits, and the loop that sends the payload stops at it. */
  function Frame(p: seq<Byte>): (f: seq<Byte>)
    ensures Sized(p) ==> f == Header(|p|) + p && |f| == 4 + |p|
  {
    Header(Count32(|p|)) + Body(p)
  }

  function Body(p: seq<Byte>): seq<Byte> {
    if Count32(|p|) == 0 then [] else p
  }

  lemma {:induction false} FrameParts(p: seq<Byte>, n: nat)
    requires n <= |Body(p)|
    ensures |Frame(p)| == 4 + |Body(p)| && Frame(p)[..4 + n] == Header(Count32(|p|)) + Body(p)[..n]
  {
    hide Header, Body;
  }

  ghost predicate AllSized(ps: seq<seq<Byte>>) {
    forall i :: 0 <= i < |ps| ==> Sized(ps[i])
  }

  ghost predicate AllFit(ps: seq<seq<Byte>>) {
    forall i :: 0 <= i < |ps| ==> |ps[i]| <= MAX_PACKET_SIZE
  }

  /** What a sender that sends `ps` puts on the stream. */
  ghost function Stream(ps: seq<seq<Byte>>): seq<Byte> {
    if ps == [] then [] else Frame(ps[0]) + Stream(ps[1..])
  }

  ghost function Traffic(ps: seq<seq<Byte>>): nat {
    if ps == [] then 0 else 4 + Count32(|ps[0]|) + Traffic(ps[1..])
  }

  lemma {:induction false} StreamSize(ps: seq<seq<Byte>>)
    requires AllSized(ps)
    ensures |Stream(ps)| == Traffic(ps)
  {
    hide Frame, Header;
    if ps != [] {
      assert Sized(ps[0]) && AllSized(ps[1..]);
      StreamSize(ps[1..]);
    }
  }

  /** One more successful send extends the stream by one frame. */
  lemma {:induction false} StreamAppend(ps: seq<seq<Byte>>, p: seq<Byte>)
    ensures Stream(ps + [p]) == Stream(ps) + Frame(p)
  {
    hide Frame;
    if ps == [] {
      assert ps + [p] == [p];
    } else {
      StreamAppend(ps[1..], p);
      assert (ps + [p])[1..] == ps[1..] + [p];
      assert (ps + [p])[0] == ps[0];
    }
  }

  lemma {:induction false} TrafficAppend(ps: seq<seq<Byte>>, p: seq<Byte>)
    ensures Traffic(ps + [p]) == Traffic(ps) + 4 + Count32(|p|)
  {
    if ps == [] {
      assert ps + [p] == [p];
    } else {
      TrafficAppend(ps[1..], p);
      assert (ps + [p])[1..] == ps[1..] + [p];
    }
  }

  // ----- what one receive does to what the stream still holds

  datatype Outcome =
    | Payload(bytes: seq<Byte>)
    | NoHeader
    | TooBig(size: nat)
    | Cut(read: nat)

  function Receive(input: seq<Byte>): Outcome {
    if |input| < 4 then NoHeader
    else
      var size := SizeOf(input[..4]);
      if size > MAX_PACKET_SIZE then TooBig(size)
      else if |input| - 4 < size then Cut(|input| - 4)
      else Payload(input[4..4 + size])
  }

  /** Bytes that leave the stream. */
  function Consumed(input: seq<Byte>): (n: nat)
    ensures n <= |input|
  {
    match Receive(input)
    case Payload(p) => 4 + |p|
    case NoHeader => |input|
    case TooBig(_) => 4
    case Cut(_) => |input|
  }

  /** Bytes that the receiver counts. */
  function Counted(o: Outcome): nat {
    match o
    case Payload(p) => 4 + |p|
    case NoHeader => 0
    case TooBig(_) => 0
    case Cut(read) => 4 + read
  }

  /** Receives until one fails. */
  function ReceiveAll(input: seq<Byte>): (seq<seq<Byte>>, Outcome) {
    match Receive(input)
    case Payload(p) =>
      var (ps, last) := ReceiveAll(input[4 + |p|..]);
      ([p] + ps, last)
    case o => ([], o)
  }

  // ----- round trip

  /** How much of the payload is on the stream when `done` bytes of it were counted. */
  ghost function Taken(b: seq<Byte>, done: nat): nat {
    if Sized(b) || done == 0 then done else |b|
  }

  /** A whole frame in front is taken, and not a byte of what follows. */
  lemma {:induction false} ReceiveFrame(p: seq<Byte>, rest: seq<Byte>)
    requires Sized(p)
    ensures Receive(Frame(p) + rest) == if |p| <= MAX_PACKET_SIZE then Payload(p) else TooBig(|p|)
    ensures |p| <= MAX_PACKET_SIZE ==> (Frame(p) + rest)[Consumed(Frame(p) + rest)..] == rest
  {
    var input := Frame(p) + rest;
    assert input[..4] == Header(|p|);
    HeaderRoundTrip(|p|);
    assert input[4..4 + |p|] == p;
    assert input[4 + |p|..] == rest;
    hide SizeOf, Header;
  }

  /** A payload is received as it was sent if and only if it fits, whatever its length and whatever follows. */
  lemma {:induction false} FramedIff(p: seq<Byte>, rest: seq<Byte>)
    ensures Receive(Frame(p) + rest) == Payload(p) <==> |p| <= MAX_PACKET_SIZE
  {
    if Sized(p) {
      ReceiveFrame(p, rest);
    } else {
      var m := |p| % SIZE_LIMIT;
      assert (Frame(p) + rest)[..4] == Header(m);
      HeaderRoundTrip(m);
      hide SizeOf, Header, Frame;
    }
  }

  /** A frame cut short is never taken for a payload. */
  lemma {:induction false} ReceiveCut(p: seq<Byte>, k: nat)
    requires |p| <= MAX_PACKET_SIZE && k < 4 + |p|
    ensures Receive(Frame(p)[..k]) == if k < 4 then NoHeader else Cut(k - 4)
  {
    if k >= 4 {
      assert Frame(p)[..k][..4] == Header(|p|);
      HeaderRoundTrip(|p|);
    }
    hide SizeOf, Header;
  }

  /** What a receiver gets out of the first `k` bytes of the stream of `ps`. */
  ghost function Arriving(ps: seq<seq<Byte>>, k: nat): seq<seq<Byte>> {
    if ps == [] || |ps[0]| > MAX_PACKET_SIZE || k < 4 + |ps[0]| then []
    else [ps[0]] + Arriving(ps[1..], k - 4 - |ps[0]|)
  }

  /**
   Wherever the stream is cut, the receiver returns the payloads that came in whole
   before the first that is too big, as they were sent, and then fails.
   */
  lemma {:induction false} ReceivedFromStream(ps: seq<seq<Byte>>, k: nat)
    requires AllSized(ps) && k <= |Stream(ps)|
    ensures ReceiveAll(Stream(ps)[..k]).0 == Arriving(ps, k)
  {
    var input := Stream(ps)[..k];
    if ps != [] {
      var size := 4 + |ps[0]|;
      if k >= size {
        var rest := Stream(ps[1..])[..k - size];
        assert input == Frame(ps[0]) + rest;
        ReceiveFrame(ps[0], rest);
        assert input[size..] == rest;
        hide Receive, Frame, Stream;
        ReceivedFromStream(ps[1..], k - size);
      } else {
        assert input == Frame(ps[0])[..k];
        NotWhole(ps[0], k);
      }
    }
  }

  lemma {:induction false} NotWhole(p: seq<Byte>, k: nat)
    requires Sized(p) && k < 4 + |p|
    ensures !Receive(Frame(p)[..k]).Payload?
  {
    if |p| <= MAX_PACKET_SIZE {
      ReceiveCut(p, k);
    } else if k >= 4 {
      assert Frame(p)[..k][..4] == Header(|p|);
      HeaderRoundTrip(|p|);
    }
    hide SizeOf, Header;
  }

  lemma {:induction false} ArrivingIsPrefix(ps: seq<seq<Byte>>, k: nat)
    ensures |Arriving(ps, k)| <= |ps| && Arriving(ps, k) == ps[..|Arriving(ps, k)|]
  {
    if Arriving(ps, k) != [] {
      ArrivingIsPrefix(ps[1..], k - 4 - |ps[0]|);
    }
  }

  /** Payload i is received if and only if it is all there and it and all before it fit. */
  lemma {:induction false} ReceivedIff(ps: seq<seq<Byte>>, k: nat, i: nat)
    requires i < |ps|
    ensures i < |Arriving(ps, k)| <==> Traffic(ps[..i + 1]) <= k && AllFit(ps[..i + 1])
  {
    assert ps[..i + 1][0] == ps[0];
    if i == 0 {
      assert ps[..1][1..] == [];
    } else {
      assert ps[..i + 1][1..] == ps[1..][..i];
      assert Traffic(ps[..i + 1]) == 4 + Count32(|ps[0]|) + Traffic(ps[1..][..i]);
      FitSplit(ps[..i + 1]);
      if |ps[0]| <= MAX_PACKET_SIZE && k >= 4 + |ps[0]| {
        ReceivedIff(ps[1..], k - 4 - |ps[0]|, i - 1);
      }
    }
  }

  lemma {:induction false} FitSplit(ps: seq<seq<Byte>>)
    requires ps != []
    ensures AllFit(ps) <==> |ps[0]| <= MAX_PACKET_SIZE && AllFit(ps[1..])
  {
    if AllFit(ps[1..]) {
      assert forall i :: 1 <= i < |ps| ==> ps[i] == ps[1..][i - 1];
    }
  }

  /** Frames that fit are read back as they were sent, and both ends count the same bytes. */
  lemma {:induction false} RoundTrip(ps: seq<seq<Byte>>)
    requires AllSized(ps) && AllFit(ps)
    ensures ReceiveAll(Stream(ps)) == (ps, NoHeader)
    ensures Traffic(ReceiveAll(Stream(ps)).0) == |Stream(ps)|
  {
    StreamSize(ps);
    if ps != [] {
      assert ps == [ps[0]] + ps[1..];
      ReceiveFrame(ps[0], Stream(ps[1..]));
      hide Receive, Frame, Traffic;
      RoundTrip(ps[1..]);
    }
  }

  /** A payload taken from the rest of the stream goes to the end of those taken before. */
  lemma {:induction false} PayloadFits(input: seq<Byte>)
    requires Receive(input).Payload?
    ensures Consumed(input) == 4 + |Receive(input).bytes| && Count32(|Receive(input).bytes|) == |Receive(input).bytes|
  {
    hide SizeOf;
  }

  lemma {:induction false} ReceivedOneMore(got: seq<seq<Byte>>, input: seq<Byte>)
    requires Receive(input).Payload?
    ensures var p := Receive(input).bytes;
      && got + ReceiveAll(input).0 == got + [p] + ReceiveAll(input[Consumed(input)..]).0
      && ReceiveAll(input).1 == ReceiveAll(input[Consumed(input)..]).1
      && Traffic(got + [p]) == Traffic(got) + 4 + |p|
  {
    hide Receive, Consumed, Traffic, Count32;
    PayloadFits(input);
    TrafficAppend(got, Receive(input).bytes);
    var rest := ReceiveAll(input[Consumed(input)..]);
    assert ReceiveAll(input) == ([Receive(input).bytes] + rest.0, rest.1);
    hide ReceiveAll;
  }

  /**
   Two ends of one stream: at all times the receiver has the first of the payloads
   sent, and in the end all of them when they fit and arrived whole.
   */
  lemma {:induction false} ReceivedInOrder(sent: seq<seq<Byte>>, k: nat, received: seq<seq<Byte>>, incoming: seq<Byte>)
    requires AllSized(sent) && k <= |Stream(sent)|
    requires ReceiveAll(Stream(sent)[..k]).0 == received + ReceiveAll(incoming).0
    ensures received <= sent
    ensures AllFit(sent) && k == |Stream(sent)| && incoming == [] ==> received == sent
  {
    hide Stream, ReceiveAll, Arriving, AllFit, AllSized;
    ReceivedFromStream(sent, k);
    ArrivingIsPrefix(sent, k);
    if AllFit(sent) && k == |Stream(sent)| && incoming == [] {
      RoundTrip(sent);
      assert Stream(sent)[..k] == Stream(sent);
      NothingToReceive();
    }
  }

  lemma {:induction false} NothingToReceive()
    ensures ReceiveAll([]).0 == []
  {
  }

  // ----- the connection

  /**
   - outgoing: what this end has put on the stream
   - incoming: what the other end's stream still holds for this end, up to its end or
     its first failure
   - sent, received: the payloads of the calls that succeeded, in order
   - arriving: all that `incoming` ever held
   */
  class TCPConn {
    var outgoing: seq<Byte>
    var incoming: seq<Byte>
    var tx: nat
    var rx: nat
    ghost var sent: seq<seq<Byte>>
    ghost var received: seq<seq<Byte>>
    ghost var arriving: seq<Byte>
    ghost var writable: bool
    ghost var readable: bool

    ghost predicate SendValid()
      reads this
    {
      writable ==> outgoing == Stream(sent) && tx == Traffic(sent)
    }

    ghost predicate ReceiveValid()
      reads this
    {
      readable ==>
        && rx == Traffic(received)
        && ReceiveAll(arriving) == (received + ReceiveAll(incoming).0, ReceiveAll(incoming).1)
    }

    constructor (input: seq<Byte>)
      ensures SendValid() && ReceiveValid() && writable && readable
      ensures incoming == arriving == input && outgoing == [] && sent == received == []
      ensures tx == rx == 0
    {
      outgoing, incoming, tx, rx := [], input, 0, 0;
      sent, received, arriving, writable, readable := [], [], input, true, true;
      new;
      assert [] + ReceiveAll(input).0 == ReceiveAll(input).0;
    }

    /**
     The stream takes some of `b`, at least a byte unless it fails. What is longer than a
     32-bit number can count is taken whole or fails.
     */
    method Write(b: seq<Byte>) returns (n: nat, ok: bool)
      requires b != []
      modifies this`outgoing
      ensures n <= |b| && (ok ==> n > 0 && (|b| >= SIZE_LIMIT ==> n == |b|))
      ensures outgoing == old(outgoing) + b[..n]
    {
      ok := *;
      n :| n <= |b| && (ok ==> n > 0 && (|b| >= SIZE_LIMIT ==> n == |b|));
      outgoing := outgoing + b[..n];
    }

    /** Fills the front of b[from..] with some of what is there, at least a byte unless the stream is at its end. */
    method Read(b: array<Byte>, from: nat) returns (n: nat, ok: bool)
      requires from < b.Length
      modifies this`incoming, b
      ensures ok == (old(incoming) != [])
      ensures if ok then 0 < n <= b.Length - from && n <= |old(incoming)| else n == 0
      ensures incoming == old(incoming)[n..] && b[from..from + n] == old(incoming)[..n]
      ensures forall i :: 0 <= i < from ==> b[i] == old(b[i])
    {
      ok := incoming != [];
      n := 0;
      if ok {
        n :| 0 < n <= b.Length - from && n <= |incoming|;
        forall i | from <= i < from + n {
          b[i] := incoming[i - from];
        }
        incoming := incoming[n..];
      }
    }

    /** Writes the header whole, or fails after some of it. */
    method WriteHeader(h: seq<Byte>) returns (ok: bool)
      modifies this`outgoing
      ensures old(outgoing) <= outgoing <= old(outgoing) + h
      ensures ok ==> outgoing == old(outgoing) + h
    {
      ok := *;
      var n := |h|;
      if !ok {
        n :| 0 <= n <= |h|;
      }
      outgoing := outgoing + h[..n];
    }

    /**
     On success the whole frame is on the stream and counted. On failure the stream
     holds no more than the frame, and at least the bytes that were counted.
     */
    method SendRaw(b: seq<Byte>) returns (sentLen: nat, ok: bool)
      requires SendValid()
      modifies this`outgoing, this`tx, this`sent, this`writable
      ensures SendValid()
      ensures tx == old(tx) + sentLen && outgoing <= old(outgoing) + Frame(b)
      ensures sentLen <= |Frame(b)| && old(outgoing) + Frame(b)[..sentLen] <= outgoing
      ensures if ok then sentLen == 4 + Count32(|b|) && sent == old(sent) + [b] && writable == old(writable)
              else (sentLen == 0 || 4 <= sentLen < 4 + Count32(|b|)) && sent == old(sent) && !writable
    {
      hide Stream, Traffic, Header, Body, Count32;
      var packetSize := Count32(|b|);
      ok := WriteHeader(Header(packetSize));
      if !ok {
        writable := false;
        return 0, false;
      }
      var done;
      done, ok := SendPayload(b, packetSize, Body(b));
      FrameParts(b, done);
      sentLen := 4 + done;
      tx := tx + sentLen;
      if !ok {
        writable := false;
        return;
      }
      StreamAppend(sent, b);
      TrafficAppend(sent, b);
      sent := sent + [b];
    }

    /** The chunks of a payload whose header is on the stream; `done` is a 32-bit count. */
    method SendPayload(b: seq<Byte>, packetSize: nat, ghost body: seq<Byte>) returns (done: nat, ok: bool)
      requires packetSize == Count32(|b|) && body == Body(b)
      modifies this`outgoing
      ensures old(outgoing) <= outgoing <= old(outgoing) + body
      ensures if ok then done == packetSize && outgoing == old(outgoing) + body else done < packetSize
      ensures done <= |body| && old(outgoing) + body[..done] <= outgoing
    {
      ok := true;
      done := 0;
      assert packetSize <= |b|;
      hide Count32;
      while done < packetSize
        invariant done <= packetSize <= |body| && (!Sized(b) ==> done == 0 || done == packetSize)
        invariant outgoing == old(outgoing) + body[..Taken(b, done)]
      {
        var n;
        n, ok := Write(b[done..]);
        NextSlice(body, done, n);
        if !ok {
          return;
        }
        CountNext(b, done, n);
        done := Count32(done + n);
      }
      ok := true;
      CountNext(b, 0, |b|);
      assert body[..|body|] == body;
    }

    method ReadHeader() returns (total: nat, ok: bool)
      modifies this`incoming
      ensures ok == (|old(incoming)| >= 4)
      ensures if ok then total == SizeOf(old(incoming)[..4]) && incoming == old(incoming)[4..] else incoming == []
    {
      ok := |incoming| >= 4;
      total := 0;
      if ok {
        total := SizeOf(incoming[..4]);
        incoming := incoming[4..];
      } else {
        incoming := [];
      }
    }

    /** Returns what `Receive` says of the stream's content, and takes and counts the bytes that go with it. */
    method ReceiveRaw() returns (r: Outcome)
      requires ReceiveValid()
      modifies this`incoming, this`rx, this`received, this`readable
      ensures ReceiveValid()
      ensures r == Receive(old(incoming)) && incoming == old(incoming)[Consumed(old(incoming))..]
      ensures rx == old(rx) + Counted(r)
      ensures if r.Payload? then received == old(received) + [r.bytes] && readable == old(readable)
              else received == old(received) && !readable
    {
      hide ReceiveAll, Traffic, SizeOf;
      var total, ok := ReadHeader();
      if !ok {
        readable := false;
        return NoHeader;
      }
      if total > MAX_PACKET_SIZE {
        readable := false;
        return TooBig(total);
      }
      var b := new Byte[total];
      var read := 0;
      var buffer := [];
      while read < total
        invariant read <= total && 4 + read <= |old(incoming)|
        invariant buffer == old(incoming)[4..4 + read]
        invariant incoming == old(incoming)[4 + read..]
        invariant rx == old(rx) && received == old(received) && readable == old(readable)
      {
        var n;
        n, ok := Read(b, read);
        if !ok {
          rx := rx + 4 + read;
          readable := false;
          return Cut(read);
        }
        buffer := buffer + b[read..read + n];
        read := read + n;
      }
      rx := rx + 4 + read;
      r := Payload(buffer);
      ReceivedOneMore(received, old(incoming));
      received := received + [buffer];
    }
  }
}
