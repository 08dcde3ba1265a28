/** Length-prefixed messages on a stream socket that may split the stream anywhere. */
module Framing {
  import opened Bytes

  const LIMIT: nat := 0x1_0000_0000

  datatype Message = Message(kind: byte, payload: bytes)

  /** The `k` lowest bytes of a number, highest first. */
  function Digits(w: nat, k: nat): (b: bytes)
    ensures |b| == k
  {
    if k == 0 then [] else Digits(w / 0x100, k - 1) + [(w % 0x100) as byte]
  }

  function Value(b: bytes): nat {
    if b == [] then 0 else Value(b[..|b| - 1]) * 0x100 + b[|b| - 1] as nat
  }

  function Pow256(k: nat): nat {
    if k == 0 then 1 else 0x100 * Pow256(k - 1)
  }

  lemma {:induction false} DigitsValue(w: nat, k: nat)
    requires w < Pow256(k)
    ensures Value(Digits(w, k)) == w
  {
    if k > 0 {
      DigitsValue(w / 0x100, k - 1);
      assert Digits(w, k)[..k - 1] == Digits(w / 0x100, k - 1);
    }
  }

  /** `binary.BigEndian.PutUint32(uint32(n))`: the conversion drops the bits above 32. */
  function BigEndian(n: nat): bytes { Digits(n % LIMIT, 4) }

  lemma BigEndianInverse(n: nat)
    ensures Value(BigEndian(n)) == n % LIMIT
  {
    assert Pow256(1) == 0x100 && Pow256(2) == 0x1_0000 && Pow256(3) == 0x100_0000 && Pow256(4) == LIMIT;
    DigitsValue(n % LIMIT, 4);
  }

  /** The bytes of one message on the wire. */
  function Frame(m: Message): bytes {
    [m.kind] + BigEndian(|m.payload|) + m.payload
  }

  function Frames(ms: seq<Message>): bytes {
    if ms == [] then [] else Frame(ms[0]) + Frames(ms[1..])
  }

  datatype Decoded = Short | Decoded(message: Message, rest: bytes)

  /** What a reader makes of a stream: its first message and what follows. */
  function Decode(stream: bytes): Decoded {
    if |stream| < 5 then Short
    else
      var length := Value(stream[1..5]);
      if |stream| < 5 + length then Short
      else Decoded(Message(stream[0], stream[5..5 + length]), stream[5 + length..])
  }

  predicate Fits(m: Message) { |m.payload| < LIMIT }

  lemma DecodeFrame(m: Message, rest: bytes)
    ensures Fits(m) ==> Decode(Frame(m) + rest) == Decoded(m, rest)
    ensures !Fits(m) ==> Decode(Frame(m) + rest).Decoded? && Decode(Frame(m) + rest).message != m
  {
    var stream := Frame(m) + rest;
    assert stream[1..5] == BigEndian(|m.payload|);
    BigEndianInverse(|m.payload|);
    var length := |m.payload| % LIMIT;
    assert stream[5..] == m.payload + rest;
    assert stream[5..5 + length] == m.payload[..length];
    if Fits(m) {
      assert m.payload[..length] == m.payload;
      assert stream[5 + length..] == rest;
    } else {
      assert |stream[5..5 + length]| < |m.payload|;
    }
  }

  /** One message survives the wire exactly when its length fits the 32-bit field. */
  lemma RoundTripExactly(m: Message, rest: bytes)
    ensures Decode(Frame(m) + rest) == Decoded(m, rest) <==> |m.payload| < 0x1_0000_0000
  {
    DecodeFrame(m, rest);
  }

  /** Four bytes as a number, highest first. */
  function Word(b: bytes): nat
    requires |b| == 4
  {
    b[0] as nat * 0x100_0000 + b[1] as nat * 0x1_0000 + b[2] as nat * 0x100 + b[3] as nat
  }

  lemma ValueOfWord(b: bytes)
    requires |b| == 4
    ensures Value(b) == Word(b)
  {
    var c, d := b[..3], b[..2];
    assert c[..2] == d && d[..1] == [b[0]] && [b[0]][..0] == [];
    assert Value([b[0]]) == b[0] as nat;
    assert Value(d) == b[0] as nat * 0x100 + b[1] as nat;
  }

  /** A frame is the kind, the length of the payload in four bytes with the highest first, and the payload. */
  lemma FrameBytes(m: Message)
    ensures var f := Frame(m);
            && |f| == 5 + |m.payload| && f[0] == m.kind && f[5..] == m.payload
            && Word(f[1..5]) == |m.payload| % LIMIT
  {
    var f := Frame(m);
    assert f[1..5] == BigEndian(|m.payload|);
    BigEndianInverse(|m.payload|);
    ValueOfWord(f[1..5]);
  }

  /** What a reader makes of given bytes: a message as soon as all that its header announces is there. */
  lemma DecodedBytes(stream: bytes)
    ensures Decode(stream).Short? <==> |stream| < 5 || |stream| < 5 + Word(stream[1..5])
    ensures Decode(stream).Decoded? ==>
              var length := Word(stream[1..5]);
              Decode(stream) == Decoded(Message(stream[0], stream[5..5 + length]), stream[5 + length..])
  {
    if |stream| >= 5 { ValueOfWord(stream[1..5]); }
  }

  /** The stream determines the messages: no list of messages looks like another one on the wire. */
  lemma {:induction false} FramesInjective(a: seq<Message>, b: seq<Message>)
    requires forall i :: 0 <= i < |a| ==> Fits(a[i])
    requires forall i :: 0 <= i < |b| ==> Fits(b[i])
    requires Frames(a) == Frames(b)
    ensures a == b
  {
    if a != [] && b != [] {
      DecodeFrame(a[0], Frames(a[1..]));
      DecodeFrame(b[0], Frames(b[1..]));
      FramesInjective(a[1..], b[1..]);
      assert a == [a[0]] + a[1..] && b == [b[0]] + b[1..];
    }
  }

  method CopyAt(buf: array<byte>, from: nat, data: bytes)
    requires from + |data| <= buf.Length
    modifies buf
    ensures buf[..from] == old(buf[..from]) && buf[from..from + |data|] == data
  {
    forall i | 0 <= i < |data| {
      buf[from + i] := data[i];
    }
  }

  lemma ConsumeFirst(segments: seq<bytes>, n: nat)
    requires segments != [] && n <= |segments[0]|
    ensures var rest := if n == |segments[0]| then segments[1..] else [segments[0][n..]] + segments[1..];
            segments[0][..n] + Concat(rest) == Concat(segments)
  {
    var seg := segments[0];
    assert seg == seg[..n] + seg[n..];
    if n < |seg| {
      assert ([seg[n..]] + segments[1..])[1..] == segments[1..];
    }
  }

  /** A stream socket: the segments still to arrive, how the peer ends the stream, and what has been sent. */
  class Conn {
    var incoming: seq<bytes>
    const orderly: bool // the peer closes the connection after the last segment; else it resets it
    var sent: bytes
    var accepts: seq<nat> // how many bytes the next write calls take; a call past the end takes all

    ghost predicate Valid()
      reads this
    {
      forall i :: 0 <= i < |incoming| ==> incoming[i] != []
    }

    /** The bytes still to be read, however they are split. */
    ghost function Input(): bytes
      reads this
    {
      Concat(incoming)
    }

    constructor (incoming: seq<bytes>, orderly: bool, accepts: seq<nat>)
      requires forall i :: 0 <= i < |incoming| ==> incoming[i] != []
      ensures Valid() && this.incoming == incoming && this.orderly == orderly
      ensures this.accepts == accepts && sent == []
    {
      this.incoming, this.orderly, this.accepts, sent := incoming, orderly, accepts, [];
    }

    /**
      Reads into `buf[from..]`: at least one byte, at most one segment. At the end of the stream it reads nothing:
      without an error if the peer has closed the connection, with one if it has reset it.
     */
    method Read(buf: array<byte>, from: nat) returns (n: nat, ok: bool)
      requires Valid() && from < buf.Length
      modifies this`incoming, buf
      ensures Valid()
      ensures ok <==> old(Input()) != [] || orderly
      ensures if old(Input()) == [] then n == 0 else 0 < n <= buf.Length - from
      ensures buf[from..from + n] + Input() == old(Input())
      ensures buf[..from] == old(buf[..from])
    {
      if incoming == [] {
        return 0, orderly;
      }
      var seg := incoming[0];
      n := if |seg| < buf.Length - from then |seg| else buf.Length - from;
      CopyAt(buf, from, seg[..n]);
      ConsumeFirst(incoming, n);
      incoming := if n == |seg| then incoming[1..] else [seg[n..]] + incoming[1..];
      ok := true;
    }

    function Accepted(call: nat, len: nat): nat
      reads this
    {
      if call < |accepts| && accepts[call] < len then accepts[call] else len
    }

    method Write(data: bytes) returns (n: nat)
      modifies this`sent, this`accepts
      ensures n == old(Accepted(0, |data|))
      ensures sent == old(sent) + data[..n]
      ensures accepts == if old(accepts) == [] then [] else old(accepts)[1..]
    {
      n := Accepted(0, |data|);
      sent := sent + data[..n];
      accepts := if accepts == [] then [] else accepts[1..];
    }
  }

  /** How a call ends: `Busy` if it is still under way after the calls to `Read` it has been followed for. */
  datatype Progress = Full | Failed | Busy

  /**
    The loop of `readFull`, followed for at most `calls` calls to `Read`; `left` is what remains of them. More
    calls than bytes decide: the buffer is filled if there are enough bytes; if not, the loop fails when the
    peer has reset the connection, and when the peer has closed it, it is under way for however many calls.
   */
  method ReadFull(conn: Conn, buf: array<byte>, calls: nat) returns (total: nat, progress: Progress, left: nat)
    requires conn.Valid()
    modifies conn`incoming, buf
    ensures conn.Valid()
    ensures total <= buf.Length && buf[..total] + conn.Input() == old(conn.Input())
    ensures progress.Full? ==> total == buf.Length && left + total >= calls
    ensures progress.Failed? ==> |old(conn.Input())| < buf.Length && !conn.orderly
    ensures |old(conn.Input())| < buf.Length && conn.orderly ==> progress.Busy?
    ensures calls > |old(conn.Input())| ==>
              progress == (if |old(conn.Input())| >= buf.Length then Full else if conn.orderly then Busy else Failed)
  {
    total, left := 0, calls;
    ghost var input := conn.Input();
    while total < buf.Length
      invariant total <= buf.Length && conn.Valid()
      invariant buf[..total] + conn.Input() == input
      invariant left + total >= calls || (total == |input| < buf.Length && conn.orderly)
      decreases left
    {
      if left == 0 {
        return total, Busy, 0;
      }
      left := left - 1;
      ghost var done, rest := buf[..total], conn.Input();
      var n, ok := conn.Read(buf, total);
      assert buf[..total + n] == done + buf[total..total + n];
      assert done + (buf[total..total + n] + conn.Input()) == (done + buf[total..total + n]) + conn.Input();
      if !ok {
        return total, Failed, left;
      }
      total := total + n;
    }
    assert buf[..total] == buf[..];
    progress := Full;
  }

  lemma PayloadAndRest(input: bytes, payload: bytes, rest: bytes)
    requires |input| >= 5 && input[5..] == payload + rest
    ensures |input| >= 5 + |payload|
    ensures input[5..5 + |payload|] == payload && input[5 + |payload|..] == rest
  {
    var tail := input[5..];
    assert input[5..5 + |payload|] == tail[..|payload|];
    assert input[5 + |payload|..] == tail[|payload|..];
  }

  datatype Received = Error | Received(message: Message) | Waiting

  /**
    Reads what `Decode` says, for every way the stream is split, when followed for more calls than there are
    bytes. On a stream that ends within a message it fails if the peer has reset the connection, and does not
    return within any number of calls if the peer has closed it.
   */
  method ReadMessage(conn: Conn, calls: nat) returns (r: Received)
    requires conn.Valid()
    modifies conn`incoming
    ensures conn.Valid()
    ensures r.Received? ==> Decode(old(conn.Input())) == Decoded(r.message, conn.Input())
    ensures r.Error? ==> Decode(old(conn.Input())).Short? && !conn.orderly
    ensures Decode(old(conn.Input())).Short? && conn.orderly ==> r.Waiting?
    ensures calls > |old(conn.Input())| ==>
              (r.Waiting? <==> Decode(old(conn.Input())).Short? && conn.orderly)
  {
    ghost var input := conn.Input();
    var header := new byte[5];
    var n, progress, left := ReadFull(conn, header, calls);
    if !progress.Full? {
      return if progress.Failed? then Error else Waiting;
    }
    var kind := header[0];
    var length := Value(header[1..5]);
    assert header[..5] == header[..] == input[..5] && header[1..5] == input[1..5];
    assert conn.Input() == input[5..];
    if length == 0 {
      return Received(Message(kind, []));
    }
    var data := new byte[length];
    n, progress, left := ReadFull(conn, data, left);
    if !progress.Full? {
      return if progress.Failed? then Error else Waiting;
    }
    assert data[..n] == data[..];
    PayloadAndRest(input, data[..], conn.Input());
    return Received(Message(kind, data[..]));
  }

  /** Writes the frame, unless the socket takes only part of one of the two buffers: the counts are not looked at. */
  method WriteMessage(conn: Conn, m: Message)
    modifies conn`sent, conn`accepts
    ensures var n := old(conn.Accepted(0, 5));
            var k := if m.payload == [] then 0 else old(conn.Accepted(1, |m.payload|));
            && conn.sent == old(conn.sent) + Frame(m)[..5][..n] + m.payload[..k]
            && (conn.sent == old(conn.sent) + Frame(m) <==> n == 5 && k == |m.payload|)
    ensures old(conn.accepts) == [] ==> conn.accepts == []
  {
    ghost var before := conn.sent;
    var header := new byte[5];
    header[0] := m.kind;
    var length := BigEndian(|m.payload|);
    forall i | 0 <= i < 4 {
      header[1 + i] := length[i];
    }
    assert header[..] == Frame(m)[..5];
    assert Frame(m) == header[..] + m.payload;
    var n := conn.Write(header[..]);
    var k := 0;
    if |m.payload| > 0 {
      k := conn.Write(m.payload);
    }
    assert conn.sent == before + header[..][..n] + m.payload[..k];
    if n == 5 && k == |m.payload| {
      assert header[..][..n] == header[..] && m.payload[..k] == m.payload;
      assert before + header[..] + m.payload == before + (header[..] + m.payload);
    } else {
      assert |conn.sent| < |before + Frame(m)|;
    }
  }

  lemma FramesStep(before: bytes, ms: seq<Message>, i: nat)
    requires i < |ms|
    ensures before + Frames(ms[i..]) == before + Frame(ms[i]) + Frames(ms[i + 1..])
  {
    assert ms[i..][1..] == ms[i + 1..];
  }

  lemma FirstFrame(ms: seq<Message>, i: nat, rest: bytes)
    requires i < |ms|
    ensures Frames(ms[i..]) + rest == Frame(ms[i]) + (Frames(ms[i + 1..]) + rest)
  {
    FramesStep([], ms, i);
    assert [] + Frames(ms[i..]) == Frames(ms[i..]) && [] + Frame(ms[i]) == Frame(ms[i]);
  }

  /** A writer that sends a list of messages over a socket that takes whole buffers. */
  method WriteMessages(ms: seq<Message>) returns (stream: bytes)
    ensures stream == Frames(ms)
  {
    var conn := new Conn([], true, []);
    for i := 0 to |ms|
      invariant conn.accepts == []
      invariant conn.sent + Frames(ms[i..]) == Frames(ms)
    {
      FramesStep(conn.sent, ms, i);
      WriteMessage(conn, ms[i]);
    }
    return conn.sent;
  }

  /**
    Whatever was written is read back, for every splitting of the stream, and nothing beyond it is consumed. As
    many calls to `Read` as there are bytes and one more are enough for every message.
   */
  method ReadMessages(segments: seq<bytes>, ghost ms: seq<Message>, ghost rest: bytes, count: nat)
    returns (received: seq<Received>, left: seq<bytes>)
    requires forall i :: 0 <= i < |segments| ==> segments[i] != []
    requires forall i :: 0 <= i < |ms| ==> Fits(ms[i])
    requires Concat(segments) == Frames(ms) + rest && count == |ms|
    ensures |received| == |ms| && forall i :: 0 <= i < |ms| ==> received[i] == Received(ms[i])
    ensures Concat(left) == rest
  {
    var conn := new Conn(segments, true, []);
    var calls := |Concat(segments)| + 1;
    received := [];
    for i := 0 to count
      invariant conn.Valid() && |received| == i && |conn.Input()| < calls
      invariant conn.Input() == Frames(ms[i..]) + rest
      invariant forall j :: 0 <= j < i ==> received[j] == Received(ms[j])
    {
      FirstFrame(ms, i, rest);
      DecodeFrame(ms[i], Frames(ms[i + 1..]) + rest);
      var r := ReadMessage(conn, calls);
      received := received + [r];
    }
    left := conn.incoming;
  }
}
